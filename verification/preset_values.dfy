/** Value objects of saved log-filter presets: the preset name, the metadata
    comparison operators with their spellings, and a single metadata filter. */
module PresetValues {
  import opened Wrappers
  import opened Text
  import opened Json
  import opened LogValues

  /** `FilterPresetName::new`: the shared name rule (trimmed, 1 to 100 bytes),
      with its failures reported as invalid-preset errors. */
  function NewPresetName(raw: string): (r: Result<string, LogError>)
    ensures r.Ok? <==> ValidateName(raw).Ok?
    ensures r.Ok? ==> r.value == Trim(raw)
    ensures r.Err? ==> r.error.InvalidFilterPreset? && (r.error.problem == PresetNameEmpty <==> Trim(raw) == [])
  {
    match ValidateName(raw)
    case Ok(name) => Ok(name)
    case Err(EmptyName) => Err(InvalidFilterPreset(PresetNameEmpty))
    case Err(NameTooLong) => Err(InvalidFilterPreset(PresetNameTooLong))
  }

  datatype MetadataOperator = Eq | Neq | Contains | Exists | Gt | Lt | Gte | Lte

  /** The canonical name of an operator, as stored and as printed. */
  function OperatorName(o: MetadataOperator): string {
    match o
    case Eq => "eq"
    case Neq => "neq"
    case Contains => "contains"
    case Exists => "exists"
    case Gt => "gt"
    case Lt => "lt"
    case Gte => "gte"
    case Lte => "lte"
  }

  /** Every spelling an operator accepts after lower-casing: its name first,
      then its word and symbol aliases. */
  function OperatorSpellings(o: MetadataOperator): seq<string> {
    match o
    case Eq => ["eq", "equals", "="]
    case Neq => ["neq", "ne", "!="]
    case Contains => ["contains", "like"]
    case Exists => ["exists"]
    case Gt => ["gt", ">"]
    case Lt => ["lt", "<"]
    case Gte => ["gte", ">="]
    case Lte => ["lte", "<="]
  }

  /** `MetadataOperator::from_str`: case-insensitive over the spellings above,
      tried operator by operator in declaration order. */
  function OperatorFromStr(s: string): (r: Result<MetadataOperator, LogError>)
    ensures r.Ok? ==> ToLower(s) in OperatorSpellings(r.value)
    ensures r.Err? ==> r.error == InvalidFilterPreset(UnknownMetadataOperator(s))
  {
    var lower := ToLower(s);
    if lower in OperatorSpellings(Eq) then Ok(Eq)
    else if lower in OperatorSpellings(Neq) then Ok(Neq)
    else if lower in OperatorSpellings(Contains) then Ok(Contains)
    else if lower in OperatorSpellings(Exists) then Ok(Exists)
    else if lower in OperatorSpellings(Gt) then Ok(Gt)
    else if lower in OperatorSpellings(Lt) then Ok(Lt)
    else if lower in OperatorSpellings(Gte) then Ok(Gte)
    else if lower in OperatorSpellings(Lte) then Ok(Lte)
    else Err(InvalidFilterPreset(UnknownMetadataOperator(s)))
  }

  /** No spelling belongs to two operators. */
  lemma SpellingsAreDisjoint(o1: MetadataOperator, o2: MetadataOperator, w: string)
    requires w in OperatorSpellings(o1) && w in OperatorSpellings(o2)
    ensures o1 == o2
  {
  }

  /** Each operator's spellings parse to that operator, in any case; the printed
      name is the first spelling, so printing then parsing is the identity. */
  lemma OperatorRoundTrip(o: MetadataOperator)
    ensures OperatorSpellings(o)[0] == OperatorName(o)
    ensures forall w :: w in OperatorSpellings(o) ==> OperatorFromStr(w) == Ok(o)
    ensures OperatorFromStr(ToUpper(OperatorName(o))) == Ok(o)
  {
    forall w | w in OperatorSpellings(o)
      ensures OperatorFromStr(w) == Ok(o)
    {
      LowerOfLowerKeyword(w);
      SpellingParses(o, w);
    }
    LowerOfLowerKeyword(OperatorName(o));
    SpellingParses(o, ToUpper(OperatorName(o)));
  }

  /** A text whose lower-cased form is one of an operator's spellings parses to it. */
  lemma SpellingParses(o: MetadataOperator, w: string)
    requires ToLower(w) in OperatorSpellings(o)
    ensures OperatorFromStr(w) == Ok(o)
  {
    var r := OperatorFromStr(w);
    assert r.Ok?;
    SpellingsAreDisjoint(o, r.value, ToLower(w));
  }

  /** A string is accepted exactly when its lower-cased form is a spelling of some operator. */
  lemma OperatorFromStrAccepts(s: string)
    ensures OperatorFromStr(s).Ok? <==> exists o :: ToLower(s) in OperatorSpellings(o)
  {
    if OperatorFromStr(s).Ok? {
      assert ToLower(s) in OperatorSpellings(OperatorFromStr(s).value);
    }
  }

  /** `requires_value`: every operator but Exists compares against a value. */
  function RequiresValue(o: MetadataOperator): (r: bool)
    ensures r <==> o != Exists
  {
    !o.Exists?
  }

  /** One metadata condition: the key path, the operator and the value compared
      against, absent only when the operator needs none. */
  datatype MetadataFilter = MetadataFilter(key: string, op: MetadataOperator, value: Option<Json>)

  /** A filter that `NewMetadataFilter` can produce: a trimmed non-blank key, and
      a value whenever the operator needs one. */
  predicate WellFormedFilter(f: MetadataFilter) {
    Trim(f.key) == f.key && |f.key| > 0 && (RequiresValue(f.op) ==> f.value.Some?)
  }

  /** `MetadataFilter::new`: refuses a blank key first, then a missing value for
      an operator that needs one; the key is stored trimmed. */
  function NewMetadataFilter(key: string, op: MetadataOperator, value: Option<Json>): (r: Result<MetadataFilter, LogError>)
    ensures r.Ok? <==> |Trim(key)| > 0 && (RequiresValue(op) ==> value.Some?)
    ensures r.Ok? ==> r.value == MetadataFilter(Trim(key), op, value) && WellFormedFilter(r.value)
    ensures Trim(key) == [] ==> r == Err(InvalidFilterPreset(EmptyMetadataKey))
    ensures |Trim(key)| > 0 && RequiresValue(op) && value.None? ==> r == Err(InvalidFilterPreset(MissingMetadataValue(OperatorName(op))))
  {
    TrimIsIdempotent(key);
    if Trim(key) == [] then Err(InvalidFilterPreset(EmptyMetadataKey))
    else if RequiresValue(op) && value.None? then Err(InvalidFilterPreset(MissingMetadataValue(OperatorName(op))))
    else Ok(MetadataFilter(Trim(key), op, value))
  }
}
