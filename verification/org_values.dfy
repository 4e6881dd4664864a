/** Value objects of the organisations module: the organisation name, the slug
    generated from it and the slug read back from storage, the member roles and
    their permissions, the invite statuses and the activity types. */
module OrgValues {
  import opened Wrappers
  import opened Text

  datatype SlugProblem = EmptySlug | BadSlugChar

  /** The failures of the organisations module, including the variants the
      invite and activity code raises; a rejected string travels with its error. */
  datatype OrgError =
    | InvalidOrgName(reason: NameError)
    | InvalidOrgSlug(problem: SlugProblem)
    | InvalidRole(input: string)
    | InvalidInviteStatus(input: string)
    | InvalidActivityType(input: string)
    | OrgNotFound
    | OrgAlreadyExists
    | SlugTaken
    | CannotDeletePersonalOrg
    | OrgAlreadyDeleted
    | NotOrgMember
    | AlreadyMember
    | UserNotFound
    | InsufficientPermissions
    | CannotRemoveLastOwner
    | CannotLeaveAsLastOwner
    | CannotDemoteLastOwner
    | CannotInviteSelf
    | UserDoesNotAllowInvites
    | InviteAlreadyExists
    | InviteNotFound
    | InviteAlreadyProcessed
    | InviteExpired
    | InternalError

  // ---------------------------------------------------------------------------
  // name

  /** `OrgName::new`: the trimmed text, non-empty and at most 100 bytes. */
  function NewOrgName(raw: string): (r: Result<string, OrgError>)
    ensures r.Ok? <==> 1 <= |Trim(raw)| && ByteLen(Trim(raw)) <= MaxNameBytes
    ensures r.Ok? ==> r.value == Trim(raw)
    ensures r.Err? ==> r.error.InvalidOrgName? && (r.error.reason == EmptyName <==> Trim(raw) == [])
  {
    ValidateNameSpec(raw);
    match ValidateName(raw)
    case Ok(name) => Ok(name)
    case Err(reason) => Err(InvalidOrgName(reason))
  }

  // ---------------------------------------------------------------------------
  // slug

  /** The characters a stored slug may hold. */
  predicate IsSlugChar(c: char) { IsAsciiLower(c) || IsAsciiDigit(c) || c == '-' }

  predicate IsSlug(s: string) {
    |s| > 0 && forall i :: 0 <= i < |s| ==> IsSlugChar(s[i])
  }

  /** `OrgSlug::from_string`: refuses the empty text, then any character outside
      [a-z0-9-]; an accepted slug is stored verbatim. */
  function SlugFromString(s: string): (r: Result<string, OrgError>)
    ensures r.Ok? <==> IsSlug(s)
    ensures r.Ok? ==> r.value == s
    ensures |s| == 0 ==> r == Err(InvalidOrgSlug(EmptySlug))
    ensures |s| > 0 && r.Err? ==> r == Err(InvalidOrgSlug(BadSlugChar))
  {
    if |s| == 0 then Err(InvalidOrgSlug(EmptySlug))
    else if !(forall i :: 0 <= i < |s| ==> IsSlugChar(s[i])) then Err(InvalidOrgSlug(BadSlugChar))
    else Ok(s)
  }

  /** Whether the slug keeps a character: an ASCII letter or digit in the
      corrected reading, any letter or digit Rust's `char::is_alphanumeric`
      accepts in the reading as written. */
  predicate SlugKeeps(c: char, asWritten: bool) {
    if asWritten then IsAlphanumericAsWritten(c) else IsAsciiAlphanumeric(c)
  }

  /** Each character kept when `SlugKeeps` says so, and replaced by '-' otherwise. */
  function SlugChars(s: string, asWritten: bool): (r: string)
    ensures |r| == |s|
    ensures forall i :: 0 <= i < |s| ==> r[i] == (if SlugKeeps(s[i], asWritten) then s[i] else '-')
  {
    seq(|s|, i requires 0 <= i < |s| => if SlugKeeps(s[i], asWritten) then s[i] else '-')
  }

  /** The base of a generated slug: the lower-cased name with every character
      not kept turned into '-', then cut at '-', empty pieces dropped and the
      rest joined with single '-'. */
  function SlugBase(name: string, asWritten: bool): string {
    Join(NonEmptyParts(Split(SlugChars(ToLower(name), asWritten), '-')), '-')
  }

  /** `OrgSlug::generate` with letters and digits read as ASCII letters and
      digits: the base, then '-', then the suffix. */
  function GenerateSlug(name: string, suffix: string): (r: string)
    ensures |r| > |suffix| && r[|r| - |suffix| - 1..] == "-" + suffix
    ensures var b := r[..|r| - |suffix| - 1];
      && RemoveChar(b, '-') == KeepAlnum(ToLower(name))
      && (|b| > 0 ==> b[0] != '-' && b[|b| - 1] != '-')
      && (forall i :: 0 <= i < |b| ==> IsSlugChar(b[i]))
  {
    var b := SlugBase(name, false);
    SlugBaseShape(name);
    SlugBaseContent(name);
    var r := b + "-" + suffix;
    assert r[..|r| - |suffix| - 1] == b;
    r
  }

  /** The letters and digits of a text, in order. */
  function KeepAlnum(s: string): (r: string)
    ensures forall i :: 0 <= i < |r| ==> IsAsciiAlphanumeric(r[i])
    decreases |s|
  {
    if |s| == 0 then ""
    else (if IsAsciiAlphanumeric(s[0]) then [s[0]] else "") + KeepAlnum(s[1..])
  }

  /** Every character of every piece of a split is a character of the text. */
  lemma {:induction false} SplitChars(s: string, sep: char)
    ensures forall k, j :: 0 <= k < |Split(s, sep)| && 0 <= j < |Split(s, sep)[k]| ==> Split(s, sep)[k][j] in s
    decreases |s|
  {
    if |s| > 0 {
      SplitChars(s[1..], sep);
      var rest := Split(s[1..], sep);
      assert forall c :: c in s[1..] ==> c in s;
      if s[0] != sep {
        var parts := [[s[0]] + rest[0]] + rest[1..];
        assert Split(s, sep) == parts;
        forall k, j | 0 <= k < |parts| && 0 <= j < |parts[k]|
          ensures parts[k][j] in s
        {
          if k == 0 && j > 0 {
            assert parts[0][j] == rest[0][j - 1];
          } else if k > 0 {
            assert parts[k] == rest[k];
          }
        }
      } else {
        assert Split(s, sep) == [""] + rest;
      }
    }
  }

  /** The base never starts or ends with '-' nor holds "--", and every
      character of it is a lower-case letter, a digit or '-'. */
  lemma SlugBaseShape(name: string)
    ensures var b := SlugBase(name, false);
      (|b| > 0 ==> b[0] != '-' && b[|b| - 1] != '-')
      && (forall i :: 0 <= i < |b| - 1 ==> !(b[i] == '-' && b[i + 1] == '-'))
      && (forall i :: 0 <= i < |b| ==> IsSlugChar(b[i]))
  {
    var t := SlugChars(ToLower(name), false);
    var split := Split(t, '-');
    var parts := NonEmptyParts(split);
    JoinOfNonEmptyParts(parts, '-');
    forall i | 0 <= i < |t|
      ensures IsSlugChar(t[i])
    {
      var c := ToLower(name)[i];
      assert c == ToLowerChar(name[i]);
    }
    SplitChars(t, '-');
    forall k, j | 0 <= k < |parts| && 0 <= j < |parts[k]|
      ensures IsSlugChar(parts[k][j])
    {
      assert parts[k] in split;
      var c := parts[k][j];
      assert c in t;
    }
    JoinChars(parts, '-', IsSlugChar);
  }

  /** Taking the hyphens out of the base leaves exactly the letters and digits
      of the lower-cased name, in order: nothing is lost, nothing added. */
  lemma SlugBaseContent(name: string)
    ensures RemoveChar(SlugBase(name, false), '-') == KeepAlnum(ToLower(name))
  {
    var t := SlugChars(ToLower(name), false);
    var split := Split(t, '-');
    var parts := NonEmptyParts(split);
    RemoveCharJoin(parts, '-');
    ConcatNonEmptyParts(split);
    ConcatSplit(t, '-');
    RemoveHyphensOfSlugChars(ToLower(name));
  }

  lemma {:induction false} RemoveHyphensOfSlugChars(s: string)
    ensures RemoveChar(SlugChars(s, false), '-') == KeepAlnum(s)
    decreases |s|
  {
    if |s| > 0 {
      var t := SlugChars(s, false);
      RemoveHyphensOfSlugChars(s[1..]);
      assert t[1..] == SlugChars(s[1..], false);
    }
  }

  /** A generated slug with a suffix drawn from [a-z0-9-] is always accepted
      when read back from storage. */
  lemma GeneratedSlugIsReadable(name: string, suffix: string)
    requires forall i :: 0 <= i < |suffix| ==> IsSlugChar(suffix[i])
    ensures SlugFromString(GenerateSlug(name, suffix)) == Ok(GenerateSlug(name, suffix))
  {
    SlugBaseShape(name);
    var b := SlugBase(name, false);
    var r := GenerateSlug(name, suffix);
    forall i | 0 <= i < |r|
      ensures IsSlugChar(r[i])
    {
      if i < |b| {
        assert r[i] == b[i];
      } else if i > |b| {
        assert r[i] == suffix[i - |b| - 1];
      }
    }
  }

  /** The example of the unit tests. */
  lemma SlugExample()
    ensures GenerateSlug("My Cool Org", "x7k2") == "my-cool-org-x7k2"
  {
    LowerExample();
    CharsExample();
    SplitExample();
    PartsExample();
    SlugOfSteps("My Cool Org", "my cool org", "my-cool-org", ["my", "cool", "org"], ["my", "cool", "org"], "x7k2");
  }

  /** Chains the steps of a worked example. */
  lemma SlugOfSteps(name: string, lower: string, chars: string, parts: seq<string>, kept: seq<string>, suffix: string)
    requires ToLower(name) == lower && SlugChars(lower, false) == chars
    requires Split(chars, '-') == parts && NonEmptyParts(parts) == kept
    ensures GenerateSlug(name, suffix) == Join(kept, '-') + "-" + suffix
  {
  }

  /** The second example: the ampersand, the spaces and the exclamation mark
      become hyphens, and the empty pieces between and after them vanish. */
  lemma SlugExampleWithSymbols()
    ensures GenerateSlug("Test & Company!", "abc1") == "test-company-abc1"
  {
    var parts := ["test", "", "", "company", ""];
    SymbolsLowerExample();
    SymbolsCharsExample();
    SymbolsSplitExample();
    SymbolsPartsExample();
    SlugOfSteps("Test & Company!", "test & company!", "test" + "-" + "--company-", parts, ["test", "company"], "abc1");
  }

  lemma SymbolsLowerExample()
    ensures ToLower("Test & Company!") == "test & company!"
  {
  }

  lemma SymbolsCharsExample()
    ensures SlugChars("test & company!", false) == "test" + "-" + "--company-"
  {
    var s := "test & company!";
    var r := SlugChars(s, false);
    assert forall i :: 0 <= i < |s| ==> r[i] == "test---company-"[i];
  }

  lemma SymbolsSplitExample()
    ensures Split("test" + "-" + "--company-", '-') == ["test", "", "", "company", ""]
  {
    var p := ["test", "", "", "company", ""];
    SplitJoin(p, '-');
    assert Join(p, '-') == "test" + "-" + "--company-";
  }

  lemma SymbolsPartsExample()
    ensures NonEmptyParts(["test", "", "", "company", ""]) == ["test", "company"]
    ensures Join(["test", "company"], '-') + "-" + "abc1" == "test-company-abc1"
  {
    var p := ["test", "", "", "company", ""];
    assert p[1..][1..][1..][1..][1..] == [];
    assert NonEmptyParts(p[1..][1..][1..][1..]) == [];
    assert NonEmptyParts(p[1..][1..][1..]) == ["company"];
    assert NonEmptyParts(p[1..]) == ["company"];
    assert Join(["test", "company"], '-') == "test-company";
  }

  lemma PartsExample()
    ensures NonEmptyParts(["my", "cool", "org"]) == ["my", "cool", "org"]
    ensures Join(["my", "cool", "org"], '-') + "-" + "x7k2" == "my-cool-org-x7k2"
  {
    assert Join(["my", "cool", "org"], '-') == "my-cool-org";
  }

  lemma LowerExample()
    ensures ToLower("My Cool Org") == "my cool org"
  {
  }

  lemma CharsExample()
    ensures SlugChars("my cool org", false) == "my-cool-org"
  {
    var s := "my cool org";
    var r := SlugChars(s, false);
    assert forall i :: 0 <= i < |s| ==> r[i] == "my-cool-org"[i];
  }

  lemma SplitExample()
    ensures Split("my-cool-org", '-') == ["my", "cool", "org"]
  {
    var p := ["my", "cool", "org"];
    SplitJoin(p, '-');
    assert Join(p, '-') == "my-cool-org";
  }

  // ---------------------------------------------------------------------------
  // slug as written: Unicode letters are kept

  /** Rust's `char::is_alphanumeric` holds for the Latin-1 letters as well as
      for the ASCII ones; this is the part of it that matters here. */
  predicate IsLatin1Letter(c: char) {
    '\U{C0}' <= c <= '\U{FF}' && c != '\U{D7}' && c != '\U{F7}'
  }

  predicate IsAlphanumericAsWritten(c: char) { IsAsciiAlphanumeric(c) || IsLatin1Letter(c) }

  /** `OrgSlug::generate` as the code reads: a Latin-1 letter such as 'é' is
      kept in the slug. */
  function GenerateSlugAsWritten(name: string, suffix: string): string
  {
    SlugBase(name, true) + "-" + suffix
  }

  /** The generated slug of an organisation named "café" is refused by
      `from_string`, which the organisation repository calls on every read. */
  lemma AccentedNameGivesUnreadableSlug()
    ensures SlugFromString(GenerateSlugAsWritten("caf\U{E9}", "x7k2")).Err?
    ensures SlugFromString(GenerateSlug("caf\U{E9}", "x7k2")).Ok?
  {
    var name := "caf\U{E9}";
    assert ToLower(name) == name;
    var t := SlugChars(name, true);
    assert t == name;
    SplitWithoutSep(name, '-');
    assert NonEmptyParts([name]) == [name];
    var r := GenerateSlugAsWritten(name, "x7k2");
    assert r[3] == '\U{E9}' && !IsSlugChar(r[3]);
    GeneratedSlugIsReadable(name, "x7k2");
  }

  // ---------------------------------------------------------------------------
  // random suffix

  const SuffixCharset: string := "abcdefghijklmnopqrstuvwxyz0123456789"

  /** `generate_random_suffix`: four characters, each picked from the charset
      by one draw of the random number generator (an index below 36). */
  function RandomSuffix(draws: seq<nat>): (r: string)
    requires |draws| == 4 && forall i :: 0 <= i < 4 ==> draws[i] < |SuffixCharset|
    ensures |r| == 4
    ensures forall i :: 0 <= i < 4 ==> r[i] == SuffixCharset[draws[i]]
    ensures forall i :: 0 <= i < 4 ==> IsAsciiLower(r[i]) || IsAsciiDigit(r[i])
  {
    assert forall k :: 0 <= k < |SuffixCharset| ==> IsAsciiLower(SuffixCharset[k]) || IsAsciiDigit(SuffixCharset[k]);
    [SuffixCharset[draws[0]], SuffixCharset[draws[1]], SuffixCharset[draws[2]], SuffixCharset[draws[3]]]
  }

  /** Every character the suffix may hold is drawn by some index. */
  lemma CharsetIndex(c: char) returns (k: nat)
    requires IsAsciiLower(c) || IsAsciiDigit(c)
    ensures k < |SuffixCharset| && SuffixCharset[k] == c
  {
    if IsAsciiLower(c) {
      k := c as nat - 'a' as nat;
    } else {
      k := 26 + c as nat - '0' as nat;
    }
  }

  /** Every four-character string over [a-z0-9] is a possible suffix, and every
      suffix is a valid slug tail. */
  lemma RandomSuffixIsOnto(s: string)
    requires |s| == 4 && forall i :: 0 <= i < 4 ==> IsAsciiLower(s[i]) || IsAsciiDigit(s[i])
    ensures exists draws: seq<nat> ::
              && |draws| == 4 && (forall i :: 0 <= i < 4 ==> draws[i] < |SuffixCharset|)
              && RandomSuffix(draws) == s
  {
    var k0 := CharsetIndex(s[0]);
    var k1 := CharsetIndex(s[1]);
    var k2 := CharsetIndex(s[2]);
    var k3 := CharsetIndex(s[3]);
    var draws := [k0, k1, k2, k3];
    assert RandomSuffix(draws) == s;
  }

  // ---------------------------------------------------------------------------
  // role

  datatype OrgRole = Owner | Admin | Member

  function RoleName(r: OrgRole): string {
    match r
    case Owner => "owner"
    case Admin => "admin"
    case Member => "member"
  }

  /** `OrgRole::from_str`: case-insensitive over the three names. */
  function RoleFromStr(s: string): (r: Result<OrgRole, OrgError>)
    ensures r.Ok? ==> ToLower(s) == RoleName(r.value)
    ensures r.Err? ==> r.error == InvalidRole(s)
  {
    var lower := ToLower(s);
    if lower == "owner" then Ok(Owner)
    else if lower == "admin" then Ok(Admin)
    else if lower == "member" then Ok(Member)
    else Err(InvalidRole(s))
  }

  lemma RoleRoundTrip(role: OrgRole, s: string)
    ensures RoleFromStr(RoleName(role)) == Ok(role)
    ensures RoleFromStr(ToUpper(RoleName(role))) == Ok(role)
    ensures RoleFromStr(s).Ok? <==> exists u :: ToLower(s) == RoleName(u)
  {
    LowerOfLowerKeyword(RoleName(role));
    if RoleFromStr(s).Ok? {
      assert ToLower(s) == RoleName(RoleFromStr(s).value);
    }
  }

  /** The unit test's spellings. */
  lemma RoleExamples()
    ensures RoleFromStr("owner") == Ok(Owner) && RoleFromStr("ADMIN") == Ok(Admin)
    ensures RoleFromStr("Member") == Ok(Member) && RoleFromStr("invalid").Err?
  {
    RoleRoundTrip(Owner, "");
    RoleRoundTrip(Admin, "");
    assert ToLower("Member") == "member";
    assert ToLower("invalid") == "invalid";
  }

  predicate CanManageMembers(r: OrgRole) { r == Owner || r == Admin }
  predicate CanManageAdmins(r: OrgRole) { r == Owner }
  predicate CanDeleteOrg(r: OrgRole) { r == Owner }
  predicate CanUpdateOrg(r: OrgRole) { r == Owner || r == Admin }

  /** The roles are ranked Owner over Admin over Member. */
  function RoleRank(r: OrgRole): nat {
    match r
    case Owner => 2
    case Admin => 1
    case Member => 0
  }

  /** The permission matrix: Owner holds all four permissions, Admin holds
      member management and organisation updates, Member holds none; every
      permission a role holds is held by every role ranked above it. */
  lemma PermissionMatrix(r: OrgRole, q: OrgRole)
    ensures CanManageMembers(r) && CanManageAdmins(r) && CanDeleteOrg(r) && CanUpdateOrg(r) <==> r == Owner
    ensures CanManageMembers(r) && CanUpdateOrg(r) && !CanManageAdmins(r) && !CanDeleteOrg(r) <==> r == Admin
    ensures !CanManageMembers(r) && !CanManageAdmins(r) && !CanDeleteOrg(r) && !CanUpdateOrg(r) <==> r == Member
    ensures RoleRank(r) <= RoleRank(q) ==>
      (CanManageMembers(r) ==> CanManageMembers(q)) && (CanManageAdmins(r) ==> CanManageAdmins(q))
      && (CanDeleteOrg(r) ==> CanDeleteOrg(q)) && (CanUpdateOrg(r) ==> CanUpdateOrg(q))
  {
  }

  // ---------------------------------------------------------------------------
  // invite status

  datatype InviteStatus = Pending | Accepted | Declined | Expired

  function InviteStatusName(s: InviteStatus): string {
    match s
    case Pending => "pending"
    case Accepted => "accepted"
    case Declined => "declined"
    case Expired => "expired"
  }

  /** `InviteStatus::from_str`: exactly the four names, case-sensitively. */
  function InviteStatusFromStr(s: string): (r: Result<InviteStatus, OrgError>)
    ensures r.Ok? ==> InviteStatusName(r.value) == s
    ensures r.Err? ==> r.error == InvalidInviteStatus(s)
  {
    match s
    case "pending" => Ok(Pending)
    case "accepted" => Ok(Accepted)
    case "declined" => Ok(Declined)
    case "expired" => Ok(Expired)
    case _ => Err(InvalidInviteStatus(s))
  }

  /** Printing then parsing is the identity, and a string parses exactly when it
      is one of the printed names. */
  lemma InviteStatusRoundTrip(st: InviteStatus, s: string)
    ensures InviteStatusFromStr(InviteStatusName(st)) == Ok(st)
    ensures InviteStatusFromStr(s).Ok? <==> exists u :: InviteStatusName(u) == s
  {
    if exists u :: InviteStatusName(u) == s {
      var u :| InviteStatusName(u) == s;
      assert InviteStatusFromStr(s) == Ok(u);
    }
  }

  /** Parsing is case-sensitive: the upper-cased names are refused. */
  lemma InviteStatusIsCaseSensitive()
    ensures InviteStatusFromStr("PENDING").Err? && InviteStatusFromStr("Accepted").Err?
  {
  }

  // ---------------------------------------------------------------------------
  // activity type

  datatype ActivityType =
    | OrgCreated | MemberAdded | MemberRemoved | MemberRoleChanged
    | OrgNameChanged | InviteSent | InviteAccepted | InviteDeclined

  function ActivityTypeName(t: ActivityType): string {
    match t
    case OrgCreated => "org_created"
    case MemberAdded => "member_added"
    case MemberRemoved => "member_removed"
    case MemberRoleChanged => "member_role_changed"
    case OrgNameChanged => "org_name_changed"
    case InviteSent => "invite_sent"
    case InviteAccepted => "invite_accepted"
    case InviteDeclined => "invite_declined"
  }

  /** `ActivityType::from_str`: exactly the eight names, case-sensitively. */
  function ActivityTypeFromStr(s: string): (r: Result<ActivityType, OrgError>)
    ensures r.Ok? ==> ActivityTypeName(r.value) == s
    ensures r.Err? ==> r.error == InvalidActivityType(s)
  {
    match s
    case "org_created" => Ok(OrgCreated)
    case "member_added" => Ok(MemberAdded)
    case "member_removed" => Ok(MemberRemoved)
    case "member_role_changed" => Ok(MemberRoleChanged)
    case "org_name_changed" => Ok(OrgNameChanged)
    case "invite_sent" => Ok(InviteSent)
    case "invite_accepted" => Ok(InviteAccepted)
    case "invite_declined" => Ok(InviteDeclined)
    case _ => Err(InvalidActivityType(s))
  }

  /** The eight names are distinct, printing then parsing is the identity, and
      a string parses exactly when it is one of the names. */
  lemma ActivityTypeRoundTrip(t: ActivityType, u: ActivityType, s: string)
    ensures ActivityTypeName(t) == ActivityTypeName(u) ==> t == u
    ensures ActivityTypeFromStr(ActivityTypeName(t)) == Ok(t)
    ensures ActivityTypeFromStr(s).Ok? <==> exists v :: ActivityTypeName(v) == s
  {
    if exists v :: ActivityTypeName(v) == s {
      var v :| ActivityTypeName(v) == s;
      assert ActivityTypeFromStr(s) == Ok(v);
    }
  }

  /** The unit test's unknown name. */
  lemma ActivityTypeExamples()
    ensures ActivityTypeFromStr("invalid") == Err(InvalidActivityType("invalid"))
    ensures ActivityTypeFromStr("ORG_CREATED").Err?
  {
  }
}
