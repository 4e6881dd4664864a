/** Character and string operations the backend borrows from Rust's standard
    library: ASCII case mapping, `trim`, byte length, `starts_with`,
    `strip_prefix`, `split`/`join` on one character, and `i64::from_str`.

    Case mapping and the alphanumeric test are ASCII-only here: characters outside
    ASCII are left unchanged by `ToLower`/`ToUpper` and are not alphanumeric.
    `ByteLen` is the exact UTF-8 length that Rust's `str::len` reports. */
module Text {
  import opened Wrappers

  predicate IsAsciiUpper(c: char) { 'A' <= c <= 'Z' }
  predicate IsAsciiLower(c: char) { 'a' <= c <= 'z' }
  predicate IsAsciiDigit(c: char) { '0' <= c <= '9' }
  predicate IsAsciiAlphanumeric(c: char) { IsAsciiUpper(c) || IsAsciiLower(c) || IsAsciiDigit(c) }
  predicate IsAsciiChar(c: char) { c < 128 as char }

  predicate IsAscii(s: string) {
    forall i :: 0 <= i < |s| ==> IsAsciiChar(s[i])
  }

  /** Rust's `char::is_whitespace`: the Unicode White_Space property, that is
      tab through carriage return, space, next line, no-break space, the Ogham
      space mark, the spaces U+2000 to U+200A, the line and paragraph
      separators, the narrow no-break space, the medium mathematical space and
      the ideographic space. */
  predicate IsWhitespace(c: char) {
    '\t' <= c <= '\r' || c in WideSpaces
  }

  const WideSpaces: set<char> := {
    ' ', '\U{0085}', '\U{00A0}', '\U{1680}',
    '\U{2000}', '\U{2001}', '\U{2002}', '\U{2003}', '\U{2004}', '\U{2005}',
    '\U{2006}', '\U{2007}', '\U{2008}', '\U{2009}', '\U{200A}',
    '\U{2028}', '\U{2029}', '\U{202F}', '\U{205F}', '\U{3000}'
  }

  function ToLowerChar(c: char): char {
    if IsAsciiUpper(c) then (c as int + 32) as char else c
  }

  /** Lower-casing never turns a character into whitespace. */
  lemma LowerKeepsNonBlank(c: char)
    requires !IsWhitespace(c)
    ensures !IsWhitespace(ToLowerChar(c))
  {
    if IsAsciiUpper(c) {
      assert 'a' <= ToLowerChar(c) <= 'z';
    }
  }

  function ToUpperChar(c: char): char {
    if IsAsciiLower(c) then (c as int - 32) as char else c
  }

  function ToLower(s: string): (r: string)
    ensures |r| == |s|
    ensures forall i :: 0 <= i < |s| ==> r[i] == ToLowerChar(s[i])
  {
    seq(|s|, i requires 0 <= i < |s| => ToLowerChar(s[i]))
  }

  function ToUpper(s: string): (r: string)
    ensures |r| == |s|
    ensures forall i :: 0 <= i < |s| ==> r[i] == ToUpperChar(s[i])
  {
    seq(|s|, i requires 0 <= i < |s| => ToUpperChar(s[i]))
  }

  /** `ToLower` leaves no ASCII upper-case letter behind, so a second call changes nothing. */
  lemma LowerIsIdempotent(s: string)
    ensures forall i :: 0 <= i < |s| ==> !IsAsciiUpper(ToLower(s)[i])
    ensures ToLower(ToLower(s)) == ToLower(s)
  {
  }

  /** A string with no ASCII upper-case letter: the shape of every keyword the
      parsers compare against after lower-casing their input. */
  predicate IsLowerKeyword(s: string) {
    forall i :: 0 <= i < |s| ==> !IsAsciiUpper(s[i])
  }

  /** Lower-casing leaves a keyword alone, and undoes upper-casing it. */
  lemma LowerOfLowerKeyword(s: string)
    requires IsLowerKeyword(s)
    ensures ToLower(s) == s
    ensures ToLower(ToUpper(s)) == s
  {
  }

  // ---------------------------------------------------------------------------
  // trim

  /** The first position at or after `i` that does not hold whitespace. */
  function BlanksFrom(s: string, i: nat): (j: nat)
    requires i <= |s|
    ensures i <= j <= |s|
    ensures forall k :: i <= k < j ==> IsWhitespace(s[k])
    ensures j < |s| ==> !IsWhitespace(s[j])
    decreases |s| - i
  {
    if i < |s| && IsWhitespace(s[i]) then BlanksFrom(s, i + 1) else i
  }

  /** The position just after the last non-whitespace character before `j`. */
  function BlanksBefore(s: string, j: nat): (i: nat)
    requires j <= |s|
    ensures i <= j
    ensures forall k :: i <= k < j ==> IsWhitespace(s[k])
    ensures i > 0 ==> !IsWhitespace(s[i - 1])
    decreases j
  {
    if j > 0 && IsWhitespace(s[j - 1]) then BlanksBefore(s, j - 1) else j
  }

  function TrimStart(s: string): (r: string)
    ensures |r| <= |s| && r == s[|s| - |r|..]
    ensures forall k :: 0 <= k < |s| - |r| ==> IsWhitespace(s[k])
    ensures |r| > 0 ==> !IsWhitespace(r[0])
  {
    s[BlanksFrom(s, 0)..]
  }

  function TrimEnd(s: string): (r: string)
    ensures |r| <= |s| && r == s[..|r|]
    ensures forall k :: |r| <= k < |s| ==> IsWhitespace(s[k])
    ensures |r| > 0 ==> !IsWhitespace(r[|r| - 1])
  {
    s[..BlanksBefore(s, |s|)]
  }

  /** Whitespace in front of a text that starts with a non-blank is all that
      `TrimStart` removes. */
  lemma TrimStartPadding(pad: string, t: string)
    requires forall k :: 0 <= k < |pad| ==> IsWhitespace(pad[k])
    requires |t| > 0 && !IsWhitespace(t[0])
    ensures TrimStart(pad + t) == t
  {
    var s := pad + t;
    assert s[|pad|] == t[0];
    assert forall k :: 0 <= k < |pad| ==> s[k] == pad[k];
  }

  /** Whitespace behind a text that ends with a non-blank is all that `TrimEnd`
      removes. */
  lemma TrimEndPadding(t: string, pad: string)
    requires forall k :: 0 <= k < |pad| ==> IsWhitespace(pad[k])
    requires |t| > 0 && !IsWhitespace(t[|t| - 1])
    ensures TrimEnd(t + pad) == t
  {
    var u := t + pad;
    assert u[|t| - 1] == t[|t| - 1];
    assert forall k :: 0 <= k < |pad| ==> u[|t| + k] == pad[k];
  }

  /** Rust's `str::trim`. */
  function Trim(s: string): (r: string)
    ensures |r| <= |s|
    ensures |r| > 0 ==> !IsWhitespace(r[0]) && !IsWhitespace(r[|r| - 1])
  {
    var t := TrimStart(s);
    var r := TrimEnd(t);
    assert |r| > 0 ==> r[0] == t[0];
    r
  }

  /** Trimming removes whitespace at both ends only: the result is a slice of the
      input, the characters cut off are all whitespace, and the result neither
      starts nor ends with whitespace. */
  lemma TrimSpec(s: string)
    ensures var r, i := Trim(s), |s| - |TrimStart(s)|;
      i + |r| <= |s| && r == s[i..i + |r|]
        && (forall k :: 0 <= k < i ==> IsWhitespace(s[k]))
        && (forall k :: i + |r| <= k < |s| ==> IsWhitespace(s[k]))
    ensures |Trim(s)| > 0 ==> !IsWhitespace(Trim(s)[0]) && !IsWhitespace(Trim(s)[|Trim(s)| - 1])
  {
    TrimPieces(s, TrimStart(s), TrimEnd(TrimStart(s)));
  }

  /** A prefix of a suffix, with whitespace cut off on both sides, is a slice
      with whitespace around it. */
  lemma TrimPieces(s: string, t: string, r: string)
    requires |t| <= |s| && t == s[|s| - |t|..]
    requires forall k :: 0 <= k < |s| - |t| ==> IsWhitespace(s[k])
    requires |r| <= |t| && r == t[..|r|]
    requires forall k :: |r| <= k < |t| ==> IsWhitespace(t[k])
    ensures var i := |s| - |t|;
      i + |r| <= |s| && r == s[i..i + |r|]
        && (forall k :: 0 <= k < i ==> IsWhitespace(s[k]))
        && (forall k :: i + |r| <= k < |s| ==> IsWhitespace(s[k]))
  {
    var i := |s| - |t|;
    forall k | i + |r| <= k < |s|
      ensures IsWhitespace(s[k])
    {
      assert s[k] == t[k - i];
    }
  }

  lemma TrimIsIdempotent(s: string)
    ensures Trim(Trim(s)) == Trim(s)
  {
    var r := Trim(s);
    TrimSpec(s);
    if |r| > 0 {
      assert TrimStart(r) == r;
      assert TrimEnd(r) == r;
    }
  }

  /** A string trims to nothing exactly when it is all whitespace. */
  lemma TrimEmptyIffBlank(s: string)
    ensures Trim(s) == [] <==> forall k :: 0 <= k < |s| ==> IsWhitespace(s[k])
  {
    TrimSpec(s);
  }

  // ---------------------------------------------------------------------------
  // byte length

  /** Number of bytes of `c` in UTF-8. */
  function Utf8Width(c: char): nat {
    if c < 0x80 as char then 1
    else if c < 0x800 as char then 2
    else if c < 0x1_0000 as char then 3
    else 4
  }

  /** Rust's `str::len`: the UTF-8 byte length. */
  function ByteLen(s: string): (n: nat)
    ensures n >= |s|
    ensures IsAscii(s) ==> n == |s|
  {
    if |s| == 0 then 0 else Utf8Width(s[0]) + ByteLen(s[1..])
  }

  // ---------------------------------------------------------------------------
  // the name rule shared by organisations, projects, API keys and filter presets

  const MaxNameBytes: nat := 100

  datatype NameError = EmptyName | NameTooLong

  /** Trims the input; an empty result is refused first, then one over 100 bytes,
      otherwise the trimmed text is the name. */
  function ValidateName(raw: string): (r: Result<string, NameError>)
    ensures r.Ok? ==> r.value == Trim(raw)
  {
    var name := Trim(raw);
    if name == [] then Err(EmptyName)
    else if ByteLen(name) > MaxNameBytes then Err(NameTooLong)
    else Ok(name)
  }

  /** A name is accepted exactly when its trimmed text has 1 to 100 bytes; the
      stored name has no surrounding whitespace, so validating it again returns it
      unchanged; and a blank input is always reported as empty. */
  lemma ValidateNameSpec(raw: string)
    ensures ValidateName(raw).Ok? <==> 1 <= |Trim(raw)| && ByteLen(Trim(raw)) <= MaxNameBytes
    ensures ValidateName(raw).Ok? ==> ValidateName(ValidateName(raw).value) == ValidateName(raw)
    ensures (forall k :: 0 <= k < |raw| ==> IsWhitespace(raw[k])) <==> ValidateName(raw) == Err(EmptyName)
  {
    TrimIsIdempotent(raw);
    TrimEmptyIffBlank(raw);
  }

  // ---------------------------------------------------------------------------
  // prefixes

  predicate StartsWith(s: string, prefix: string) {
    |prefix| <= |s| && s[..|prefix|] == prefix
  }

  /** Rust's `str::strip_prefix`. */
  function StripPrefix(s: string, prefix: string): (r: Option<string>)
    ensures r.Some? <==> StartsWith(s, prefix)
    ensures r.Some? ==> prefix + r.value == s
  {
    if StartsWith(s, prefix) then Some(s[|prefix|..]) else None
  }

  /** Character-level containment, Rust's `str::contains` with a `char` pattern. */
  predicate ContainsChar(s: string, c: char) {
    exists i :: 0 <= i < |s| && s[i] == c
  }

  // ---------------------------------------------------------------------------
  // split and join on a single separator

  /** Rust's `str::split` on one character: always at least one part, the parts
      hold no separator, and two adjacent separators give an empty part. */
  function Split(s: string, sep: char): (parts: seq<string>)
    ensures |parts| >= 1
    ensures forall k :: 0 <= k < |parts| ==> sep !in parts[k]
    decreases |s|
  {
    if |s| == 0 then [""]
    else
      var rest := Split(s[1..], sep);
      if s[0] == sep then [""] + rest
      else [[s[0]] + rest[0]] + rest[1..]
  }

  /** A text without the separator is a single piece. */
  lemma {:induction false} SplitWithoutSep(a: string, sep: char)
    requires sep !in a
    ensures Split(a, sep) == [a]
    decreases |a|
  {
    if |a| > 0 {
      assert sep !in a[1..] by {
        assert forall k :: 0 <= k < |a[1..]| ==> a[1..][k] == a[k + 1];
      }
      SplitWithoutSep(a[1..], sep);
      assert [a[0]] + a[1..] == a;
    }
  }

  /** The text up to the first separator is the first piece; the rest splits on its own. */
  lemma {:induction false} SplitAtSep(a: string, b: string, sep: char)
    requires sep !in a
    ensures Split(a + [sep] + b, sep) == [a] + Split(b, sep)
    decreases |a|
  {
    var s := a + [sep] + b;
    if |a| == 0 {
      assert s[1..] == b;
    } else {
      assert sep !in a[1..] by {
        assert forall k :: 0 <= k < |a[1..]| ==> a[1..][k] == a[k + 1];
      }
      SplitAtSep(a[1..], b, sep);
      assert s[1..] == a[1..] + [sep] + b;
      assert [a[0]] + a[1..] == a;
    }
  }

  /** Rust's `join` with a one-character separator. */
  function Join(parts: seq<string>, sep: char): string
    decreases |parts|
  {
    if |parts| == 0 then ""
    else if |parts| == 1 then parts[0]
    else parts[0] + [sep] + Join(parts[1..], sep)
  }

  /** Splitting the join of separator-free parts gives the parts back. */
  lemma {:induction false} SplitJoin(parts: seq<string>, sep: char)
    requires |parts| >= 1
    requires forall k :: 0 <= k < |parts| ==> sep !in parts[k]
    ensures Split(Join(parts, sep), sep) == parts
    decreases |parts|
  {
    if |parts| == 1 {
      SplitWithoutSep(parts[0], sep);
    } else {
      SplitJoin(parts[1..], sep);
      SplitAtSep(parts[0], Join(parts[1..], sep), sep);
      assert [parts[0]] + parts[1..] == parts;
    }
  }

  /** Joining the parts of a split with the same separator gives the input back. */
  lemma {:induction false} JoinSplit(s: string, sep: char)
    ensures Join(Split(s, sep), sep) == s
    decreases |s|
  {
    if |s| > 0 {
      var rest := Split(s[1..], sep);
      JoinSplit(s[1..], sep);
      if s[0] == sep {
        assert Split(s, sep) == [""] + rest;
        assert Join([""] + rest, sep) == "" + [sep] + Join(rest, sep);
        assert s == [s[0]] + s[1..];
      } else {
        var parts := [[s[0]] + rest[0]] + rest[1..];
        assert Split(s, sep) == parts;
        if |rest| == 1 {
          assert Join(parts, sep) == [s[0]] + rest[0];
          assert s == [s[0]] + s[1..];
        } else {
          assert parts[1..] == rest[1..];
          assert Join(rest, sep) == rest[0] + [sep] + Join(rest[1..], sep);
          assert Join(parts, sep) == [s[0]] + rest[0] + [sep] + Join(rest[1..], sep);
          assert s == [s[0]] + s[1..];
        }
      }
    }
  }

  /** Every character of a join comes from a part or is the separator. */
  lemma {:induction false} JoinChars(parts: seq<string>, sep: char, ok: char -> bool)
    requires ok(sep)
    requires forall k, j :: 0 <= k < |parts| && 0 <= j < |parts[k]| ==> ok(parts[k][j])
    ensures forall i :: 0 <= i < |Join(parts, sep)| ==> ok(Join(parts, sep)[i])
    decreases |parts|
  {
    if |parts| > 1 {
      JoinChars(parts[1..], sep, ok);
      var tail := Join(parts[1..], sep);
      var whole := parts[0] + [sep] + tail;
      assert Join(parts, sep) == whole;
      forall i | 0 <= i < |whole|
        ensures ok(whole[i])
      {
        if i < |parts[0]| {
          assert whole[i] == parts[0][i];
        } else if i == |parts[0]| {
          assert whole[i] == sep;
        } else {
          assert whole[i] == tail[i - |parts[0]| - 1];
        }
      }
    }
  }

  /** Joining non-empty parts that hold no separator never puts the separator at
      either end nor two separators side by side. */
  lemma {:induction false} JoinOfNonEmptyParts(parts: seq<string>, sep: char)
    requires forall k :: 0 <= k < |parts| ==> |parts[k]| > 0 && sep !in parts[k]
    ensures var j := Join(parts, sep);
      (|parts| > 0 ==> |j| > 0 && j[0] != sep && j[|j| - 1] != sep)
      && (forall i :: 0 <= i < |j| - 1 ==> !(j[i] == sep && j[i + 1] == sep))
    decreases |parts|
  {
    if |parts| == 1 {
      assert Join(parts, sep) == parts[0];
      assert parts[0][0] in parts[0];
      assert parts[0][|parts[0]| - 1] in parts[0];
      forall i | 0 <= i < |parts[0]|
        ensures parts[0][i] != sep
      {
        assert parts[0][i] in parts[0];
      }
    } else if |parts| > 1 {
      JoinOfNonEmptyParts(parts[1..], sep);
      var head := parts[0];
      var tail := Join(parts[1..], sep);
      var j := head + [sep] + tail;
      assert Join(parts, sep) == j;
      assert head[0] in head;
      forall i | 0 <= i < |head|
        ensures head[i] != sep
      {
        assert head[i] in head;
      }
      forall i | 0 <= i < |j| - 1
        ensures !(j[i] == sep && j[i + 1] == sep)
      {
        if i < |head| {
          assert j[i] == head[i];
        } else if i == |head| {
          assert j[i + 1] == tail[0];
        } else {
          assert j[i] == tail[i - |head| - 1];
          assert j[i + 1] == tail[i - |head|];
        }
      }
      assert j[|j| - 1] == tail[|tail| - 1];
    }
  }

  /** The parts in order, with nothing between them. */
  function Concat(parts: seq<string>): string
    decreases |parts|
  {
    if |parts| == 0 then "" else parts[0] + Concat(parts[1..])
  }

  /** The text with every `c` taken out. */
  function RemoveChar(s: string, c: char): (r: string)
    ensures c !in r
    decreases |s|
  {
    if |s| == 0 then "" else (if s[0] == c then "" else [s[0]]) + RemoveChar(s[1..], c)
  }

  /** The parts that are not empty, in order: Rust's `filter(|s| !s.is_empty())`. */
  function NonEmptyParts(parts: seq<string>): (r: seq<string>)
    ensures forall k :: 0 <= k < |r| ==> |r[k]| > 0 && r[k] in parts
    decreases |parts|
  {
    if |parts| == 0 then []
    else if |parts[0]| == 0 then NonEmptyParts(parts[1..])
    else [parts[0]] + NonEmptyParts(parts[1..])
  }

  lemma {:induction false} RemoveCharAppend(a: string, b: string, c: char)
    ensures RemoveChar(a + b, c) == RemoveChar(a, c) + RemoveChar(b, c)
    decreases |a|
  {
    if |a| > 0 {
      assert (a + b)[1..] == a[1..] + b;
      RemoveCharAppend(a[1..], b, c);
    } else {
      assert a + b == b;
    }
  }

  lemma {:induction false} RemoveAbsentChar(s: string, c: char)
    requires c !in s
    ensures RemoveChar(s, c) == s
    decreases |s|
  {
    if |s| > 0 {
      assert s[1..] == s[..][1..];
      assert forall k :: 0 <= k < |s[1..]| ==> s[1..][k] == s[k + 1];
      RemoveAbsentChar(s[1..], c);
    }
  }

  /** Splitting at `sep` and gluing the parts back without it removes exactly
      the separators. */
  lemma {:induction false} ConcatSplit(s: string, sep: char)
    ensures Concat(Split(s, sep)) == RemoveChar(s, sep)
    decreases |s|
  {
    if |s| > 0 {
      var rest := Split(s[1..], sep);
      ConcatSplit(s[1..], sep);
      assert Concat(rest) == rest[0] + Concat(rest[1..]);
      if s[0] != sep {
        var parts := [[s[0]] + rest[0]] + rest[1..];
        assert Split(s, sep) == parts;
        assert parts[1..] == rest[1..];
        assert Concat(parts) == [s[0]] + rest[0] + Concat(rest[1..]);
      } else {
        assert Split(s, sep) == [""] + rest;
        assert ([""] + rest)[1..] == rest;
      }
    }
  }

  /** Removing the separator from a join of separator-free parts leaves their concatenation. */
  lemma {:induction false} RemoveCharJoin(parts: seq<string>, sep: char)
    requires forall k :: 0 <= k < |parts| ==> sep !in parts[k]
    ensures RemoveChar(Join(parts, sep), sep) == Concat(parts)
    decreases |parts|
  {
    if |parts| == 1 {
      RemoveAbsentChar(parts[0], sep);
      assert Concat(parts[1..]) == "";
    } else if |parts| > 1 {
      RemoveCharJoin(parts[1..], sep);
      RemoveAbsentChar(parts[0], sep);
      RemoveCharAppend(parts[0] + [sep], Join(parts[1..], sep), sep);
      RemoveCharAppend(parts[0], [sep], sep);
      assert RemoveChar([sep], sep) == "";
    }
  }

  /** Dropping empty parts does not change the concatenation. */
  lemma {:induction false} ConcatNonEmptyParts(parts: seq<string>)
    ensures Concat(NonEmptyParts(parts)) == Concat(parts)
    decreases |parts|
  {
    if |parts| > 0 {
      ConcatNonEmptyParts(parts[1..]);
      if |parts[0]| > 0 {
        assert ([parts[0]] + NonEmptyParts(parts[1..]))[1..] == NonEmptyParts(parts[1..]);
      }
    }
  }

  /** Rust's `join` with a string separator. */
  function JoinWith(parts: seq<string>, sep: string): (r: string)
    ensures |parts| == 1 ==> r == parts[0]
    decreases |parts|
  {
    if |parts| == 0 then ""
    else if |parts| == 1 then parts[0]
    else parts[0] + sep + JoinWith(parts[1..], sep)
  }

  /** `str::replace('\'', "''")`: every single quote doubled, as SQL string
      literals require. */
  function EscapeQuotes(s: string): (r: string)
    ensures |r| >= |s|
    ensures (forall i :: 0 <= i < |s| ==> s[i] != '\'') ==> r == s
    decreases |s|
  {
    if |s| == 0 then ""
    else (if s[0] == '\'' then "''" else [s[0]]) + EscapeQuotes(s[1..])
  }

  /** How SQL reads a quoted literal's body back: a doubled quote is one quote. */
  function UnescapeQuotes(s: string): string
    decreases |s|
  {
    if |s| >= 2 && s[0] == '\'' && s[1] == '\'' then "'" + UnescapeQuotes(s[2..])
    else if |s| == 0 then ""
    else [s[0]] + UnescapeQuotes(s[1..])
  }

  /** An escaped body reads back as the original text, so a key can never end
      the literal it is embedded in. */
  lemma {:induction false} UnescapeEscape(s: string)
    ensures UnescapeQuotes(EscapeQuotes(s)) == s
    decreases |s|
  {
    if |s| > 0 {
      UnescapeEscape(s[1..]);
      var rest := EscapeQuotes(s[1..]);
      if s[0] == '\'' {
        assert EscapeQuotes(s) == "''" + rest;
        assert ("''" + rest)[2..] == rest;
        assert s == "'" + s[1..];
      } else {
        assert EscapeQuotes(s) == [s[0]] + rest;
        assert ([s[0]] + rest)[1..] == rest;
        assert s == [s[0]] + s[1..];
      }
    }
  }

  /** `str::trim_matches(c)`: removes every leading and trailing `c`. */
  function TrimMatches(s: string, c: char): (r: string)
    ensures |r| <= |s|
    ensures |r| > 0 ==> r[0] != c && r[|r| - 1] != c
    decreases |s|
  {
    if |s| > 0 && s[0] == c then TrimMatches(s[1..], c)
    else if |s| > 0 && s[|s| - 1] == c then TrimMatches(s[..|s| - 1], c)
    else s
  }

  // ---------------------------------------------------------------------------
  // integers

  function Min(a: int, b: int): int { if a <= b then a else b }

  function Max(a: int, b: int): int { if a >= b then a else b }

  const I64Min: int := -0x8000_0000_0000_0000
  const I64Max: int := 0x7fff_ffff_ffff_ffff

  predicate IsI64(n: int) { I64Min <= n <= I64Max }

  predicate AllDigits(s: string) {
    forall i :: 0 <= i < |s| ==> IsAsciiDigit(s[i])
  }

  function DigitValue(c: char): nat
    requires IsAsciiDigit(c)
  {
    c as int - '0' as int
  }

  function DigitsValue(ds: string): nat
    requires AllDigits(ds)
    decreases |ds|
  {
    if |ds| == 0 then 0 else DigitsValue(ds[..|ds| - 1]) * 10 + DigitValue(ds[|ds| - 1])
  }

  /** Rust's `str::parse::<i64>`: an optional `+` or `-`, then at least one ASCII
      digit and nothing else; a value outside the 64-bit range is refused. */
  function ParseI64(s: string): (r: Option<int>)
    ensures r.Some? ==> IsI64(r.value)
  {
    if |s| == 0 then None
    else
      var negative := s[0] == '-';
      var digits := if s[0] == '-' || s[0] == '+' then s[1..] else s;
      if |digits| == 0 || !AllDigits(digits) then None
      else
        var magnitude: int := DigitsValue(digits);
        var v := if negative then -magnitude else magnitude;
        if IsI64(v) then Some(v) else None
  }

  /** Decimal digits of a natural number, without leading zeros. */
  function NatToDigits(n: nat): (ds: string)
    ensures |ds| > 0 && AllDigits(ds)
    decreases n
  {
    if n < 10 then [('0' as int + n) as char]
    else NatToDigits(n / 10) + [('0' as int + n % 10) as char]
  }

  /** Rust's `i64::to_string`. */
  function IntToString(n: int): string {
    if n < 0 then "-" + NatToDigits(-n) else NatToDigits(n)
  }

  lemma {:induction false} DigitsValueOfNatToDigits(n: nat)
    ensures DigitsValue(NatToDigits(n)) == n
    decreases n
  {
    var ds := NatToDigits(n);
    if n >= 10 {
      DigitsValueOfNatToDigits(n / 10);
      assert ds[..|ds| - 1] == NatToDigits(n / 10);
    }
  }

  /** Printing a 64-bit integer and parsing it back gives the same integer. */
  lemma ParseI64OfIntToString(n: int)
    requires IsI64(n)
    ensures ParseI64(IntToString(n)) == Some(n)
  {
    var s := IntToString(n);
    if n < 0 {
      DigitsValueOfNatToDigits(-n);
      assert s[1..] == NatToDigits(-n);
    } else {
      DigitsValueOfNatToDigits(n);
      var ds := NatToDigits(n);
      assert IsAsciiDigit(ds[0]);
    }
  }
}
