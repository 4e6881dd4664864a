/** The authentication domain: the e-mail and password rules, the user
    aggregate with its soft delete, and the refresh token with its expiry and
    idempotent revocation. Hashing and token signing are not part of it. */
module Auth {
  import opened Wrappers
  import opened Text

  datatype PasswordProblem = TooShort | NoUppercase | NoLowercase | NoDigit | NoSpecial

  datatype AuthError =
    | InvalidEmail(normalised: string)
    | WeakPassword(problem: PasswordProblem)
    | UserNotFound
    | UserAlreadyExists
    | UserAlreadyDeleted
    | InvalidCredentials
    | TokenExpired
    | TokenInvalid
    | TokenRevoked

  // ---------------------------------------------------------------------------
  // e-mail

  /** The position of the first `c` in `s`, Rust's `str::find` with a char. */
  function FindChar(s: string, c: char): (r: Option<nat>)
    ensures r.None? <==> c !in s
    ensures r.Some? ==> r.value < |s| && s[r.value] == c && c !in s[..r.value]
  {
    if |s| == 0 then None
    else if s[0] == c then Some(0)
    else
      match FindChar(s[1..], c)
      case None => None
      case Some(i) =>
        assert s[..i + 1] == [s[0]] + s[1..][..i];
        Some(i + 1)
  }

  /** Two positions that both hold the first `c` are the same position. */
  lemma FirstOccurrenceIsUnique(s: string, c: char, i: nat, j: nat)
    requires i < |s| && j < |s| && s[i] == c && s[j] == c
    requires c !in s[..i] && c !in s[..j]
    ensures i == j
  {
    assert forall k :: 0 <= k < j ==> s[..j][k] == s[k];
    assert forall k :: 0 <= k < i ==> s[..i][k] == s[k];
  }

  /** What `Email::new` stores: the trimmed, lower-cased text. */
  function NormaliseEmail(raw: string): string {
    ToLower(Trim(raw))
  }

  /** The shape `Email::new` checks, stated independently of the search: the text
      is a non-empty local part without '@', then '@', then a non-empty domain
      holding a '.'. */
  ghost predicate EmailShape(e: string) {
    exists i :: 0 < i < |e| - 1 && e[i] == '@' && '@' !in e[..i] && '.' in e[i + 1..]
  }

  /** `Email::new`: normalises, then splits at the first '@'; the part before it
      and the part after it must be non-empty and the part after it must hold a
      '.'. The error carries the normalised text. */
  function NewEmail(raw: string): (r: Result<string, AuthError>)
    ensures r.Ok? ==> r.value == NormaliseEmail(raw)
    ensures r.Err? ==> r.error == InvalidEmail(NormaliseEmail(raw))
  {
    var e := NormaliseEmail(raw);
    match FindChar(e, '@')
    case None => Err(InvalidEmail(e))
    case Some(at) =>
      var domain := e[at + 1..];
      if at > 0 && |domain| > 0 && '.' in domain then Ok(e) else Err(InvalidEmail(e))
  }

  /** `Email::new` accepts exactly the texts whose normal form has the shape. */
  lemma NewEmailAcceptsExactlyTheShape(raw: string)
    ensures NewEmail(raw).Ok? <==> EmailShape(NormaliseEmail(raw))
  {
    ShapeIsTheCheck(NormaliseEmail(raw));
  }

  /** The search for the first '@' decides the shape. */
  lemma ShapeIsTheCheck(e: string)
    ensures EmailShape(e) <==> match FindChar(e, '@')
                               case None => false
                               case Some(at) => at > 0 && |e[at + 1..]| > 0 && '.' in e[at + 1..]
  {
    match FindChar(e, '@')
    case None =>
    case Some(at) =>
      forall i | 0 <= i < |e| && e[i] == '@' && '@' !in e[..i]
        ensures i == at
      {
        FirstOccurrenceIsUnique(e, '@', i, at);
      }
  }

  /** A stored e-mail is already normal: validating it again gives it back. */
  lemma NewEmailIsIdempotent(raw: string)
    requires NewEmail(raw).Ok?
    ensures NewEmail(NewEmail(raw).value) == NewEmail(raw)
  {
    TrimIsIdempotent(raw);
    TrimLowerIsStable(Trim(raw));
  }

  /** Lower-casing keeps the whitespace at the ends, so trimming a lower-cased
      trimmed text and lower-casing it again change nothing. */
  lemma TrimLowerIsStable(t: string)
    requires Trim(t) == t
    ensures ToLower(Trim(ToLower(t))) == ToLower(t)
  {
    LowerIsIdempotent(t);
    LowerKeepsTrim(t);
  }

  lemma LowerKeepsTrim(t: string)
    requires Trim(t) == t
    ensures Trim(ToLower(t)) == ToLower(t)
  {
    if |t| > 0 {
      LowerKeepsNonBlank(t[0]);
      LowerKeepsNonBlank(t[|t| - 1]);
      TrimOfUntrimmed(ToLower(t));
    }
  }

  lemma TrimOfUntrimmed(s: string)
    requires |s| > 0 && !IsWhitespace(s[0]) && !IsWhitespace(s[|s| - 1])
    ensures Trim(s) == s
  {
    TrimSpec(s);
    TrimEndsAreKept(s);
  }

  lemma TrimEndsAreKept(s: string)
    requires |s| > 0 && !IsWhitespace(s[0]) && !IsWhitespace(s[|s| - 1])
    ensures TrimStart(s) == s && TrimEnd(s) == s
  {
  }

  /** An address whose normal form has its first '@' strictly inside and a '.'
      after it is accepted as that normal form. */
  lemma AcceptedAt(raw: string, e: string, at: nat)
    requires NormaliseEmail(raw) == e
    requires 0 < at < |e| - 1 && e[at] == '@' && '@' !in e[..at] && '.' in e[at + 1..]
    ensures NewEmail(raw) == Ok(e)
  {
    FirstOccurrence(e, '@', at);
  }

  /** The search finds a character at the one position where it occurs first. */
  lemma FirstOccurrence(s: string, c: char, i: nat)
    requires i < |s| && s[i] == c && c !in s[..i]
    ensures FindChar(s, c) == Some(i)
  {
    assert s[i] in s;
  }

  /** A lower-case text without whitespace at its ends is its own normal form. */
  lemma AlreadyNormal(e: string)
    requires |e| > 0 && !IsWhitespace(e[0]) && !IsWhitespace(e[|e| - 1])
    requires IsLowerKeyword(e)
    ensures NormaliseEmail(e) == e
  {
    TrimOfUntrimmed(e);
    LowerOfLowerKeyword(e);
  }

  /** The cases the unit tests pin: three accepted and four refused addresses. */
  lemma EmailAccepted()
    ensures NewEmail("test@example.com") == Ok("test@example.com")
  {
    var e := "test@example.com";
    AlreadyNormal(e);
    assert e[..4] == "test" && e[5..][7] == '.';
    AcceptedAt(e, e, 4);
  }

  /** Whitespace around an address never matters: the padded text is accepted
      or refused exactly as the bare one, with the same stored value. */
  lemma EmailIgnoresPadding(before: string, e: string, after: string)
    requires forall k :: 0 <= k < |before| ==> IsWhitespace(before[k])
    requires forall k :: 0 <= k < |after| ==> IsWhitespace(after[k])
    requires |e| > 0 && !IsWhitespace(e[0]) && !IsWhitespace(e[|e| - 1])
    ensures NewEmail(before + e + after) == NewEmail(e)
  {
    assert before + e + after == before + (e + after);
    TrimStartPadding(before, e + after);
    TrimEndPadding(e, after);
    TrimOfUntrimmed(e);
  }

  lemma EmailAcceptedLowered()
    ensures NewEmail("USER@EXAMPLE.COM") == Ok("user@example.com")
  {
    var e := "user@example.com";
    LoweredExample();
    assert e[..4] == "user" && e[5..][7] == '.';
    AcceptedAt("USER@EXAMPLE.COM", e, 4);
  }

  lemma LoweredExample()
    ensures NormaliseEmail("USER@EXAMPLE.COM") == "user@example.com"
  {
    var e := "user@example.com";
    var raw := "USER@EXAMPLE.COM";
    TrimOfUntrimmed(raw);
    UpperExampleLowers();
  }

  lemma UpperExampleLowers()
    ensures ToLower("USER@EXAMPLE.COM") == "user@example.com"
  {
    var e := "user@example.com";
    var raw := "USER@EXAMPLE.COM";
    assert forall i :: 0 <= i < |raw| ==> ToLowerChar(raw[i]) == e[i];
  }

  /** A normal address is refused when no '@' it holds is both the first one and
      strictly inside with a '.' after it. */
  lemma RefusedShape(e: string)
    requires NormaliseEmail(e) == e
    requires forall i :: 0 < i < |e| - 1 && e[i] == '@' && '@' !in e[..i] ==> '.' !in e[i + 1..]
    ensures NewEmail(e) == Err(InvalidEmail(e))
  {
  }

  lemma EmailWithoutAt()
    ensures NewEmail("invalid") == Err(InvalidEmail("invalid"))
  {
    var e := "invalid";
    AlreadyNormal(e);
    assert '@' !in e;
    RefusedShape(e);
  }

  lemma EmailWithoutLocalPart()
    ensures NewEmail("@example.com") == Err(InvalidEmail("@example.com"))
  {
    var e := "@example.com";
    AlreadyNormal(e);
    assert forall i :: 0 < i <= |e| ==> e[..i][0] == '@';
    RefusedShape(e);
  }

  lemma EmailWithoutDomain()
    ensures NewEmail("test@") == Err(InvalidEmail("test@"))
  {
    var e := "test@";
    AlreadyNormal(e);
    assert forall i :: 0 <= i < |e| - 1 ==> e[i] != '@';
    RefusedShape(e);
  }

  lemma EmailWithoutDot()
    ensures NewEmail("test@example") == Err(InvalidEmail("test@example"))
  {
    var e := "test@example";
    AlreadyNormal(e);
    assert forall i :: 0 <= i < |e| && i != 4 ==> e[i] != '@';
    assert e[5..] == "example";
    RefusedShape(e);
  }

  // ---------------------------------------------------------------------------
  // password

  const MinPasswordBytes: nat := 8

  /** The special characters `PlainPassword::new` accepts. */
  const SpecialChars: string := "!@#$%^&*()_+-=[]{}|;':\",./<>?`~"

  predicate HasUpper(p: string) { exists i :: 0 <= i < |p| && IsAsciiUpper(p[i]) }
  predicate HasLower(p: string) { exists i :: 0 <= i < |p| && IsAsciiLower(p[i]) }
  predicate HasDigit(p: string) { exists i :: 0 <= i < |p| && IsAsciiDigit(p[i]) }
  predicate HasSpecial(p: string) { exists i :: 0 <= i < |p| && p[i] in SpecialChars }

  /** The checks in the order `PlainPassword::new` runs them, each with the
      problem it reports. */
  predicate PassesCheck(p: string, problem: PasswordProblem) {
    match problem
    case TooShort => ByteLen(p) >= MinPasswordBytes
    case NoUppercase => HasUpper(p)
    case NoLowercase => HasLower(p)
    case NoDigit => HasDigit(p)
    case NoSpecial => HasSpecial(p)
  }

  /** All five checks pass. */
  predicate StrongPassword(p: string) {
    PassesCheck(p, TooShort) && PassesCheck(p, NoUppercase) && PassesCheck(p, NoLowercase)
      && PassesCheck(p, NoDigit) && PassesCheck(p, NoSpecial)
  }

  function CheckRank(problem: PasswordProblem): nat {
    match problem
    case TooShort => 0
    case NoUppercase => 1
    case NoLowercase => 2
    case NoDigit => 3
    case NoSpecial => 4
  }

  /** `PlainPassword::new`: length, then an upper-case letter, a lower-case
      letter, a digit and a special character; the first failing check is the
      one reported, and an accepted password is kept as given. */
  function NewPassword(p: string): (r: Result<string, AuthError>)
    ensures r.Ok? <==> StrongPassword(p)
    ensures r.Ok? ==> r.value == p
    ensures r.Err? ==> r.error.WeakPassword? && !PassesCheck(p, r.error.problem)
    ensures r.Err? ==> forall q :: CheckRank(q) < CheckRank(r.error.problem) ==> PassesCheck(p, q)
  {
    if ByteLen(p) < MinPasswordBytes then Err(WeakPassword(TooShort))
    else if !HasUpper(p) then Err(WeakPassword(NoUppercase))
    else if !HasLower(p) then Err(WeakPassword(NoLowercase))
    else if !HasDigit(p) then Err(WeakPassword(NoDigit))
    else if !HasSpecial(p) then Err(WeakPassword(NoSpecial))
    else Ok(p)
  }

  /** A password of at least eight characters with the four classes at the given
      positions is accepted unchanged. */
  lemma StrongAt(p: string, u: nat, l: nat, d: nat, x: nat)
    requires |p| >= MinPasswordBytes && u < |p| && l < |p| && d < |p| && x < |p|
    requires IsAsciiUpper(p[u]) && IsAsciiLower(p[l]) && IsAsciiDigit(p[d]) && p[x] in SpecialChars
    ensures NewPassword(p) == Ok(p)
  {
  }

  /** The converse of `NewPassword`'s error clause: the first check a password
      fails is exactly the problem reported. */
  lemma FirstFailingCheckIsReported(p: string, problem: PasswordProblem)
    requires !PassesCheck(p, problem)
    requires forall q :: CheckRank(q) < CheckRank(problem) ==> PassesCheck(p, q)
    ensures NewPassword(p) == Err(WeakPassword(problem))
  {
    var r := NewPassword(p);
    assert r.Err?;
    var got := r.error.problem;
    assert PassesCheck(p, got) || CheckRank(got) >= CheckRank(problem);
    assert PassesCheck(p, problem) || CheckRank(problem) >= CheckRank(got);
    assert CheckRank(got) == CheckRank(problem);
  }

  /** The unit tests: three strong passwords, and one weak password per missing class. */
  lemma PasswordAccepted()
    ensures NewPassword("Password1!") == Ok("Password1!")
  {
    StrongAt("Password1!", 0, 1, 8, 9);
  }

  lemma PasswordWithDigitInside()
    ensures NewPassword("Str0ng@Pass") == Ok("Str0ng@Pass")
  {
    StrongAt("Str0ng@Pass", 0, 1, 3, 6);
  }

  lemma PasswordWithDollar()
    ensures NewPassword("Complex1$Password") == Ok("Complex1$Password")
  {
    StrongAt("Complex1$Password", 0, 1, 7, 8);
  }

  lemma PasswordTooShort()
    ensures NewPassword("Pass1!") == Err(WeakPassword(TooShort))
  {
    assert IsAscii("Pass1!");
  }

  lemma PasswordWithoutUpper()
    ensures NewPassword("password1!") == Err(WeakPassword(NoUppercase))
  {
    var p := "password1!";
    assert forall i :: 0 <= i < |p| ==> !IsAsciiUpper(p[i]);
  }

  lemma PasswordWithoutLower()
    ensures NewPassword("PASSWORD1!") == Err(WeakPassword(NoLowercase))
  {
    var p := "PASSWORD1!";
    assert IsAsciiUpper(p[0]);
    assert forall i :: 0 <= i < |p| ==> !IsAsciiLower(p[i]);
  }

  lemma PasswordWithoutDigit()
    ensures NewPassword("Password!") == Err(WeakPassword(NoDigit))
  {
    var p := "Password!";
    assert IsAsciiUpper(p[0]) && IsAsciiLower(p[1]);
    assert forall i :: 0 <= i < |p| ==> !IsAsciiDigit(p[i]);
  }

  lemma PasswordWithoutSpecial()
    ensures NewPassword("Password1") == Err(WeakPassword(NoSpecial))
  {
    var p := "Password1";
    assert IsAsciiUpper(p[0]) && IsAsciiLower(p[1]) && IsAsciiDigit(p[8]);
    assert forall i :: 0 <= i < |p| ==> IsAsciiAlphanumeric(p[i]);
    forall i | 0 <= i < |p|
      ensures p[i] !in SpecialChars
    {
      AlphanumericIsNotSpecial(p[i]);
    }
    FirstFailingCheckIsReported(p, NoSpecial);
  }

  /** No letter or digit is a special character. */
  lemma AlphanumericIsNotSpecial(c: char)
    requires IsAsciiAlphanumeric(c)
    ensures c !in SpecialChars
  {
  }

  // ---------------------------------------------------------------------------
  // user

  datatype User = User(
    id: string,
    email: string,
    passwordHash: Option<string>,
    displayName: Option<string>,
    createdAt: int,
    updatedAt: int,
    deletedAt: Option<int>)

  predicate UserIsDeleted(u: User) { u.deletedAt.Some? }

  /** `has_password`: a password hash is present. */
  predicate HasPassword(u: User) { u.passwordHash.Some? }

  /** `User::new`: a password user, not deleted, no display name. */
  function NewUser(id: string, email: string, passwordHash: string, now: int): (u: User)
    ensures HasPassword(u) && u.passwordHash == Some(passwordHash) && !UserIsDeleted(u)
    ensures u.id == id && u.email == email && u.displayName.None? && u.createdAt == u.updatedAt == now
  {
    User(id, email, Some(passwordHash), None, now, now, None)
  }

  /** `User::new_oauth`: the same, without a password. */
  function NewOAuthUser(id: string, email: string, now: int): (u: User)
    ensures !HasPassword(u) && !UserIsDeleted(u)
    ensures u.id == id && u.email == email && u.displayName.None? && u.createdAt == u.updatedAt == now
  {
    User(id, email, None, None, now, now, None)
  }

  function UpdateEmail(u: User, email: string, now: int): (r: User)
    ensures r.email == email && r.updatedAt == now
    ensures r.(email := u.email, updatedAt := u.updatedAt) == u
  {
    u.(email := email, updatedAt := now)
  }

  function UpdatePassword(u: User, passwordHash: string, now: int): (r: User)
    ensures HasPassword(r) && r.passwordHash == Some(passwordHash) && r.updatedAt == now
    ensures r.(passwordHash := u.passwordHash, updatedAt := u.updatedAt) == u
  {
    u.(passwordHash := Some(passwordHash), updatedAt := now)
  }

  function UpdateDisplayName(u: User, name: string, now: int): (r: User)
    ensures r.displayName == Some(name) && r.updatedAt == now
    ensures r.(displayName := u.displayName, updatedAt := u.updatedAt) == u
  {
    u.(displayName := Some(name), updatedAt := now)
  }

  /** `soft_delete`: refused on a deleted user; otherwise stamps both times. */
  function SoftDeleteUser(u: User, now: int): (r: Result<User, AuthError>)
    ensures r.Err? <==> UserIsDeleted(u)
    ensures r.Err? ==> r.error == UserAlreadyDeleted
    ensures r.Ok? ==> r.value == u.(deletedAt := Some(now), updatedAt := now)
  {
    if u.deletedAt.Some? then Err(UserAlreadyDeleted)
    else Ok(u.(deletedAt := Some(now), updatedAt := now))
  }

  /** A soft delete succeeds once and the next one is refused, whenever it comes. */
  lemma SecondUserDeleteFails(u: User, t1: int, t2: int)
    requires !UserIsDeleted(u)
    ensures SoftDeleteUser(u, t1).Ok?
    ensures SoftDeleteUser(SoftDeleteUser(u, t1).value, t2) == Err(UserAlreadyDeleted)
  {
  }

  // ---------------------------------------------------------------------------
  // refresh token

  datatype RefreshToken = RefreshToken(
    id: string,
    userId: string,
    tokenHash: string,
    expiresAt: int,
    createdAt: int,
    revokedAt: Option<int>)

  /** `RefreshToken::new`: not revoked. */
  function NewRefreshToken(id: string, userId: string, tokenHash: string, expiresAt: int, now: int): (t: RefreshToken)
    ensures !TokenIsRevoked(t) && t.createdAt == now && t.expiresAt == expiresAt
    ensures t.id == id && t.userId == userId && t.tokenHash == tokenHash
  {
    RefreshToken(id, userId, tokenHash, expiresAt, now, None)
  }

  /** `is_expired`: strictly after the expiry instant. */
  predicate TokenIsExpired(t: RefreshToken, now: int) { now > t.expiresAt }

  predicate TokenIsRevoked(t: RefreshToken) { t.revokedAt.Some? }

  /** `is_valid`: neither expired nor revoked. */
  predicate TokenIsValid(t: RefreshToken, now: int) { !TokenIsExpired(t, now) && !TokenIsRevoked(t) }

  /** `revoke`: stamps the revocation time only the first time. */
  function RevokeToken(t: RefreshToken, now: int): (r: RefreshToken)
    ensures TokenIsRevoked(r)
    ensures t.revokedAt.Some? ==> r == t
    ensures r.(revokedAt := t.revokedAt) == t
  {
    if t.revokedAt.None? then t.(revokedAt := Some(now)) else t
  }

  /** Revocation is idempotent and final: a second revoke keeps the first time,
      and a revoked token is invalid at every instant. A token valid now was
      valid at every earlier instant, so expiry never undoes itself. */
  lemma TokenLifecycle(t: RefreshToken, t1: int, t2: int, now: int, earlier: int)
    ensures RevokeToken(RevokeToken(t, t1), t2) == RevokeToken(t, t1)
    ensures !TokenIsValid(RevokeToken(t, t1), now)
    ensures t.revokedAt.None? ==> RevokeToken(t, t1).revokedAt == Some(t1)
    ensures earlier <= now && TokenIsValid(t, now) ==> TokenIsValid(t, earlier)
    ensures TokenIsValid(t, now) <==> now <= t.expiresAt && t.revokedAt.None?
  {
  }
}
