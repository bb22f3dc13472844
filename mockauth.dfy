/**
 * The mock user registry of src/lib/mockAuth.ts: input validators, email
 * normalisation, and `login`/`signup` over the stored list of users.
 *
 * The list is the module-level `memoryUsers`, kept by the class UserStore;
 * localStorage, the simulated network delay and `createId()` are not
 * modelled (the id is a parameter).
 */
module MockAuth {
  import opened Wrappers
  import opened Strings

  datatype Plan = Free | Pro

  /** `User`: what callers of `login` and `signup` receive. */
  datatype User = User(id: string, email: string, name: string, subscription: Plan)

  /** `StoredUser`: a user together with the password. */
  datatype StoredUser = StoredUser(id: string, email: string, name: string, subscription: Plan, password: string)

  /** What a successful `signup` returns, and the list it persists. */
  datatype SignedUp = SignedUp(user: User, users: seq<StoredUser>)

  const MinPasswordLength: nat := 6

  const InvalidEmailMessage := "Please enter a valid email address."
  const ShortPasswordMessage := "Password must be at least 6 characters long."
  const MissingNameMessage := "Please enter your name."
  const InvalidCredentialsMessage := "Invalid email or password."
  const EmailTakenMessage := "An account with this email already exists."

  /** `normalizeEmail`: trim, then lower-case. */
  function NormalizeEmail(email: string): (r: string)
    ensures r == Lower(Trim(email))
    ensures |r| > 0 ==> !IsSpace(r[0]) && !IsSpace(r[|r| - 1])
    ensures forall i :: 0 <= i < |r| ==> !('A' <= r[i] <= 'Z')
  {
    Lower(Trim(email))
  }

  /** Normalising an already normalised email changes nothing. */
  lemma {:induction false} NormalizeEmailIdempotent(email: string)
    ensures NormalizeEmail(NormalizeEmail(email)) == NormalizeEmail(email)
  {
    var t := Trim(email);
    TrimLowerCommute(Lower(t));
    TrimLowerCommute(t);
    TrimIdempotent(email);
    LowerIdempotent(t);
  }

  /** A character of the class `[^\s@]`. */
  predicate IsRunChar(c: char)
  {
    !IsSpace(c) && c != '@'
  }

  /** `[^\s@]+` */
  predicate IsRun(s: string)
  {
    |s| > 0 && forall i :: 0 <= i < |s| ==> IsRunChar(s[i])
  }

  /** `[^\s@]+\.[^\s@]+` */
  predicate IsDomain(s: string)
  {
    exists j :: 0 <= j < |s| && s[j] == '.' && IsRun(s[..j]) && IsRun(s[j + 1..])
  }

  /** `EMAIL_PATTERN`, `^[^\s@]+@[^\s@]+\.[^\s@]+$`, as a predicate on the whole string. */
  predicate MatchesEmailPattern(s: string)
  {
    exists i :: 0 <= i < |s| && s[i] == '@' && IsRun(s[..i]) && IsDomain(s[i + 1..])
  }

  /** The number of occurrences of `c` in `s`. */
  function Occurrences(s: string, c: char): nat
  {
    if s == [] then 0 else (if s[0] == c then 1 else 0) + Occurrences(s[1..], c)
  }

  lemma {:induction false} OccurrencesAppend(a: string, b: string, c: char)
    ensures Occurrences(a + b, c) == Occurrences(a, c) + Occurrences(b, c)
  {
    if a == [] {
      assert a + b == b;
    } else {
      assert (a + b)[1..] == a[1..] + b;
      OccurrencesAppend(a[1..], b, c);
    }
  }

  lemma {:induction false} OccurrencesNone(s: string, c: char)
    requires forall i :: 0 <= i < |s| ==> s[i] != c
    ensures Occurrences(s, c) == 0
  {
    if s != [] {
      assert s[0] != c;
      OccurrencesNone(s[1..], c);
    }
  }

  /** Every character of a domain is a run character: the `.` is one too. */
  lemma {:induction false} DomainChars(d: string)
    requires IsDomain(d)
    ensures forall k :: 0 <= k < |d| ==> IsRunChar(d[k])
  {
    var j :| 0 <= j < |d| && d[j] == '.' && IsRun(d[..j]) && IsRun(d[j + 1..]);
    forall k | 0 <= k < |d| ensures IsRunChar(d[k]) {
      if k < j { assert d[k] == d[..j][k]; }
      else if k > j { assert d[k] == d[j + 1..][k - j - 1]; }
    }
  }

  /** The characters the pattern accepts: a run character everywhere except at the one `@`. */
  lemma {:induction false} EmailPatternChars(s: string) returns (at: nat)
    requires MatchesEmailPattern(s)
    ensures at < |s| && s[at] == '@'
    ensures forall k :: 0 <= k < |s| && k != at ==> IsRunChar(s[k])
  {
    var i :| 0 <= i < |s| && s[i] == '@' && IsRun(s[..i]) && IsDomain(s[i + 1..]);
    DomainChars(s[i + 1..]);
    forall k | 0 <= k < |s| && k != i ensures IsRunChar(s[k]) {
      if k < i { assert s[k] == s[..i][k]; } else { assert s[k] == s[i + 1..][k - i - 1]; }
    }
    at := i;
  }

  /** A character that occurs only at index `i` occurs once. */
  lemma {:induction false} OccurrencesOnce(s: string, i: nat, c: char)
    requires i < |s| && s[i] == c
    requires forall k :: 0 <= k < |s| && k != i ==> s[k] != c
    ensures Occurrences(s, c) == 1
  {
    var local, d := s[..i], s[i + 1..];
    assert forall k :: 0 <= k < |local| ==> local[k] == s[k];
    assert forall k :: 0 <= k < |d| ==> d[k] == s[i + 1 + k];
    OccurrencesNone(local, c);
    OccurrencesNone(d, c);
    assert s == local + ([s[i]] + d);
    OccurrencesAppend(local, [s[i]] + d, c);
    OccurrencesAppend([s[i]], d, c);
    assert [s[i]][1..] == [];
  }

  /** A string the pattern accepts contains exactly one `@` and no white space. */
  lemma {:induction false} EmailPatternShape(s: string)
    requires MatchesEmailPattern(s)
    ensures Occurrences(s, '@') == 1
    ensures forall k :: 0 <= k < |s| ==> !IsSpace(s[k])
  {
    var i := EmailPatternChars(s);
    OccurrencesOnce(s, i, '@');
    assert !IsSpace('@');
  }

  /** The pattern in two examples: `a@b.co` is accepted, `a@b` is not. */
  lemma {:induction false} EmailPatternExamples()
    ensures MatchesEmailPattern("a@b.co")
    ensures !MatchesEmailPattern("a@b")
  {
    var s := "a@b.co";
    assert s[..1] == "a" && IsRun(s[..1]);
    var d := s[2..];
    assert d == "b.co" && d[..1] == "b" && d[2..] == "co";
    assert IsRun(d[..1]) && IsRun(d[2..]);
    assert IsDomain(d);
    assert s[1] == '@';
  }

  /** `validateEmail`: the trimmed email must match the pattern. */
  function ValidateEmail(email: string): (r: Outcome<string>)
    ensures r.Pass? <==> MatchesEmailPattern(Trim(email))
    ensures r.Fail? ==> r.error == InvalidEmailMessage
  {
    if !MatchesEmailPattern(Trim(email)) then Fail(InvalidEmailMessage) else Pass
  }

  /** `validatePassword`: at least six UTF-16 code units. */
  function ValidatePassword(password: string): (r: Outcome<string>)
    ensures r.Pass? <==> Utf16Length(password) >= 6
    ensures r.Fail? ==> r.error == ShortPasswordMessage
    ensures |password| >= 6 ==> r.Pass?
    ensures |password| < 3 ==> r.Fail?
  {
    if Utf16Length(password) < MinPasswordLength then Fail(ShortPasswordMessage) else Pass
  }

  /** `validateName`: the name must not be white space only. */
  function ValidateName(name: string): (r: Outcome<string>)
    ensures r.Fail? <==> AllSpace(name)
    ensures r.Fail? ==> r.error == MissingNameMessage
  {
    TrimEmptyIff(name);
    if Trim(name) == [] then Fail(MissingNameMessage) else Pass
  }

  /** `toUser`: drop the password, keep everything else. */
  function ToUser(s: StoredUser): (u: User)
    ensures u.id == s.id && u.email == s.email && u.name == s.name && u.subscription == s.subscription
  {
    User(s.id, s.email, s.name, s.subscription)
  }

  /** A stored user with exactly these credentials. */
  predicate Matches(u: StoredUser, email: string, password: string)
  {
    u.email == email && u.password == password
  }

  /** The index of the first stored user matching the credentials, or `|users|` when none does. */
  function FirstMatch(users: seq<StoredUser>, email: string, password: string): (i: nat)
    ensures i <= |users|
    ensures forall k :: 0 <= k < i ==> !Matches(users[k], email, password)
    ensures i < |users| ==> Matches(users[i], email, password)
  {
    if users == [] then 0
    else if Matches(users[0], email, password) then 0
    else 1 + FirstMatch(users[1..], email, password)
  }

  /** `users.find(u => u.email === email && u.password === password)`: the first match, if any. */
  function FindUser(users: seq<StoredUser>, email: string, password: string): (r: Option<StoredUser>)
    ensures r.None? <==> forall i :: 0 <= i < |users| ==> !Matches(users[i], email, password)
    ensures r.Some? ==> var i := FirstMatch(users, email, password);
                        i < |users| && r.value == users[i] && Matches(r.value, email, password)
  {
    var i := FirstMatch(users, email, password);
    if i < |users| then Some(users[i]) else None
  }

  /** `users.some(u => u.email === email)`. */
  predicate EmailStored(users: seq<StoredUser>, email: string)
  {
    exists i :: 0 <= i < |users| && users[i].email == email
  }

  /** The registry invariant: no two stored users share an email. */
  predicate EmailsDistinct(users: seq<StoredUser>)
  {
    forall i, j :: 0 <= i < j < |users| ==> users[i].email != users[j].email
  }

  /**
   * `login`: validate the email, then the password, before reading the list;
   * then look up the normalised email with the exact password.
   */
  function Login(users: seq<StoredUser>, email: string, password: string): (r: Result<User, string>)
    ensures ValidateEmail(email).Fail? ==> r == Err(InvalidEmailMessage)
    ensures ValidateEmail(email).Pass? && ValidatePassword(password).Fail? ==> r == Err(ShortPasswordMessage)
    ensures r.Ok? ==> exists i :: 0 <= i < |users| && ToUser(users[i]) == r.value
                               && Matches(users[i], NormalizeEmail(email), password)
    ensures r.Ok? ==> FirstMatch(users, NormalizeEmail(email), password) < |users|
                      && r.value == ToUser(users[FirstMatch(users, NormalizeEmail(email), password)])
  {
    match ValidateEmail(email)
    case Fail(e) => Err(e)
    case Pass =>
      match ValidatePassword(password)
      case Fail(e) => Err(e)
      case Pass =>
        match FindUser(users, NormalizeEmail(email), password)
        case None => Err(InvalidCredentialsMessage)
        case Some(u) => Ok(ToUser(u))
  }

  /** Valid input that matches no stored user fails with the credentials message, and only then. */
  lemma {:induction false} LoginRejectsUnknown(users: seq<StoredUser>, email: string, password: string)
    requires ValidateEmail(email).Pass? && ValidatePassword(password).Pass?
    ensures Login(users, email, password) == Err(InvalidCredentialsMessage)
        <==> forall i :: 0 <= i < |users| ==> !Matches(users[i], NormalizeEmail(email), password)
  {
  }

  /**
   * `signup`: validate the email, the password and the name, in that order,
   * before reading the list; reject an email already stored; otherwise append
   * one free-plan user with the normalised email and the trimmed name.
   */
  function Signup(users: seq<StoredUser>, email: string, password: string, name: string, freshId: string): (r: Result<SignedUp, string>)
    ensures ValidateEmail(email).Fail? ==> r == Err(InvalidEmailMessage)
    ensures ValidateEmail(email).Pass? && ValidatePassword(password).Fail? ==> r == Err(ShortPasswordMessage)
    ensures (ValidateEmail(email).Pass? && ValidatePassword(password).Pass? && ValidateName(name).Fail?)
              ==> r == Err(MissingNameMessage)
    ensures r.Ok? <==> ValidateEmail(email).Pass? && ValidatePassword(password).Pass? && ValidateName(name).Pass?
                       && !EmailStored(users, NormalizeEmail(email))
    ensures r.Ok? ==> r.value.users == users + [StoredUser(freshId, NormalizeEmail(email), Trim(name), Free, password)]
                      && r.value.user == User(freshId, NormalizeEmail(email), Trim(name), Free)
  {
    match ValidateEmail(email)
    case Fail(e) => Err(e)
    case Pass =>
      match ValidatePassword(password)
      case Fail(e) => Err(e)
      case Pass =>
        match ValidateName(name)
        case Fail(e) => Err(e)
        case Pass =>
          var normalized := NormalizeEmail(email);
          if EmailStored(users, normalized) then Err(EmailTakenMessage)
          else
            var stored := StoredUser(freshId, normalized, Trim(name), Free, password);
            Ok(SignedUp(ToUser(stored), users + [stored]))
  }

  /** Valid input whose normalised email is already stored fails with the duplicate-email message. */
  lemma {:induction false} SignupRejectsTaken(users: seq<StoredUser>, email: string, password: string, name: string, freshId: string)
    requires ValidateEmail(email).Pass? && ValidatePassword(password).Pass? && ValidateName(name).Pass?
    requires EmailStored(users, NormalizeEmail(email))
    ensures Signup(users, email, password, name, freshId) == Err(EmailTakenMessage)
  {
  }

  /** Validation failures do not depend on the stored list, and signup then writes nothing. */
  lemma {:induction false} ValidationPrecedesStore(users1: seq<StoredUser>, users2: seq<StoredUser>, email: string, password: string, name: string, freshId: string)
    ensures (ValidateEmail(email).Fail? || ValidatePassword(password).Fail?) ==>
              Login(users1, email, password) == Login(users2, email, password) && Login(users1, email, password).Err?
    ensures (ValidateEmail(email).Fail? || ValidatePassword(password).Fail? || ValidateName(name).Fail?) ==>
              Signup(users1, email, password, name, freshId) == Signup(users2, email, password, name, freshId)
              && Signup(users1, email, password, name, freshId).Err?
  {
  }

  /** Signup keeps the stored emails pairwise distinct. */
  lemma {:induction false} SignupPreservesDistinct(users: seq<StoredUser>, email: string, password: string, name: string, freshId: string)
    requires EmailsDistinct(users)
    requires Signup(users, email, password, name, freshId).Ok?
    ensures EmailsDistinct(Signup(users, email, password, name, freshId).value.users)
  {
    var s := Signup(users, email, password, name, freshId).value.users;
    forall i, j | 0 <= i < j < |s| ensures s[i].email != s[j].email {
      if j == |users| {
        assert s[i] == users[i];
      }
    }
  }

  /** After a successful signup, logging in with the same email and password returns the new user. */
  lemma {:induction false} SignupThenLogin(users: seq<StoredUser>, email: string, password: string, name: string, freshId: string)
    requires Signup(users, email, password, name, freshId).Ok?
    ensures Login(Signup(users, email, password, name, freshId).value.users, email, password)
         == Ok(Signup(users, email, password, name, freshId).value.user)
  {
    var s := Signup(users, email, password, name, freshId).value;
    var e := NormalizeEmail(email);
    assert Matches(s.users[|users|], e, password);

  }

  /**
   * The module-level `memoryUsers`. `Signup` reassigns it with the list
   * `signup` persists; `Login` only reads it.
   */
  class UserStore {
    var users: seq<StoredUser>

    ghost predicate Valid()
      reads this
    {
      EmailsDistinct(users)
    }

    constructor ()
      ensures Valid() && users == []
    {
      users := [];
    }

    method LogIn(email: string, password: string) returns (r: Result<User, string>)
      requires Valid()
      ensures r == Login(users, email, password)
      ensures r.Ok? ==> exists i :: 0 <= i < |users| && ToUser(users[i]) == r.value
    {
      r := Login(users, email, password);
    }

    method SignUp(email: string, password: string, name: string, freshId: string) returns (r: Result<User, string>)
      requires Valid()
      modifies this
      ensures Valid()
      ensures r.Ok? <==> Signup(old(users), email, password, name, freshId).Ok?
      ensures r.Ok? ==> r.value == Signup(old(users), email, password, name, freshId).value.user
                        && users == Signup(old(users), email, password, name, freshId).value.users
                        && Login(users, email, password) == Ok(r.value)
      ensures r.Err? ==> r.error == Signup(old(users), email, password, name, freshId).error
                         && users == old(users)
    {
      match Signup(users, email, password, name, freshId)
      case Err(e) =>
        r := Err(e);
      case Ok(s) =>
        SignupPreservesDistinct(users, email, password, name, freshId);
        SignupThenLogin(users, email, password, name, freshId);
        users := s.users;
        r := Ok(s.user);
    }
  }
}
