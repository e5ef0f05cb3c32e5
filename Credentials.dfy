/** The credential rule shared by the login and registration screens. Both pages
    declare the same `validate` (backoffice/src/pages/Login.tsx:46-65 and
    backoffice/src/pages/Register.tsx:25-44): the email must match
    /^[^\s@]+@[^\s@]+\.[^\s@]+$/ and the password must be at least 4 long. The rule
    and the two error texts are defined once here; each page's class runs it. */
module Credentials {
  import opened Wrappers
  import opened JsText

  const EMAIL_INVALID := "Email is invalid"
  const PASSWORD_TOO_SHORT := "Password must be at least 4 characters"
  const MIN_PASSWORD_LENGTH := 4

  /** The `{email, password}` object that is posted or handed to `onSubmit`. */
  datatype Submission = Submission(email: string, password: string)

  /** A character of the class `[^\s@]`. */
  predicate IsAtomChar(c: char)
  {
    !IsJsWhitespace(c) && c != '@'
  }

  /** Every character of `s` is in `[^\s@]`. */
  predicate IsAtom(s: string)
  {
    forall i :: 0 <= i < |s| ==> IsAtomChar(s[i])
  }

  /** `s` splits as run + "@" + run + "." + run, with the "@" at `at` and the "." at
      `dot`, every run non-empty and made of `[^\s@]`. */
  predicate RegexSplit(s: string, at: int, dot: int)
  {
    0 < at && at + 1 < dot && dot + 1 < |s| && s[at] == '@' && s[dot] == '.'
    && IsAtom(s[..at]) && IsAtom(s[at + 1..dot]) && IsAtom(s[dot + 1..])
  }

  /** The regular expression read literally: it matches when the three `[^\s@]+`
      groups can be placed, that is, when some split exists. */
  ghost predicate MatchesEmailRegex(s: string)
  {
    exists at, dot :: RegexSplit(s, at, dot)
  }

  /** The first index of `c` in `s` (`s.indexOf(c)`, with -1 as `None`). */
  function IndexOf(s: string, c: char): (r: Option<nat>)
    ensures r.Some? ==> r.value < |s| && s[r.value] == c
    ensures r.Some? ==> forall i :: 0 <= i < r.value ==> s[i] != c
    ensures r.None? ==> forall i :: 0 <= i < |s| ==> s[i] != c
  {
    if s == [] then None
    else if s[0] == c then Some(0)
    else match IndexOf(s[1..], c)
      case None => None
      case Some(k) => Some(k + 1)
  }

  lemma IndexOfIsFirst(s: string, c: char, k: nat)
    requires k < |s| && s[k] == c
    requires forall i :: 0 <= i < k ==> s[i] != c
    ensures IndexOf(s, c) == Some(k)
  {
    assert IndexOf(s, c).Some?;
  }

  /** The domain has a "." that is neither its first nor its last character. */
  predicate HasInnerDot(domain: string)
  {
    exists d | 0 < d < |domain| - 1 :: domain[d] == '.'
  }

  /** The email shape as a check on the string: the first "@" has a non-empty local
      part before it, no whitespace precedes it, the domain after it holds neither
      whitespace nor another "@", and the domain has an inner ".". */
  predicate EmailValid(email: string)
    ensures EmailValid(email) ==> 5 <= |email|
  {
    match IndexOf(email, '@')
    case None => false
    case Some(at) =>
      at > 0 && IsAtom(email[..at]) && IsAtom(email[at + 1..]) && HasInnerDot(email[at + 1..])
  }

  /** The check accepts exactly the emails the regular expression matches. */
  lemma EmailValidIffRegex(s: string)
    ensures EmailValid(s) <==> MatchesEmailRegex(s)
  {
    if EmailValid(s) {
      AcceptedEmailMatches(s);
    }
    if MatchesEmailRegex(s) {
      var at, dot :| RegexSplit(s, at, dot);
      MatchingEmailAccepted(s, at, dot);
    }
  }

  /** An accepted email splits at its first "@" and at an inner dot of the domain. */
  lemma AcceptedEmailMatches(s: string)
    requires EmailValid(s)
    ensures MatchesEmailRegex(s)
  {
    var at := IndexOf(s, '@').value;
    var domain := s[at + 1..];
    var d :| 0 < d < |domain| - 1 && domain[d] == '.';
    var dot := at + 1 + d;
    assert s[at + 1..dot] == domain[..d];
    assert s[dot + 1..] == domain[d + 1..];
    assert RegexSplit(s, at, dot);
  }

  /** Any split the regular expression finds puts its "@" first, so the check accepts. */
  lemma MatchingEmailAccepted(s: string, at: int, dot: int)
    requires RegexSplit(s, at, dot)
    ensures EmailValid(s)
  {
    assert forall i :: 0 <= i < at ==> s[i] == s[..at][i];
    IndexOfIsFirst(s, '@', at);
    var domain := s[at + 1..];
    assert forall i :: 0 <= i < dot - at - 1 ==> domain[i] == s[at + 1..dot][i];
    assert forall i :: dot - at - 1 < i < |domain| ==> domain[i] == s[dot + 1..][i - (dot - at)];
    assert domain[dot - at - 1] == '.';
    assert IsAtom(domain);
    assert HasInnerDot(domain);
  }

  /** `password.length >= 4`, with `length` counted in UTF-16 code units. */
  predicate PasswordLongEnough(password: string)
  {
    Utf16Length(password) >= MIN_PASSWORD_LENGTH
  }

  /** The verdict `validate` returns. */
  predicate CredentialsValid(email: string, password: string)
  {
    EmailValid(email) && PasswordLongEnough(password)
  }

  /** `validate` accepts a pair exactly when the email matches the regular expression
      and the password is at least 4 UTF-16 code units long. */
  lemma AcceptanceRule(email: string, password: string)
    ensures CredentialsValid(email, password)
        <==> MatchesEmailRegex(email) && Utf16Length(password) >= 4
  {
    EmailValidIffRegex(email);
  }

  /** The text `validate` leaves in `emailError`: it depends on the email alone. */
  function EmailErrorFor(email: string): (m: string)
    ensures m == "" <==> EmailValid(email)
    ensures m != "" ==> m == EMAIL_INVALID
  {
    if !EmailValid(email) then EMAIL_INVALID else ""
  }

  /** The text `validate` leaves in `passwordError`: it depends on the password alone. */
  function PasswordErrorFor(password: string): (m: string)
    ensures m == "" <==> PasswordLongEnough(password)
    ensures m != "" ==> m == PASSWORD_TOO_SHORT
  {
    if Utf16Length(password) < MIN_PASSWORD_LENGTH then PASSWORD_TOO_SHORT else ""
  }

  /** The submit gate: the form's fields go out when, and only when, `validate` passes. */
  function SubmitGate(email: string, password: string): (r: Option<Submission>)
    ensures r.Some? <==> CredentialsValid(email, password)
    ensures r.Some? ==> r.value == Submission(email, password)
  {
    if CredentialsValid(email, password) then Some(Submission(email, password)) else None
  }

  lemma SampleEmailSplit()
    ensures RegexSplit("admin@example.com", 5, 13)
  {
    var s := "admin@example.com";
    assert s[..5] == "admin";
    assert s[6..13] == "example";
    assert s[14..] == "com";
    assert IsAtom("admin");
    assert IsAtom("example");
    assert IsAtom("com");
  }

  lemma SampleEmailAccepted()
    ensures EmailValid("admin@example.com")
  {
    SampleEmailSplit();
    EmailValidIffRegex("admin@example.com");
  }

  lemma SamplePasswordAccepted()
    ensures PasswordLongEnough("admin1234")
  {
    Utf16LengthBmp("admin1234");
  }

  /** The test credentials the login page displays pass the rule. */
  lemma SampleCredentialsAccepted()
    ensures CredentialsValid("admin@example.com", "admin1234")
  {
    SampleEmailAccepted();
    SamplePasswordAccepted();
  }

  /** An email that holds no "@" is refused. */
  lemma NoAtRefused(s: string)
    requires Lacks(s, '@')
    ensures !EmailValid(s)
  {
  }

  /** An email whose first character is "@" (an empty local part) is refused. */
  lemma EmptyLocalRefused(s: string)
    requires |s| > 0 && s[0] == '@'
    ensures !EmailValid(s)
  {
    IndexOfIsFirst(s, '@', 0);
  }

  /** An email holding two "@" is refused, wherever they stand. */
  lemma SecondAtRefused(s: string, i: nat, j: nat)
    requires i < j < |s| && s[i] == '@' && s[j] == '@'
    ensures !EmailValid(s)
  {
    var k := IndexOf(s, '@').value;
    assert k <= i;
    assert s[k + 1..][j - k - 1] == '@';
  }

  /** An email holding a `\s` character anywhere is refused. */
  lemma WhitespaceRefused(s: string, i: nat)
    requires i < |s| && IsJsWhitespace(s[i])
    ensures !EmailValid(s)
  {
    match IndexOf(s, '@')
    case None =>
    case Some(k) =>
      if i < k {
        assert s[..k][i] == s[i];
      } else {
        assert s[k + 1..][i - k - 1] == s[i];
      }
  }

  /** After an "@", a "." in the first or last position of the domain does not
      count: with no "." strictly inside the domain the email is refused. */
  lemma EdgeDotsRefused(s: string, at: nat)
    requires at < |s| && s[at] == '@'
    requires forall d :: at + 1 < d < |s| - 1 ==> s[d] != '.'
    ensures !EmailValid(s)
  {
    var k := IndexOf(s, '@').value;
    assert k <= at;
    if k < at {
      assert s[k + 1..][at - k - 1] == '@';
    } else {
      var domain := s[at + 1..];
      assert forall d :: 0 < d < |domain| - 1 ==> domain[d] == s[at + 1 + d];
    }
  }

  /** An email whose domain, after an "@", holds no "." at all is refused. */
  lemma NoDomainDotRefused(s: string, at: nat)
    requires at < |s| && s[at] == '@'
    requires Lacks(s[at + 1..], '.')
    ensures !EmailValid(s)
  {
    assert forall d :: at + 1 < d < |s| ==> s[d] == s[at + 1..][d - at - 1];
    EdgeDotsRefused(s, at);
  }

  /** A password of fewer than 4 characters from the Basic Multilingual Plane is
      refused. */
  lemma ShortPasswordRefused(p: string)
    requires |p| < MIN_PASSWORD_LENGTH
    requires forall i :: 0 <= i < |p| ==> p[i] as int <= 0xFFFF
    ensures !PasswordLongEnough(p)
  {
    Utf16LengthBmp(p);
  }

  /** `length` counts UTF-16 code units: two characters outside the Basic
      Multilingual Plane already make 4, so such a password passes. */
  lemma AstralPasswordAccepted()
    ensures |"\U{1F600}\U{1F600}"| == 2
    ensures PasswordLongEnough("\U{1F600}\U{1F600}")
  {
  }
}
