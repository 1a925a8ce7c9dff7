/**
 * The predefined field validations of the sign-up and login forms. Each rule set is applied
 * the way the form library applies it: `required` first, then `minLength`, then `pattern`,
 * then the `validate` functions in the order they are declared; the first failing rule's
 * message is the one reported.
 */
module FormValidation {

  datatype Verdict = Accepted | Rejected(message: string)

  const EMAIL_REQUIRED := "Email is required"
  const EMAIL_INVALID := "Please provide a valid email address"
  const PASSWORD_REQUIRED := "Password is required"
  const PASSWORD_TOO_SHORT := "Password must be at least 8 characters long"
  const NEEDS_UPPERCASE := "Password must contain at least 1 uppercase letter"
  const NEEDS_LOWERCASE := "Password must contain at least 1 lowercase letter"
  const NEEDS_NUMBER := "Password must contain at least 1 number"
  const NEEDS_SPECIAL := "Password must contain at least 1 special character (@$!%*?&)"
  const NAME_REQUIRED := "Name is required"
  const NAME_TOO_SHORT := "Name must be at least 2 characters long"
  const CONFIRM_REQUIRED := "Please confirm your password"
  const PASSWORDS_DIFFER := "Passwords do not match"

  const PASSWORD_MIN_LENGTH := 8
  const NAME_MIN_LENGTH := 2

  // ---------------------------------------------------------------------------------------
  // Character classes
  // ---------------------------------------------------------------------------------------

  predicate IsUpper(c: char) { 'A' <= c <= 'Z' }
  predicate IsLower(c: char) { 'a' <= c <= 'z' }
  /** `\d` without the unicode flag: ASCII digits only. */
  predicate IsDigit(c: char) { '0' <= c <= '9' }
  predicate IsSpecial(c: char) { c in "@$!%*?&" }
  /** `[A-Z]` under the case-insensitive flag. */
  predicate IsLetter(c: char) { IsUpper(c) || IsLower(c) }
  /** `[A-Z0-9._%+-]` under the case-insensitive flag. */
  predicate IsLocalChar(c: char) { IsLetter(c) || IsDigit(c) || c in "._%+-" }
  /** `[A-Z0-9.-]` under the case-insensitive flag. */
  predicate IsDomainChar(c: char) { IsLetter(c) || IsDigit(c) || c in ".-" }

  /** `/[class]/.test(s)`: some character of `s` is in the class. */
  function SomeChar(s: string, inClass: char -> bool): (b: bool)
    ensures b <==> exists i :: 0 <= i < |s| && inClass(s[i])
  {
    if s == [] then false
    else if inClass(s[0]) then true
    else
      assert forall i :: 1 <= i < |s| ==> s[i] == s[1..][i - 1];
      SomeChar(s[1..], inClass)
  }

  // ---------------------------------------------------------------------------------------
  // The email pattern  /^[A-Z0-9._%+-]+@[A-Z0-9.-]+\.[A-Z]{2,}$/i
  // ---------------------------------------------------------------------------------------

  /** The pattern matches `s` with its `@` at index `at` and its final `\.` at index `dot`. */
  ghost predicate EmailMatchAt(s: string, at: int, dot: int) {
    && 0 < at && at + 1 < dot && dot + 2 < |s|
    && s[at] == '@' && s[dot] == '.'
    && (forall i :: 0 <= i < at ==> IsLocalChar(s[i]))
    && (forall i :: at < i < dot ==> IsDomainChar(s[i]))
    && (forall i :: dot < i < |s| ==> IsLetter(s[i]))
  }

  ghost predicate MatchesEmailPattern(s: string) {
    exists at, dot :: EmailMatchAt(s, at, dot)
  }

  function FirstIndex(s: string, c: char): (i: nat)
    ensures i <= |s| && (i < |s| ==> s[i] == c)
    ensures forall j :: 0 <= j < i ==> s[j] != c
  {
    if s == [] || s[0] == c then 0 else 1 + FirstIndex(s[1..], c)
  }

  function LastIndex(s: string, c: char): (i: int)
    ensures -1 <= i < |s| && (0 <= i ==> s[i] == c)
    ensures forall j :: i < j < |s| ==> s[j] != c
  {
    if s == [] then -1
    else if s[|s| - 1] == c then |s| - 1
    else LastIndex(s[..|s| - 1], c)
  }

  /**
   * No character class before the `@` admits `@`, and none after the last dot admits `.`,
   * so a match can only split `s` at its first `@` and its last `.`.
   */
  lemma MatchSplitsAtFirstAtAndLastDot(s: string, at: int, dot: int)
    requires EmailMatchAt(s, at, dot)
    ensures at == FirstIndex(s, '@') && dot == LastIndex(s, '.')
  {
  }

  /** The pattern test, decided by locating the first `@` and the last `.`. */
  function IsEmailShaped(s: string): (b: bool)
    ensures b <==> MatchesEmailPattern(s)
  {
    var at, dot := FirstIndex(s, '@'), LastIndex(s, '.');
    var b :=
      && 0 < at && at + 1 < dot && dot + 2 < |s|
      && (forall i :: 0 <= i < at ==> IsLocalChar(s[i]))
      && (forall i :: at < i < dot ==> IsDomainChar(s[i]))
      && (forall i :: dot < i < |s| ==> IsLetter(s[i]));
    assert b ==> EmailMatchAt(s, at, dot);
    assert MatchesEmailPattern(s) ==> b by {
      if MatchesEmailPattern(s) {
        var a, d :| EmailMatchAt(s, a, d);
        MatchSplitsAtFirstAtAndLastDot(s, a, d);
      }
    }
    b
  }

  // ---------------------------------------------------------------------------------------
  // The four rule sets
  // ---------------------------------------------------------------------------------------

  /** Accepted exactly when the whole pattern matches; an empty value is "required", any other failure "invalid". */
  function ValidateEmail(value: string): (v: Verdict)
    ensures v == Accepted <==> MatchesEmailPattern(value)
    ensures v != Accepted ==> v == Rejected(if value == "" then EMAIL_REQUIRED else EMAIL_INVALID)
  {
    if value == "" then Rejected(EMAIL_REQUIRED)
    else if !IsEmailShaped(value) then Rejected(EMAIL_INVALID)
    else Accepted
  }

  /** Accepted exactly when the value is long enough and has all four character classes. */
  function ValidatePassword(value: string): (v: Verdict)
    ensures v == Accepted <==>
      && |value| >= PASSWORD_MIN_LENGTH
      && (exists i :: 0 <= i < |value| && IsUpper(value[i]))
      && (exists i :: 0 <= i < |value| && IsLower(value[i]))
      && (exists i :: 0 <= i < |value| && IsDigit(value[i]))
      && (exists i :: 0 <= i < |value| && IsSpecial(value[i]))
    ensures value == "" ==> v == Rejected(PASSWORD_REQUIRED)
  {
    if value == "" then Rejected(PASSWORD_REQUIRED)
    else if |value| < PASSWORD_MIN_LENGTH then Rejected(PASSWORD_TOO_SHORT)
    else if !SomeChar(value, IsUpper) then Rejected(NEEDS_UPPERCASE)
    else if !SomeChar(value, IsLower) then Rejected(NEEDS_LOWERCASE)
    else if !SomeChar(value, IsDigit) then Rejected(NEEDS_NUMBER)
    else if !SomeChar(value, IsSpecial) then Rejected(NEEDS_SPECIAL)
    else Accepted
  }

  /** Accepted exactly when the name has at least two characters. */
  function ValidateName(value: string): (v: Verdict)
    ensures v == Accepted <==> |value| >= NAME_MIN_LENGTH
    ensures v != Accepted ==> v == Rejected(if value == "" then NAME_REQUIRED else NAME_TOO_SHORT)
  {
    if value == "" then Rejected(NAME_REQUIRED)
    else if |value| < NAME_MIN_LENGTH then Rejected(NAME_TOO_SHORT)
    else Accepted
  }

  /**
   * `confirmPassword(getValues)`: `password` is the form's current password value. Accepted
   * exactly when the confirmation is non-empty and equal to it.
   */
  function ValidateConfirmPassword(value: string, password: string): (v: Verdict)
    ensures v == Accepted <==> value != "" && value == password
    ensures value == "" ==> v == Rejected(CONFIRM_REQUIRED)
    ensures value != "" && value != password ==> v == Rejected(PASSWORDS_DIFFER)
  {
    if value == "" then Rejected(CONFIRM_REQUIRED)
    else if value != password then Rejected(PASSWORDS_DIFFER)
    else Accepted
  }

  // ---------------------------------------------------------------------------------------
  // What the rules guarantee
  // ---------------------------------------------------------------------------------------

  /** An accepted email contains exactly one `@`, with a non-empty part on either side. */
  lemma AcceptedEmailHasOneAt(value: string)
    requires ValidateEmail(value) == Accepted
    ensures multiset(value)['@'] == 1
    ensures exists at :: 0 < at < |value| - 1 && value[at] == '@'
  {
    var at, dot :| EmailMatchAt(value, at, dot);
    assert forall i :: 0 <= i < |value| && i != at ==> value[i] != '@' by {
      forall i | 0 <= i < |value| && i != at ensures value[i] != '@' {
        if i < at { assert IsLocalChar(value[i]); }
        else if i < dot { assert IsDomainChar(value[i]); }
        else if i > dot { assert IsLetter(value[i]); }
      }
    }
    SingleOccurrence(value, at, '@');
  }

  /** A character found at one index and at no other occurs once in the multiset of `s`. */
  lemma SingleOccurrence(s: string, k: int, c: char)
    requires 0 <= k < |s| && s[k] == c
    requires forall i :: 0 <= i < |s| && i != k ==> s[i] != c
    ensures multiset(s)[c] == 1
  {
    var front, back := s[..k], s[k + 1..];
    assert s == front + [c] + back;
    assert c !in front by {
      forall i | 0 <= i < |front| ensures front[i] != c { assert front[i] == s[i]; }
    }
    assert c !in back by {
      forall i | 0 <= i < |back| ensures back[i] != c { assert back[i] == s[k + 1 + i]; }
    }
    assert multiset(s) == multiset(front) + multiset([c]) + multiset(back);
  }

  /** A value with two `@` anywhere in it is never accepted as an email. */
  lemma TwoAtsRejected(value: string, i: int, j: int)
    requires 0 <= i < j < |value| && value[i] == '@' && value[j] == '@'
    ensures ValidateEmail(value) == Rejected(EMAIL_INVALID)
  {
    assert !IsLocalChar('@') && !IsDomainChar('@') && !IsLetter('@');
    forall at, dot ensures !EmailMatchAt(value, at, dot) {
    }
  }

  /** An accepted email ends in a dot followed by at least two letters and nothing else. */
  lemma AcceptedEmailEndsInLetters(value: string)
    requires ValidateEmail(value) == Accepted
    ensures var dot := LastIndex(value, '.');
      && 0 <= dot && dot + 2 < |value| && value[dot] == '.'
      && forall i :: dot < i < |value| ==> IsLetter(value[i])
  {
    var at, dot :| EmailMatchAt(value, at, dot);
    MatchSplitsAtFirstAtAndLastDot(value, at, dot);
  }

  lemma EmailExampleAccepted()
    ensures ValidateEmail("alice@example.com") == Accepted
  {
    var s := "alice@example.com";
    assert EmailMatchAt(s, 5, 13);
  }

  lemma EmailExampleNoDot()
    ensures ValidateEmail("alice@example") == Rejected(EMAIL_INVALID)
  {
    var s := "alice@example";
    assert forall i :: 0 <= i < |s| ==> s[i] != '.';
  }

  lemma EmailExampleShortTld()
    ensures ValidateEmail("alice@example.c") == Rejected(EMAIL_INVALID)
  {
    var s := "alice@example.c";
    assert s[13] == '.' && s[14] != '.';
    assert LastIndex(s, '.') == 13;
  }

  lemma EmailExampleTwoAts()
    ensures ValidateEmail("alice@@example.com") == Rejected(EMAIL_INVALID)
  {
    var s := "alice@@example.com";
    TwoAtsRejected(s, 5, 6);
  }

  /** A password of length 8 or more that lacks exactly one class is rejected with that class's message. */
  lemma PasswordMissingOneClass(value: string)
    requires |value| >= PASSWORD_MIN_LENGTH
    ensures  !SomeChar(value, IsUpper) ==> ValidatePassword(value) == Rejected(NEEDS_UPPERCASE)
    ensures  SomeChar(value, IsUpper) && !SomeChar(value, IsLower) ==>
               ValidatePassword(value) == Rejected(NEEDS_LOWERCASE)
    ensures  SomeChar(value, IsUpper) && SomeChar(value, IsLower) && !SomeChar(value, IsDigit) ==>
               ValidatePassword(value) == Rejected(NEEDS_NUMBER)
    ensures  (SomeChar(value, IsUpper) && SomeChar(value, IsLower) && SomeChar(value, IsDigit) &&
              !SomeChar(value, IsSpecial)) ==> ValidatePassword(value) == Rejected(NEEDS_SPECIAL)
  {
  }

  /** Any non-empty password shorter than 8 is rejected for its length, whatever it contains. */
  lemma ShortPasswordRejected(value: string)
    requires 0 < |value| < PASSWORD_MIN_LENGTH
    ensures ValidatePassword(value) == Rejected(PASSWORD_TOO_SHORT)
  {
  }

  lemma PasswordExampleAccepted()
    ensures ValidatePassword("Secret@123") == Accepted
  {
    var s := "Secret@123";
    assert IsUpper(s[0]) && IsLower(s[1]) && IsSpecial(s[6]) && IsDigit(s[7]);
  }

  lemma PasswordExampleNoUpper()
    ensures ValidatePassword("secret@123") == Rejected(NEEDS_UPPERCASE)
  {
    var s := "secret@123";
    assert forall i :: 0 <= i < |s| ==> !IsUpper(s[i]);
  }

  lemma PasswordExampleNoSpecial()
    ensures ValidatePassword("Secret1234") == Rejected(NEEDS_SPECIAL)
  {
    var s := "Secret1234";
    assert IsUpper(s[0]) && IsLower(s[1]) && IsDigit(s[6]);
    assert forall i :: 0 <= i < |s| ==> !IsSpecial(s[i]);
  }

  /** Once the password itself is accepted, the confirmation is accepted exactly when it repeats it. */
  lemma ConfirmMatchesValidPassword(value: string, password: string)
    requires ValidatePassword(password) == Accepted
    ensures ValidateConfirmPassword(value, password) == Accepted <==> value == password
  {
  }
}
