/** The three format validators of the credential service: login, password,
    and a person's name or surname. Each one rejects a blank string, then a
    length outside its bounds, then checks the characters against a pattern. */
module Validation {
  import opened Text

  const MinLoginLength: nat := 3
  const MaxLoginLength: nat := 50
  const MinPasswordLength: nat := 8
  const MaxPasswordLength: nat := 64
  const MinNameLength: nat := 2
  const MaxNameLength: nat := 50

  // Character classes of the patterns. Without RegexOptions.IgnoreCase a range
  // such as [A-Z] is the plain code-point range.

  predicate IsAsciiUpper(c: char) { 'A' <= c <= 'Z' }
  predicate IsAsciiLower(c: char) { 'a' <= c <= 'z' }
  predicate IsAsciiDigit(c: char) { '0' <= c <= '9' }

  /** The class [!@#$%^&*()_+\-=\[\]{};':"\\|,.<>\/?] */
  predicate IsSpecial(c: char) {
    c in "!@#$%^&*()_+-=[]{};':\"\\|,.<>/?"
  }

  /** The class [a-zA-Z0-9_] */
  predicate IsLoginChar(c: char) {
    IsAsciiUpper(c) || IsAsciiLower(c) || IsAsciiDigit(c) || c == '_'
  }

  /** The ranges а-я and А-Я: U+0430..U+044F and U+0410..U+042F, which leave out ё and Ё. */
  predicate IsCyrillicLetter(c: char) {
    ('а' <= c <= 'я') || ('А' <= c <= 'Я')
  }

  /** The class [a-zA-Zа-яА-Я\-] */
  predicate IsNameChar(c: char) {
    IsAsciiUpper(c) || IsAsciiLower(c) || IsCyrillicLetter(c) || c == '-'
  }

  // Regex.IsMatch for the pattern shapes the validators use.

  /** Every character of s is in the class. */
  predicate AllIn(s: string, cls: char -> bool) {
    forall i :: 0 <= i < |s| ==> cls(s[i])
  }

  /** Regex.IsMatch(s, "[X]"): some character of s is in the class. */
  predicate AnyIn(s: string, cls: char -> bool) {
    exists i :: 0 <= i < |s| && cls(s[i])
  }

  /** Regex.IsMatch(s, "^[X]+$") as .NET evaluates it: without
      RegexOptions.Multiline, `$` matches at the end of the input or just
      before a final '\n'. Neither class used here contains '\n'. */
  predicate AnchoredMatchAsWritten(s: string, cls: char -> bool) {
    || (|s| >= 1 && AllIn(s, cls))
    || (|s| >= 2 && s[|s| - 1] == '\n' && AllIn(s[..|s| - 1], cls))
  }

  /** The intended match "^[X]+\z": one or more characters, all in the class. */
  predicate WholeMatch(s: string, cls: char -> bool) {
    |s| >= 1 && AllIn(s, cls)
  }

  /** The checks of a validator as written, for a class of one-unit
      characters that are not white space and a lower bound of at least 2:
      they pass exactly when the length is in bounds, every character but the
      last is in the class, and the last is in the class or is '\n'. */
  lemma {:induction false} AnchoredShape(s: string, cls: char -> bool, lo: nat, hi: nat)
    requires forall c :: cls(c) ==> !IsWhiteSpace(c) && InBmp(c)
    requires 2 <= lo
    ensures (!IsBlank(s) && lo <= Utf16Length(s) <= hi && AnchoredMatchAsWritten(s, cls)) <==>
              && lo <= |s| <= hi
              && (forall i :: 0 <= i < |s| - 1 ==> cls(s[i]))
              && (cls(s[|s| - 1]) || s[|s| - 1] == '\n')
  {
    if |s| >= 2 {
      var init := s[..|s| - 1];
      assert forall i :: 0 <= i < |init| ==> init[i] == s[i];
      assert s == init + [s[|s| - 1]];
      if AllIn(init, cls) {
        ClassFacts(init, cls);
        Utf16LengthSnoc(init, s[|s| - 1]);
        assert !IsWhiteSpace(s[0]);
      }
      if AllIn(s, cls) {
        ClassFacts(s, cls);
      }
    }
  }

  // The validators as written, with the `$` anchor.

  /** Every character but the last is in the class, and the last is in the
      class or is '\n'; all of them are one code unit each. */
  predicate ValidateLoginAsWritten(login: string)
    ensures ValidateLoginAsWritten(login) <==>
              && MinLoginLength <= |login| <= MaxLoginLength
              && (forall i :: 0 <= i < |login| - 1 ==> IsLoginChar(login[i]))
              && (IsLoginChar(login[|login| - 1]) || login[|login| - 1] == '\n')
  {
    LoginCharsAreNarrow();
    AnchoredShape(login, IsLoginChar, MinLoginLength, MaxLoginLength);
    && !IsBlank(login)
    && MinLoginLength <= Utf16Length(login) <= MaxLoginLength
    && AnchoredMatchAsWritten(login, IsLoginChar)
  }

  predicate ValidateNameAsWritten(name: string)
    ensures ValidateNameAsWritten(name) <==>
              && MinNameLength <= |name| <= MaxNameLength
              && (forall i :: 0 <= i < |name| - 1 ==> IsNameChar(name[i]))
              && (IsNameChar(name[|name| - 1]) || name[|name| - 1] == '\n')
  {
    NameCharsAreNarrow();
    AnchoredShape(name, IsNameChar, MinNameLength, MaxNameLength);
    && !IsBlank(name)
    && MinNameLength <= Utf16Length(name) <= MaxNameLength
    && AnchoredMatchAsWritten(name, IsNameChar)
  }

  // The validators the service uses: the same checks with the anchor closed
  // at the very end of the input.

  /** A valid login holds no white space and its .NET length is its number
      of characters. */
  predicate ValidateLogin(login: string)
    ensures ValidateLogin(login) ==>
              && Utf16Length(login) == |login|
              && forall i :: 0 <= i < |login| ==> !IsWhiteSpace(login[i])
  {
    && !IsBlank(login)
    && MinLoginLength <= Utf16Length(login) <= MaxLoginLength
    && WholeMatch(login, IsLoginChar)
  }

  predicate ValidateName(name: string)
    ensures ValidateName(name) ==>
              && Utf16Length(name) == |name|
              && forall i :: 0 <= i < |name| ==> !IsWhiteSpace(name[i])
  {
    && !IsBlank(name)
    && MinNameLength <= Utf16Length(name) <= MaxNameLength
    && WholeMatch(name, IsNameChar)
  }

  predicate HasUpper(s: string) { AnyIn(s, IsAsciiUpper) }
  predicate HasLower(s: string) { AnyIn(s, IsAsciiLower) }
  predicate HasDigit(s: string) { AnyIn(s, IsAsciiDigit) }
  predicate HasSpecial(s: string) { AnyIn(s, IsSpecial) }

  /** The bounds are on code units, so a valid password has 4 to 64
      characters: one outside the BMP counts twice. */
  predicate ValidatePassword(password: string)
    ensures ValidatePassword(password) ==> 4 <= |password| <= MaxPasswordLength
  {
    && !IsBlank(password)
    && MinPasswordLength <= Utf16Length(password) <= MaxPasswordLength
    && HasUpper(password) && HasLower(password) && HasDigit(password) && HasSpecial(password)
  }

  /** A string whose characters are all in a class that holds no white space
      and no character outside the BMP is not blank when it is non-empty, and
      its .NET length is its number of characters. */
  lemma {:induction false} ClassFacts(s: string, cls: char -> bool)
    requires forall c :: cls(c) ==> !IsWhiteSpace(c) && InBmp(c)
    requires AllIn(s, cls)
    ensures Utf16Length(s) == |s|
    ensures |s| >= 1 ==> !IsBlank(s)
  {
    if |s| >= 1 {
      assert cls(s[0]);
    }
  }

  lemma LoginCharsAreNarrow()
    ensures forall c :: IsLoginChar(c) ==> !IsWhiteSpace(c) && InBmp(c)
  {
  }

  lemma NameCharsAreNarrow()
    ensures forall c :: IsNameChar(c) ==> !IsWhiteSpace(c) && InBmp(c)
  {
  }

  /** A login is valid exactly when it has 3 to 50 characters, all of them
      ASCII letters, digits or underscores. */
  lemma {:induction false} ValidateLoginExactly(login: string)
    ensures ValidateLogin(login) <==>
              MinLoginLength <= |login| <= MaxLoginLength
              && forall i :: 0 <= i < |login| ==> IsLoginChar(login[i])
  {
    LoginCharsAreNarrow();
    if AllIn(login, IsLoginChar) {
      ClassFacts(login, IsLoginChar);
    }
  }

  /** A name is valid exactly when it has 2 to 50 characters, all of them
      Latin letters, Cyrillic letters of а-я/А-Я, or hyphens. */
  lemma {:induction false} ValidateNameExactly(name: string)
    ensures ValidateName(name) <==>
              MinNameLength <= |name| <= MaxNameLength
              && forall i :: 0 <= i < |name| ==> IsNameChar(name[i])
  {
    NameCharsAreNarrow();
    if AllIn(name, IsNameChar) {
      ClassFacts(name, IsNameChar);
    }
  }

  /** The blank test of ValidatePassword never decides anything: a password
      is valid exactly when its .NET length is 8 to 64 and it holds an upper-case
      letter, a lower-case letter, a digit and a special character. */
  lemma {:induction false} ValidatePasswordExactly(password: string)
    ensures ValidatePassword(password) <==>
              MinPasswordLength <= Utf16Length(password) <= MaxPasswordLength
              && HasUpper(password) && HasLower(password)
              && HasDigit(password) && HasSpecial(password)
  {
    if HasUpper(password) {
      var i :| 0 <= i < |password| && IsAsciiUpper(password[i]);
      assert !IsWhiteSpace(password[i]);
    }
  }

  /** The corrected validators accept nothing the written ones reject, and the
      two disagree only on an input whose last character is '\n'. */
  lemma {:induction false} LoginAnchorDifference(login: string)
    ensures ValidateLogin(login) ==> ValidateLoginAsWritten(login)
    ensures ValidateLoginAsWritten(login) != ValidateLogin(login) ==>
              |login| >= 2 && login[|login| - 1] == '\n'
  {
  }

  lemma {:induction false} NameAnchorDifference(name: string)
    ensures ValidateName(name) ==> ValidateNameAsWritten(name)
    ensures ValidateNameAsWritten(name) != ValidateName(name) ==>
              |name| >= 2 && name[|name| - 1] == '\n'
  {
  }

  /** "ab\n" passes the login check as written: `$` matches before the final
      newline, and the newline brings the length up to 3. */
  lemma LoginTrailingNewlineAccepted()
    ensures ValidateLoginAsWritten("ab\n")
    ensures !ValidateLogin("ab\n")
  {
    var s := "ab\n";
    assert !IsWhiteSpace(s[0]);
    var ab := s[..2];
    assert ab == "ab";
    forall i | 0 <= i < |ab| ensures IsLoginChar(ab[i]) { assert i <= 1; }
    forall i | 0 <= i < |s| ensures InBmp(s[i]) { assert i <= 2; }
    assert !IsLoginChar(s[2]);
  }

  /** "Иван\n" passes the name check as written. */
  lemma NameTrailingNewlineAccepted()
    ensures ValidateNameAsWritten("Иван\n")
    ensures !ValidateName("Иван\n")
  {
    var s := "Иван\n";
    assert !IsWhiteSpace(s[0]);
    var name := s[..4];
    assert name == "Иван";
    forall i | 0 <= i < |name| ensures IsNameChar(name[i]) { assert i <= 3; }
    forall i | 0 <= i < |s| ensures InBmp(s[i]) { assert i <= 4; }
    assert !IsNameChar(s[4]);
  }

  /** The login examples of the unit tests. */
  lemma LoginExamples()
    ensures !ValidateLogin("") && !ValidateLogin("ab") && !ValidateLogin("user@name")
    ensures ValidateLogin("valid_user") && ValidateLogin("abc_123")
  {
    ValidateLoginExactly("ab");
    ValidateLoginExactly("user@name");
    assert !IsLoginChar("user@name"[4]);
    var valid, other := "valid_user", "abc_123";
    forall i | 0 <= i < |valid| ensures IsLoginChar(valid[i]) { assert i <= 9; }
    forall i | 0 <= i < |other| ensures IsLoginChar(other[i]) { assert i <= 6; }
    ValidateLoginExactly(valid);
    ValidateLoginExactly(other);
  }

  /** The rejected password examples of the unit tests. */
  lemma PasswordRejections()
    ensures !ValidatePassword("") && !ValidatePassword("weak") && !ValidatePassword("NoSpecial1")
  {
    var weak := "weak";
    forall i | 0 <= i < |weak| ensures InBmp(weak[i]) { assert i <= 3; }
    NoSpecialRejected();
  }

  lemma NoSpecialRejected()
    ensures !HasSpecial("NoSpecial1")
  {
    var noSpecial := "NoSpecial1";
    forall i | 0 <= i < |noSpecial| ensures !IsSpecial(noSpecial[i]) {
      assert i <= 9;
    }
  }

  /** The accepted password example of the unit tests. */
  lemma PasswordAccepted()
    ensures ValidatePassword("ValidPass1!")
  {
    var valid := "ValidPass1!";
    assert IsAsciiUpper(valid[0]) && IsAsciiLower(valid[1]);
    assert IsAsciiDigit(valid[9]) && IsSpecial(valid[10]);
    assert !IsWhiteSpace(valid[0]);
    forall i | 0 <= i < |valid| ensures InBmp(valid[i]) { assert i <= 10; }
  }

  /** The password policy text says "no spaces", but the validator does not
      look for white space inside a password. */
  lemma PasswordWithSpaceAccepted()
    ensures ValidatePassword("Valid Pass1!")
  {
    var spaced := "Valid Pass1!";
    assert IsAsciiUpper(spaced[0]) && IsAsciiLower(spaced[1]);
    assert IsAsciiDigit(spaced[10]) && IsSpecial(spaced[11]);
    assert !IsWhiteSpace(spaced[0]);
    forall i | 0 <= i < |spaced| ensures InBmp(spaced[i]) { assert i <= 11; }
  }

  /** ё lies outside а-я, so a name spelled with it is refused. */
  lemma NameYoRejected()
    ensures !ValidateName("Алёна")
    ensures ValidateName("Алена")
  {
    assert !IsNameChar("Алёна"[2]);
    var plain := "Алена";
    forall i | 0 <= i < |plain| ensures IsNameChar(plain[i]) { assert i <= 4; }
    ValidateNameExactly(plain);
  }
}
