/** The password-strength scorer and the password policy text. The scorer is a
    heuristic apart from ValidatePassword: it counts how many of five criteria
    a password meets and names the count. */
module Strength {
  import opened Text
  import opened Validation

  datatype StrengthReport = StrengthReport(strength: nat, message: string)

  const EmptyPasswordLabel := "Пустой пароль"

  /** The label of a non-empty password's score. */
  function StrengthLabel(strength: nat): string {
    if strength == 5 then "Очень сильный пароль"
    else if strength == 4 then "Сильный пароль"
    else if strength == 3 then "Средний пароль"
    else if strength == 2 then "Слабый пароль"
    else "Очень слабый пароль"
  }

  function Point(met: bool): nat {
    if met then 1 else 0
  }

  /** One point each for: .NET length at least 8, an upper-case letter, a
      lower-case letter, a digit, a special character. */
  function CriteriaMet(password: string): nat {
    Point(Utf16Length(password) >= MinPasswordLength)
    + Point(HasUpper(password))
    + Point(HasLower(password))
    + Point(HasDigit(password))
    + Point(HasSpecial(password))
  }

  /** CheckPasswordStrength: the empty password gets its own report; any
      other password scores the number of criteria it meets, labelled by
      StrengthLabel. */
  function CheckPasswordStrength(password: string): (r: StrengthReport)
    ensures r.strength <= 5
    ensures password == [] ==> r == StrengthReport(0, EmptyPasswordLabel)
    ensures password != [] ==> r.message == StrengthLabel(r.strength)
    ensures r.strength == 5 <==>
              && Utf16Length(password) >= MinPasswordLength
              && HasUpper(password) && HasLower(password)
              && HasDigit(password) && HasSpecial(password)
  {
    if password == [] then StrengthReport(0, EmptyPasswordLabel)
    else
      var strength := CriteriaMet(password);
      StrengthReport(strength, StrengthLabel(strength))
  }

  /** The "empty password" label is given to the empty password and to no other. */
  lemma EmptyLabelOnlyForEmpty(password: string)
    ensures CheckPasswordStrength(password).message == EmptyPasswordLabel <==> password == []
  {
  }

  /** A password that passes validation scores the full five points. */
  lemma ValidPasswordIsVeryStrong(password: string)
    requires ValidatePassword(password)
    ensures CheckPasswordStrength(password) == StrengthReport(5, "Очень сильный пароль")
  {
  }

  /** Validation is exactly "full score and no longer than 64 code units":
      a long password can score 5 and still be refused. */
  lemma {:induction false} ValidateByStrength(password: string)
    ensures ValidatePassword(password) <==>
              CheckPasswordStrength(password).strength == 5
              && Utf16Length(password) <= MaxPasswordLength
  {
    ValidatePasswordExactly(password);
  }

  /** Appending a character to s makes a class match exactly when it already
      matched or the new character is in the class. */
  lemma AnyInSnoc(s: string, c: char, cls: char -> bool)
    ensures AnyIn(s + [c], cls) <==> AnyIn(s, cls) || cls(c)
  {
    var t := s + [c];
    assert t[|s|] == c;
    if AnyIn(s, cls) {
      var i :| 0 <= i < |s| && cls(s[i]);
      assert t[i] == s[i];
    }
    if AnyIn(t, cls) && !cls(c) {
      var i :| 0 <= i < |t| && cls(t[i]);
      assert i < |s| && t[i] == s[i];
    }
  }

  /** A character is in at most one of the four classes the scorer looks for. */
  lemma ClassesDisjoint(c: char)
    ensures Point(IsAsciiUpper(c)) + Point(IsAsciiLower(c))
            + Point(IsAsciiDigit(c)) + Point(IsSpecial(c)) <= 1
  {
  }

  /** Appending one character never lowers the count of criteria met and
      raises it by at most two: the length criterion, and the one character
      class the new character belongs to. */
  lemma {:induction false} CriteriaAfterAppend(password: string, c: char)
    ensures CriteriaMet(password) <= CriteriaMet(password + [c]) <= CriteriaMet(password) + 2
  {
    var longer := password + [c];
    Utf16LengthSnoc(password, c);
    AnyInSnoc(password, c, IsAsciiUpper);
    AnyInSnoc(password, c, IsAsciiLower);
    AnyInSnoc(password, c, IsAsciiDigit);
    AnyInSnoc(password, c, IsSpecial);
    ClassesDisjoint(c);
  }

  /** The scorer's form of the above: adding a character to a password never
      weakens it, and strengthens it by at most two steps. */
  lemma {:induction false} StrengthAfterAppend(password: string, c: char)
    ensures CheckPasswordStrength(password).strength
            <= CheckPasswordStrength(password + [c]).strength
            <= CheckPasswordStrength(password).strength + 2
  {
    if password == [] {
      var one := [c];
      assert one == password + [c];
      assert Utf16Length(one) <= 2;
      ClassesDisjoint(c);
      forall cls: char -> bool ensures AnyIn(one, cls) == cls(c) {
        AnyInSnoc(password, c, cls);
      }
    } else {
      CriteriaAfterAppend(password, c);
    }
  }

  lemma StrengthOfEmptyAndShort()
    ensures CheckPasswordStrength("") == StrengthReport(0, "Пустой пароль")
    ensures CheckPasswordStrength("A") == StrengthReport(1, "Очень слабый пароль")
    ensures CheckPasswordStrength("Aa") == StrengthReport(2, "Слабый пароль")
  {
    var one, two := "A", "Aa";
    assert one[0] == 'A';
    assert !HasSpecial(one) && !HasDigit(one) && !HasLower(one);
    assert two[0] == 'A' && two[1] == 'a';
    forall i | 0 <= i < |two| ensures !IsSpecial(two[i]) && !IsAsciiDigit(two[i]) {
      assert i <= 1;
    }
  }

  lemma StrengthOfAa1()
    ensures CheckPasswordStrength("Aa1") == StrengthReport(3, "Средний пароль")
  {
    var s := "Aa1";
    assert s[0] == 'A' && s[1] == 'a' && s[2] == '1';
    NoSpecialInAa1();
  }

  lemma NoSpecialInAa1()
    ensures !HasSpecial("Aa1")
  {
    var s := "Aa1";
    forall i | 0 <= i < |s| ensures !IsSpecial(s[i]) {
      assert i <= 2;
    }
  }

  lemma StrengthOfAa1Bang()
    ensures CheckPasswordStrength("Aa1!") == StrengthReport(4, "Сильный пароль")
  {
    var s := "Aa1!";
    assert s[0] == 'A' && s[1] == 'a' && s[2] == '1' && s[3] == '!';
  }

  /** "Weak1" meets three criteria: upper, lower and digit. */
  lemma StrengthOfWeak1()
    ensures CheckPasswordStrength("Weak1") == StrengthReport(3, "Средний пароль")
  {
    var s := "Weak1";
    assert IsAsciiUpper(s[0]) && IsAsciiLower(s[1]) && IsAsciiDigit(s[4]);
    NoSpecialInWeak1();
    assert CriteriaMet(s) == 3;
  }

  lemma NoSpecialInWeak1()
    ensures !HasSpecial("Weak1")
  {
    var s := "Weak1";
    forall i | 0 <= i < |s| ensures !IsSpecial(s[i]) {
      assert i <= 4;
    }
  }

  lemma StrengthOfValidPass()
    ensures CheckPasswordStrength("ValidPass1!") == StrengthReport(5, "Очень сильный пароль")
  {
    PasswordAccepted();
    ValidPasswordIsVeryStrong("ValidPass1!");
  }

  /** A phrase found in a prefix of s is found in s; in particular the phrase
      that ends the prefix pre + t. */
  lemma IsAtInPrefix(s: string, pre: string, t: string)
    requires pre + t <= s
    ensures IsAt(s, t, |pre|)
  {
    assert s[|pre|..|pre| + |t|] == (pre + t)[|pre|..];
  }

  // The policy text, cut around the phrases it must contain.
  const RequirementsHeading := "Требования к паролю:\n• "
  const LengthRule := "Длина: от 8 до 64 символов"
  const AtLeastOne := "\n• Минимум одна "
  const UpperRule := "заглавная буква"
  const LowerRule := "строчная буква"
  const DigitRule := "цифра"
  const SpecialIntro := "\n• Минимум один "
  const SpecialRule := "специальный символ"
  const SpecialList := " (!@#$%^&*()_+-=[]{};':\"|,.<>/?)\n• "
  const NoSpacesRule := "Без пробелов"

  /** GetPasswordRequirements: the policy text shown to users. It opens with
      its heading and closes with the no-spaces rule. */
  function GetPasswordRequirements(): (text: string)
    ensures RequirementsHeading <= text
    ensures |text| >= |NoSpacesRule| && text[|text| - |NoSpacesRule|..] == NoSpacesRule
  {
    RequirementsHeading + LengthRule
    + AtLeastOne + UpperRule
    + AtLeastOne + LowerRule
    + AtLeastOne + DigitRule
    + SpecialIntro + SpecialRule + SpecialList
    + NoSpacesRule
  }

  /** The policy text names the length bounds 8 and 64 and the four character
      classes, and asks for no spaces, which ValidatePassword does not enforce. */
  lemma RequirementsMentionPolicy()
    ensures Contains(GetPasswordRequirements(), "Длина: от 8 до 64 символов")
    ensures Contains(GetPasswordRequirements(), "заглавная буква")
    ensures Contains(GetPasswordRequirements(), "строчная буква")
    ensures Contains(GetPasswordRequirements(), "цифра")
    ensures Contains(GetPasswordRequirements(), "специальный символ")
    ensures Contains(GetPasswordRequirements(), "Без пробелов")
  {
    var text := GetPasswordRequirements();
    var h := RequirementsHeading;
    IsAtInPrefix(text, h, LengthRule);
    var h1 := h + LengthRule + AtLeastOne;
    IsAtInPrefix(text, h1, UpperRule);
    var h2 := h1 + UpperRule + AtLeastOne;
    IsAtInPrefix(text, h2, LowerRule);
    var h3 := h2 + LowerRule + AtLeastOne;
    IsAtInPrefix(text, h3, DigitRule);
    var h4 := h3 + DigitRule + SpecialIntro;
    IsAtInPrefix(text, h4, SpecialRule);
    var h5 := h4 + SpecialRule + SpecialList;
    IsAtInPrefix(text, h5, NoSpacesRule);
  }
}
