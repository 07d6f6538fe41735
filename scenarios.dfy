/** The account sequences of the unit tests, run against a service whose table
    starts empty. Each method allocates its own service, so it changes no
    existing state; its postcondition is what the corresponding test asserts.
    The salt of every draw is a parameter, and the digest is any digest. */
module Scenarios {
  import opened Text
  import opened Validation
  import opened Secrets
  import opened Accounts

  // Validator facts about the literals the tests use.

  lemma TestUserLogins()
    ensures ValidateLogin("existing_user") && ValidateLogin("test_user")
    ensures ValidateLogin("user_to_delete") && ValidateLogin("test_user_info")
  {
    var a, b, c, d := "existing_user", "test_user", "user_to_delete", "test_user_info";
    forall i | 0 <= i < |a| ensures IsLoginChar(a[i]) { assert i <= 12; }
    forall i | 0 <= i < |b| ensures IsLoginChar(b[i]) { assert i <= 8; }
    forall i | 0 <= i < |c| ensures IsLoginChar(c[i]) { assert i <= 13; }
    forall i | 0 <= i < |d| ensures IsLoginChar(d[i]) { assert i <= 13; }
    ValidateLoginExactly(a);
    ValidateLoginExactly(b);
    ValidateLoginExactly(c);
    ValidateLoginExactly(d);
  }

  lemma MoreTestUserLogins()
    ensures ValidateLogin("test_user_update") && ValidateLogin("nonexistent_user_123")
    ensures ValidateLogin("test_user_wrong_pass")
  {
    var a, b, c := "test_user_update", "nonexistent_user_123", "test_user_wrong_pass";
    forall i | 0 <= i < |a| ensures IsLoginChar(a[i]) { assert i <= 15; }
    forall i | 0 <= i < |b| ensures IsLoginChar(b[i]) { assert i <= 19; }
    forall i | 0 <= i < |c| ensures IsLoginChar(c[i]) { assert i <= 19; }
    ValidateLoginExactly(a);
    ValidateLoginExactly(b);
    ValidateLoginExactly(c);
  }

  lemma TestNames()
    ensures ValidateName("Петр") && ValidateName("Петров")
    ensures ValidateName("Тест") && ValidateName("Пользователь")
  {
    var a, b, c, d := "Петр", "Петров", "Тест", "Пользователь";
    forall i | 0 <= i < |a| ensures IsNameChar(a[i]) { assert i <= 3; }
    forall i | 0 <= i < |b| ensures IsNameChar(b[i]) { assert i <= 5; }
    forall i | 0 <= i < |c| ensures IsNameChar(c[i]) { assert i <= 3; }
    forall i | 0 <= i < |d| ensures IsNameChar(d[i]) { assert i <= 11; }
    ValidateNameExactly(a);
    ValidateNameExactly(b);
    ValidateNameExactly(c);
    ValidateNameExactly(d);
  }

  lemma MoreTestNames()
    ensures ValidateName("Обновление") && ValidateName("Удаляемый") && ValidateName("Информация")
  {
    var a, b, c := "Обновление", "Удаляемый", "Информация";
    forall i | 0 <= i < |a| ensures IsNameChar(a[i]) { assert i <= 9; }
    forall i | 0 <= i < |b| ensures IsNameChar(b[i]) { assert i <= 8; }
    forall i | 0 <= i < |c| ensures IsNameChar(c[i]) { assert i <= 9; }
    ValidateNameExactly(a);
    ValidateNameExactly(b);
    ValidateNameExactly(c);
  }

  /** A password of one-unit characters with 8 to 64 of them is valid once it
      shows one character of each class. */
  lemma PasswordFromWitnesses(password: string, upper: nat, lower: nat, digit: nat, special: nat)
    requires MinPasswordLength <= |password| <= MaxPasswordLength
    requires forall i :: 0 <= i < |password| ==> InBmp(password[i])
    requires upper < |password| && IsAsciiUpper(password[upper])
    requires lower < |password| && IsAsciiLower(password[lower])
    requires digit < |password| && IsAsciiDigit(password[digit])
    requires special < |password| && IsSpecial(password[special])
    ensures ValidatePassword(password)
  {
    ValidatePasswordExactly(password);
  }

  lemma AnotherPassAccepted()
    ensures ValidatePassword("AnotherPass1!")
  {
    var s := "AnotherPass1!";
    forall i | 0 <= i < |s| ensures InBmp(s[i]) { assert i <= 12; }
    PasswordFromWitnesses(s, 0, 1, 11, 12);
  }

  lemma SecondUserNames()
    ensures ValidateName("Иван") && ValidateName("Иванов")
  {
    var a, b := "Иван", "Иванов";
    forall i | 0 <= i < |a| ensures IsNameChar(a[i]) { assert i <= 3; }
    forall i | 0 <= i < |b| ensures IsNameChar(b[i]) { assert i <= 5; }
    ValidateNameExactly(a);
    ValidateNameExactly(b);
  }

  lemma UpdateTestPasswordsAccepted()
    ensures ValidatePassword("OldValidPass1!") && ValidatePassword("NewValidPass1!")
  {
    var before, after := "OldValidPass1!", "NewValidPass1!";
    assert ValidatePassword(before) by {
      forall i | 0 <= i < |before| ensures InBmp(before[i]) { assert i <= 13; }
      PasswordFromWitnesses(before, 0, 1, 12, 13);
    }
    assert ValidatePassword(after) by {
      forall i | 0 <= i < |after| ensures InBmp(after[i]) { assert i <= 13; }
      PasswordFromWitnesses(after, 0, 1, 12, 13);
    }
  }

  /** A user registers and then logs in with the same password. */
  method RegisterThenLogin(digest: Digest, salt: string) returns (registered: Reply, loggedIn: Reply)
    requires salt != []
    ensures registered == Reply(true, Registered)
    ensures loggedIn == Reply(true, LoginSucceeded)
  {
    var auth := new AuthSystem(digest, map[]);
    TestUserLogins();
    TestNames();
    PasswordAccepted();
    registered := auth.Register("test_user", "ValidPass1!", "Тест", "Пользователь", Drawn(salt), Executed);
    loggedIn := auth.Login("test_user", "ValidPass1!");
  }

  /** A different password is refused after registration when the digest does
      not collide on the two salted passwords. */
  method RegisterThenWrongPassword(digest: Digest, salt: string) returns (loggedIn: Reply)
    requires salt != []
    requires digest("WrongPass1!" + salt) != digest("ValidPass1!" + salt)
    ensures loggedIn == Reply(false, WrongPassword)
  {
    var auth := new AuthSystem(digest, map[]);
    MoreTestUserLogins();
    TestNames();
    PasswordAccepted();
    var login, wrong := "test_user_wrong_pass", "WrongPass1!";
    var registered := auth.Register(login, "ValidPass1!", "Тест", "Пользователь", Drawn(salt), Executed);
    assert wrong != "ValidPass1!" by {
      assert wrong[0] != "ValidPass1!"[0];
    }
    loggedIn := auth.Login(login, wrong);
  }

  /** A second registration under the same login is refused, whatever the
      other fields, and the first registration stays in place. */
  method RegisterTwice(digest: Digest, salt1: string, salt2: string, insert: Execution)
    returns (first: Reply, second: Reply)
    requires salt1 != [] && salt2 != []
    ensures first.success
    ensures second == Reply(false, AlreadyExists)
  {
    var auth := new AuthSystem(digest, map[]);
    TestUserLogins();
    TestNames();
    PasswordAccepted();
    AnotherPassAccepted();
    SecondUserNames();
    first := auth.Register("existing_user", "ValidPass1!", "Петр", "Петров", Drawn(salt1), Executed);
    second := auth.Register("existing_user", "AnotherPass1!", "Иван", "Иванов", Drawn(salt2), insert);
  }

  lemma AbsentUserLogins()
    ensures ValidateLogin("nonexistent_user_456") && ValidateLogin("nonexistent_user_999")
    ensures ValidateLogin("nonexistent_user_info") && ValidateLogin("test_user_weak")
  {
    var a, b, c, d := "nonexistent_user_456", "nonexistent_user_999", "nonexistent_user_info", "test_user_weak";
    forall i | 0 <= i < |a| ensures IsLoginChar(a[i]) { assert i <= 19; }
    forall i | 0 <= i < |b| ensures IsLoginChar(b[i]) { assert i <= 19; }
    forall i | 0 <= i < |c| ensures IsLoginChar(c[i]) { assert i <= 20; }
    forall i | 0 <= i < |d| ensures IsLoginChar(d[i]) { assert i <= 13; }
    ValidateLoginExactly(a);
    ValidateLoginExactly(b);
    ValidateLoginExactly(c);
    ValidateLoginExactly(d);
  }

  /** Logging in under a login nobody registered reports the user missing. */
  method LoginAbsentUser(digest: Digest) returns (loggedIn: Reply)
    ensures loggedIn == Reply(false, UserNotFound)
  {
    var auth := new AuthSystem(digest, map[]);
    MoreTestUserLogins();
    var login := "nonexistent_user_123";
    assert login !in auth.users;
    loggedIn := auth.Login(login, "AnyPass1!");
  }

  /** A valid new password for a login nobody registered is refused as the
      user not existing, whatever the salt draw. */
  method UpdateAbsentUser(digest: Digest, draw: SaltDraw, update: Execution) returns (updated: Reply)
    requires draw.Drawn? ==> draw.salt != []
    ensures updated == Reply(false, UserMissing)
  {
    var auth := new AuthSystem(digest, map[]);
    AbsentUserLogins();
    UpdateTestPasswordsAccepted();
    updated := auth.UpdatePassword("nonexistent_user_456", "NewValidPass1!", draw, update);
  }

  /** Deleting a login nobody registered is refused as the user not existing. */
  method DeleteAbsentUser(digest: Digest, delete: Execution) returns (deleted: Reply)
    ensures deleted == Reply(false, UserMissing)
  {
    var auth := new AuthSystem(digest, map[]);
    AbsentUserLogins();
    deleted := auth.DeleteUser("nonexistent_user_999", delete);
  }

  /** The profile of a login nobody registered is null. */
  method InfoAbsentUser(digest: Digest) returns (info: UserInfo)
    ensures info == UserInfo(None, UserNotFound)
  {
    var auth := new AuthSystem(digest, map[]);
    AbsentUserLogins();
    info := auth.GetUserInfo("nonexistent_user_info");
  }

  /** After a password change the new password logs in. */
  method UpdateThenLogin(digest: Digest, salt1: string, salt2: string)
    returns (updated: Reply, loggedIn: Reply)
    requires salt1 != [] && salt2 != []
    ensures updated == Reply(true, PasswordUpdated)
    ensures loggedIn == Reply(true, LoginSucceeded)
  {
    var auth := new AuthSystem(digest, map[]);
    MoreTestUserLogins();
    TestNames();
    MoreTestNames();
    UpdateTestPasswordsAccepted();
    var login := "test_user_update";
    var registered := auth.Register(login, "OldValidPass1!", "Тест", "Обновление", Drawn(salt1), Executed);
    updated := auth.UpdatePassword(login, "NewValidPass1!", Drawn(salt2), Executed);
    loggedIn := auth.Login(login, "NewValidPass1!");
  }

  /** A weak new password is refused for a registered user, whatever the
      salt draw and the storage engine would do. */
  method UpdateWeakPassword(digest: Digest, salt: string, draw: SaltDraw, update: Execution)
    returns (weak: Reply)
    requires salt != []
    requires draw.Drawn? ==> draw.salt != []
    ensures weak == Reply(false, WeakNewPassword)
  {
    var auth := new AuthSystem(digest, map[]);
    AbsentUserLogins();
    TestNames();
    UpdateTestPasswordsAccepted();
    PasswordRejections();
    var login := "test_user_weak";
    var registered := auth.Register(login, "OldValidPass1!", "Тест", "Пользователь", Drawn(salt), Executed);
    weak := auth.UpdatePassword(login, "weak", draw, update);
  }

  /** A registered user exists until deleted, and not afterwards. */
  method DeleteThenExists(digest: Digest, salt: string)
    returns (before: Reply, deleted: Reply, after: Reply)
    requires salt != []
    ensures before == Reply(true, UserExists)
    ensures deleted == Reply(true, Deleted)
    ensures after == Reply(false, UserMissing)
  {
    var auth := new AuthSystem(digest, map[]);
    TestUserLogins();
    TestNames();
    MoreTestNames();
    PasswordAccepted();
    var login := "user_to_delete";
    var registered := auth.Register(login, "ValidPass1!", "Удаляемый", "Пользователь", Drawn(salt), Executed);
    before := auth.IsUserExists(login);
    deleted := auth.DeleteUser(login, Executed);
    after := auth.IsUserExists(login);
  }

  /** The profile of a registered user comes back with its login and names,
      and with the hash and salt replaced by "***". */
  method RegisterThenGetUserInfo(digest: Digest, salt: string) returns (info: UserInfo)
    requires salt != []
    ensures info == UserInfo(Some(UserRecord("test_user_info", Redacted, Redacted, "Информация", "Пользователь")),
                             InfoRetrieved)
  {
    var auth := new AuthSystem(digest, map[]);
    TestUserLogins();
    TestNames();
    MoreTestNames();
    PasswordAccepted();
    var login := "test_user_info";
    var registered := auth.Register(login, "ValidPass1!", "Информация", "Пользователь", Drawn(salt), Executed);
    info := auth.GetUserInfo(login);
  }
}
