/** The account operations of the credential service over the `users` table.
    The table is a map from login to row; the storage engine's answer to the
    one INSERT, UPDATE or DELETE an operation issues, and the random salt,
    are parameters of the operation. Every operation returns a result and a
    message instead of throwing. */
module Accounts {
  import opened Text
  import opened Validation
  import opened Secrets

  /** A row of `users`. The `password` column holds the hash, never the plaintext. */
  datatype UserRecord = UserRecord(login: string, password: string, salt: string, name: string, surname: string)

  /** The (bool, message) pair most operations return. */
  datatype Reply = Reply(success: bool, message: string)

  /** A value that may be absent, as a null reference. */
  datatype Option<+T> = None | Some(value: T)

  /** The (row or null, message) pair of GetUserInfo. */
  datatype UserInfo = UserInfo(user: Option<UserRecord>, message: string)

  /** What GenerateSalt yields: Base64 of 16 random bytes, or the message of a
      failure of the random source. */
  datatype SaltDraw = Drawn(salt: string) | RngFailure(text: string)

  /** How the storage engine answers the one mutating statement: it runs, or it
      raises a MySqlException with an error number and a message. */
  datatype Execution = Executed | SqlError(number: int, text: string)

  /** MySQL error numbers the service tells apart. */
  const DuplicateEntry := 1062
  const RowIsReferenced := 1451

  /** What GetUserInfo puts in place of the hash and the salt. */
  const Redacted := "***"

  const LoginFormatError := "Неверный формат логина"
  const EmptyPasswordError := "Пароль не может быть пустым"
  const UserNotFound := "Пользователь не найден"
  const WrongPassword := "Неверный пароль"
  const LoginSucceeded := "Успешный вход"
  const LoginRule := "Логин должен содержать от 3 до 50 символов (только буквы, цифры и подчеркивания)"
  const PasswordRule := "Пароль должен содержать от 8 до 64 символов, включая заглавные и строчные буквы, цифры и специальные символы"
  const NameRule := "Имя должно содержать от 2 до 50 символов (только буквы и дефисы)"
  const SurnameRule := "Фамилия должна содержать от 2 до 50 символов (только буквы и дефисы)"
  const AlreadyExists := "Пользователь с таким логином уже существует"
  const Registered := "Пользователь успешно зарегистрирован"
  const DatabaseErrorPrefix := "Ошибка базы данных: "
  const RegistrationErrorPrefix := "Ошибка регистрации: "
  const SaltErrorPrefix := "Ошибка генерации соли: "
  const UserExists := "Пользователь существует"
  const UserMissing := "Пользователь не существует"
  const InfoRetrieved := "Данные пользователя получены"
  const WeakNewPassword := "Новый пароль не соответствует требованиям безопасности"
  const PasswordUpdated := "Пароль успешно обновлен"
  const UpdateErrorPrefix := "Ошибка обновления пароля: "
  const Deleted := "Пользователь успешно удален"
  const HasRelatedData := "Невозможно удалить пользователя: имеются связанные данные"

  /** The four format checks Register runs before it looks at the table. */
  predicate RegistrationFormatOk(login: string, password: string, name: string, surname: string) {
    ValidateLogin(login) && ValidatePassword(password) && ValidateName(name) && ValidateName(surname)
  }

  /** The row Register inserts, and the row UpdatePassword leaves behind. */
  function Credentials(digest: Digest, login: string, password: string, salt: string, name: string, surname: string): UserRecord {
    UserRecord(login, digest(password + salt), salt, name, surname)
  }

  class AuthSystem {
    const digest: Digest
    var users: map<string, UserRecord>

    /** Each row sits under its own login. */
    ghost predicate Valid()
      reads this
    {
      forall login :: login in users ==> users[login].login == login
    }

    constructor (digest: Digest, table: map<string, UserRecord>)
      requires forall login :: login in table ==> table[login].login == login
      ensures Valid()
      ensures this.digest == digest && users == table
    {
      this.digest := digest;
      users := table;
    }

    /** IsUserExists: a format error for a malformed login, otherwise whether
        a row with that login exists. */
    function IsUserExists(login: string): (r: Reply)
      reads this
      ensures r.success <==> ValidateLogin(login) && login in users
      ensures !ValidateLogin(login) ==> r.message == LoginFormatError
      ensures ValidateLogin(login) ==> r.message == (if r.success then UserExists else UserMissing)
    {
      if !ValidateLogin(login) then Reply(false, LoginFormatError)
      else
        var found := login in users;
        Reply(found, if found then UserExists else UserMissing)
    }

    /** Login: checks the login format and that a password was given, looks
        the row up, and verifies the password against its hash and salt. */
    function Login(login: string, password: string): (r: Reply)
      reads this
      ensures r.success <==>
                && ValidateLogin(login) && login in users
                && VerifyPassword(digest, password, users[login].salt, users[login].password)
      ensures r.success <==> r.message == LoginSucceeded
      ensures !ValidateLogin(login) ==> r.message == LoginFormatError
      ensures ValidateLogin(login) && password == [] ==> r.message == EmptyPasswordError
      ensures ValidateLogin(login) && password != [] && login !in users ==> r.message == UserNotFound
      ensures ValidateLogin(login) && password != [] && login in users && !r.success ==>
                r.message == WrongPassword
    {
      if !ValidateLogin(login) then Reply(false, LoginFormatError)
      else if password == [] then Reply(false, EmptyPasswordError)
      else if login in users then
        var user := users[login];
        if VerifyPassword(digest, password, user.salt, user.password)
        then Reply(true, LoginSucceeded)
        else Reply(false, WrongPassword)
      else Reply(false, UserNotFound)
    }

    /** After a password has been stored with a salt, that password logs in,
        and any other password that logs in collides with it under the digest. */
    lemma LoginWithStoredPassword(login: string, password: string)
      requires ValidateLogin(login) && login in users && password != []
      requires users[login].salt != []
      requires users[login].password == digest(password + users[login].salt)
      ensures Login(login, password) == Reply(true, LoginSucceeded)
      ensures forall other :: Login(login, other).success ==>
                other == password || Collide(digest, other + users[login].salt, password + users[login].salt)
    {
      var salt := users[login].salt;
      VerifyOwnHash(digest, password, salt);
      forall other | Login(login, other).success && other != password
        ensures Collide(digest, other + salt, password + salt)
      {
        OtherPasswordIsCollision(digest, password, other, salt);
      }
    }

    /** Stores a password's hash and salt in the row of a login: the effect of
        Register's INSERT and of UpdatePassword's UPDATE once the statement has
        run. The password then logs in, and any other password that logs in
        collides with it under the digest. */
    method StoreCredentials(login: string, password: string, salt: string, name: string, surname: string)
      requires Valid()
      requires ValidateLogin(login) && password != [] && salt != []
      modifies this
      ensures Valid()
      ensures users == old(users)[login := Credentials(digest, login, password, salt, name, surname)]
      ensures Login(login, password) == Reply(true, LoginSucceeded)
      ensures forall other :: Login(login, other).success ==>
                other == password || Collide(digest, other + salt, password + salt)
    {
      var passwordHash := HashPassword(digest, password, salt).value;
      users := users[login := UserRecord(login, passwordHash, salt, name, surname)];
      LoginWithStoredPassword(login, password);
    }

    /** Register: the four format checks in order, then the existence probe,
        then a fresh salt and the INSERT. A duplicate-key error from the INSERT
        (a concurrent Register won the race) reads like the probe's answer. */
    method Register(login: string, password: string, name: string, surname: string,
                    draw: SaltDraw, insert: Execution) returns (r: Reply)
      requires Valid()
      requires draw.Drawn? ==> draw.salt != []
      modifies this
      ensures Valid()
      ensures !r.success ==> users == old(users)
      ensures r.success <==>
                RegistrationFormatOk(login, password, name, surname) && login !in old(users)
                && draw.Drawn? && insert.Executed?
      ensures r.success ==>
                && r.message == Registered
                && users == old(users)[login := Credentials(digest, login, password, draw.salt, name, surname)]
      ensures !ValidateLogin(login) ==> r.message == LoginRule
      ensures ValidateLogin(login) && !ValidatePassword(password) ==> r.message == PasswordRule
      ensures ValidateLogin(login) && ValidatePassword(password) && !ValidateName(name) ==>
                r.message == NameRule
      ensures ValidateLogin(login) && ValidatePassword(password) && ValidateName(name)
              && !ValidateName(surname)
              ==> r.message == SurnameRule
      ensures RegistrationFormatOk(login, password, name, surname) && login in old(users) ==>
                r.message == AlreadyExists
      ensures RegistrationFormatOk(login, password, name, surname) && login !in old(users)
              && draw.RngFailure? ==>
                r.message == RegistrationErrorPrefix + SaltErrorPrefix + draw.text
      ensures RegistrationFormatOk(login, password, name, surname) && login !in old(users)
              && draw.Drawn? && insert.SqlError? ==>
                r.message == if insert.number == DuplicateEntry then AlreadyExists
                             else DatabaseErrorPrefix + insert.text
      ensures r.success ==> Login(login, password) == Reply(true, LoginSucceeded)
      ensures r.success ==>
                forall other :: Login(login, other).success ==>
                  other == password || Collide(digest, other + draw.salt, password + draw.salt)
    {
      if !ValidateLogin(login) {
        return Reply(false, LoginRule);
      }
      if !ValidatePassword(password) {
        return Reply(false, PasswordRule);
      }
      if !ValidateName(name) {
        return Reply(false, NameRule);
      }
      if !ValidateName(surname) {
        return Reply(false, SurnameRule);
      }
      var existsCheck := IsUserExists(login);
      if existsCheck.success {
        return Reply(false, AlreadyExists);
      }
      if draw.RngFailure? {
        return Reply(false, RegistrationErrorPrefix + SaltErrorPrefix + draw.text);
      }
      match insert
      case SqlError(number, text) =>
        if number == DuplicateEntry {
          r := Reply(false, AlreadyExists);
        } else {
          r := Reply(false, DatabaseErrorPrefix + text);
        }
      case Executed =>
        // INSERT INTO users (login, password, salt, name, surname)
        StoreCredentials(login, password, draw.salt, name, surname);
        r := Reply(true, Registered);
    }

    /** GetUserInfo: the row of a login with the hash and the salt overwritten
        by "***", so no secret leaves through this path. */
    method GetUserInfo(login: string) returns (info: UserInfo)
      requires Valid()
      ensures info.user.Some? <==> ValidateLogin(login) && login in users
      ensures !ValidateLogin(login) ==> info == UserInfo(None, LoginFormatError)
      ensures ValidateLogin(login) && login !in users ==> info == UserInfo(None, UserNotFound)
      ensures info.user.Some? ==>
                && info.message == InfoRetrieved
                && info.user.value.login == login
                && info.user.value.name == users[login].name
                && info.user.value.surname == users[login].surname
                && info.user.value.password == Redacted
                && info.user.value.salt == Redacted
    {
      if !ValidateLogin(login) {
        return UserInfo(None, LoginFormatError);
      }
      // SELECT * FROM users WHERE login = @uL
      var rows := if login in users then [users[login]] else [];
      if |rows| > 0 {
        var user := rows[0];
        user := user.(password := Redacted);
        user := user.(salt := Redacted);
        return UserInfo(Some(user), InfoRetrieved);
      }
      return UserInfo(None, UserNotFound);
    }

    /** UpdatePassword: the login and the strength of the new password are
        checked, the row must exist, and the hash and salt are replaced by a
        fresh salt and the hash of the new password with it. */
    method UpdatePassword(login: string, newPassword: string, draw: SaltDraw, update: Execution)
      returns (r: Reply)
      requires Valid()
      requires draw.Drawn? ==> draw.salt != []
      modifies this
      ensures Valid()
      ensures !r.success ==> users == old(users)
      ensures r.success <==>
                ValidateLogin(login) && ValidatePassword(newPassword) && login in old(users)
                && draw.Drawn? && update.Executed?
      ensures r.success ==>
                && r.message == PasswordUpdated
                && var row := old(users)[login];
                   users == old(users)[login := Credentials(digest, login, newPassword, draw.salt, row.name, row.surname)]
      ensures !ValidateLogin(login) ==> r.message == LoginFormatError
      ensures ValidateLogin(login) && !ValidatePassword(newPassword) ==> r.message == WeakNewPassword
      ensures ValidateLogin(login) && ValidatePassword(newPassword) && login !in old(users) ==>
                r.message == UserMissing
      ensures ValidateLogin(login) && ValidatePassword(newPassword) && login in old(users)
              && draw.RngFailure? ==>
                r.message == UpdateErrorPrefix + SaltErrorPrefix + draw.text
      ensures ValidateLogin(login) && ValidatePassword(newPassword) && login in old(users)
              && draw.Drawn? && update.SqlError? ==>
                r.message == UpdateErrorPrefix + update.text
      ensures r.success ==> Login(login, newPassword) == Reply(true, LoginSucceeded)
      ensures r.success ==>
                forall other :: Login(login, other).success ==>
                  other == newPassword || Collide(digest, other + draw.salt, newPassword + draw.salt)
    {
      if !ValidateLogin(login) {
        return Reply(false, LoginFormatError);
      }
      if !ValidatePassword(newPassword) {
        return Reply(false, WeakNewPassword);
      }
      var existsCheck := IsUserExists(login);
      if !existsCheck.success {
        return Reply(false, UserMissing);
      }
      if draw.RngFailure? {
        return Reply(false, UpdateErrorPrefix + SaltErrorPrefix + draw.text);
      }
      match update
      case SqlError(_, text) =>
        r := Reply(false, UpdateErrorPrefix + text);
      case Executed =>
        // UPDATE users SET password = @pass, salt = @salt WHERE login = @login
        var row := users[login];
        StoreCredentials(login, newPassword, draw.salt, row.name, row.surname);
        r := Reply(true, PasswordUpdated);
    }

    /** DeleteUser: the login must be well formed and present; a foreign-key
        error from the DELETE means other data still refers to the user. */
    method DeleteUser(login: string, delete: Execution) returns (r: Reply)
      requires Valid()
      modifies this
      ensures Valid()
      ensures !r.success ==> users == old(users)
      ensures r.success <==> ValidateLogin(login) && login in old(users) && delete.Executed?
      ensures r.success ==> r.message == Deleted && users == old(users) - {login}
      ensures !ValidateLogin(login) ==> r.message == LoginFormatError
      ensures ValidateLogin(login) && login !in old(users) ==> r.message == UserMissing
      ensures ValidateLogin(login) && login in old(users) && delete.SqlError? ==>
                r.message == if delete.number == RowIsReferenced then HasRelatedData
                             else DatabaseErrorPrefix + delete.text
      ensures r.success ==> IsUserExists(login) == Reply(false, UserMissing)
    {
      if !ValidateLogin(login) {
        return Reply(false, LoginFormatError);
      }
      var existsCheck := IsUserExists(login);
      if !existsCheck.success {
        return Reply(false, UserMissing);
      }
      match delete
      case SqlError(number, text) =>
        if number == RowIsReferenced {
          r := Reply(false, HasRelatedData);
        } else {
          r := Reply(false, DatabaseErrorPrefix + text);
        }
      case Executed =>
        users := users - {login};
        r := Reply(true, Deleted);
    }
  }
}
