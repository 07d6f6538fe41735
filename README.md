# AuthSystem credential service, modelled in Dafny

This project models the credential service `AuthSystem` of TaskManagerApplication, a desktop task manager. The service has four parts:

- **Validators.** Three format validators: login, password, and a person's name.
- **Strength scorer.** It counts how many of five criteria a password meets and gives the count a fixed Russian label.
- **Hashing.** Salted password hashing and verification.
- **Account operations.** Six operations over the `users` table: `Register`, `Login`, `IsUserExists`, `GetUserInfo`, `UpdatePassword` and `DeleteUser`. Each returns a result and a message and never throws.

Modules, in dependency order:

- `Text`: .NET string facts: `String.Length` in UTF-16 code units, `char.IsWhiteSpace`, `IsNullOrWhiteSpace` and `String.Contains`.
- `Validation`:
  - the character classes and the `Regex.IsMatch` shapes the validators use;
  - the validators as written (`$` anchor) and as used by the model (anchor at the very end).
- `Strength`: `CheckPasswordStrength` and the policy text `GetPasswordRequirements`.
- `Secrets`: `HashPassword` and `VerifyPassword`. The digest (SHA-256 of the UTF-8 bytes, Base64-encoded) is a parameter. It can be any function that always yields 44 characters. No digest of this kind is collision-free, so the properties that depend on it name the collision they would need: the predicate `Collide` holds of two different inputs with the same digest.
- `Accounts`: the class `AuthSystem`, its result types, and an `Option` type for the null row of `GetUserInfo`.
  - Its field `users: map<string, UserRecord>` is the table, keyed by login.
  - `Register`, `UpdatePassword` and `DeleteUser` modify it.
  - `Login` and `IsUserExists` are functions reading it.
  - `GetUserInfo` is a method that only reads it.
  - The salt each mutating operation draws is a parameter of type `SaltDraw`: a salt, or a failure of the random source with its message.
  - The storage engine's answer to the one INSERT, UPDATE or DELETE is a parameter of type `Execution`: it runs, or it fails with a MySQL error number and message. The service tells apart error 1062 (duplicate key) and error 1451 (row still referenced).
- `Scenarios`: the account sequences of the unit tests, each on a fresh service with an empty table.

## Model

| member | source | states |
|---|---|---|
| Text.Utf16Length | TaskManagerApplication/AccountWorking/AuthSystem.cs:84 | `Length` counts UTF-16 code units: between \|s\| and 2\|s\|, and exactly \|s\| iff every character is in the BMP |
| Text.Utf16LengthSnoc | TaskManagerApplication/AccountWorking/AuthSystem.cs:407 | appending one character adds 1 or 2 code units, according to whether it is in the BMP |
| Text.IsWhiteSpace | TaskManagerApplication/AccountWorking/AuthSystem.cs:81 | every character `char.IsWhiteSpace` accepts is one UTF-16 code unit; space, tab, CR and LF are among them |
| Text.IsBlank | TaskManagerApplication/AccountWorking/AuthSystem.cs:81 | `IsNullOrWhiteSpace` holds of the empty string, and a blank string's .NET length equals its number of characters |
| Validation.ValidateLoginAsWritten | TaskManagerApplication/AccountWorking/AuthSystem.cs:79-88 | the login check as written accepts exactly the strings of 3 to 50 characters whose characters are all in [a-zA-Z0-9_], except that the last may be '\n' |
| Validation.AnchoredShape | TaskManagerApplication/AccountWorking/AuthSystem.cs:79-88 | for a class of one-unit, non-white-space characters and a lower bound of at least 2, the blank, length and `$`-anchored checks pass exactly when the length is in bounds and every character but the last is in the class, the last being in the class or '\n' |
| Validation.ValidateNameAsWritten | TaskManagerApplication/AccountWorking/AuthSystem.cs:106-115 | the name check as written accepts exactly the strings of 2 to 50 characters in [a-zA-Zа-яА-Я-], except that the last may be '\n' |
| Validation.ValidateLogin | TaskManagerApplication/AccountWorking/AuthSystem.cs:79-88 | the corrected login check: a valid login holds no white space and its .NET length is its number of characters |
| Validation.ValidateName | TaskManagerApplication/AccountWorking/AuthSystem.cs:106-115 | the corrected name check: a valid name holds no white space and its .NET length is its number of characters |
| Validation.ValidatePassword | TaskManagerApplication/AccountWorking/AuthSystem.cs:90-104 | the bounds count code units, so a valid password has at most 64 characters, and at least 4 (a safe lower bound, not the tight one) |
| Validation.ValidateLoginExactly | TaskManagerApplication/AccountWorking/AuthSystem.cs:79-88 | a login is valid iff it has 3 to 50 characters, all in [a-zA-Z0-9_]; the blank check and the code-unit count decide nothing beyond that |
| Validation.ValidateNameExactly | TaskManagerApplication/AccountWorking/AuthSystem.cs:106-115 | a name is valid iff it has 2 to 50 characters, all in [a-zA-Zа-яА-Я-] |
| Validation.ValidatePasswordExactly | TaskManagerApplication/AccountWorking/AuthSystem.cs:90-104 | a password is valid iff its code-unit length is 8 to 64 and it has an upper-case letter, a lower-case letter, a digit and a special character; the blank check is redundant |
| Validation.LoginAnchorDifference | TaskManagerApplication/AccountWorking/AuthSystem.cs:87 | the corrected login check accepts nothing the written one rejects; the two differ only on inputs ending in '\n' |
| Validation.NameAnchorDifference | TaskManagerApplication/AccountWorking/AuthSystem.cs:114 | the same for the name check |
| Validation.LoginTrailingNewlineAccepted | TaskManagerApplication/AccountWorking/AuthSystem.cs:84-87 | "ab\n" passes the login check as written but not the corrected one |
| Validation.NameTrailingNewlineAccepted | TaskManagerApplication/AccountWorking/AuthSystem.cs:111-114 | "Иван\n" passes the name check as written but not the corrected one |
| Validation.LoginExamples | TaskManagerApplication/AccountWorking.Tests/AccountWorkingTest.cs:253-264 | "", "ab" and "user@name" are rejected; "valid_user" and "abc_123" are accepted |
| Validation.PasswordRejections | TaskManagerApplication/AccountWorking.Tests/AccountWorkingTest.cs:266-278 | "", "weak" and "NoSpecial1" are rejected |
| Validation.PasswordAccepted | TaskManagerApplication/AccountWorking.Tests/AccountWorkingTest.cs:276 | "ValidPass1!" is accepted |
| Validation.PasswordWithSpaceAccepted | TaskManagerApplication/AccountWorking/AuthSystem.cs:90-104 | "Valid Pass1!" is accepted, although the policy text asks for no spaces |
| Validation.NameYoRejected | TaskManagerApplication/AccountWorking/AuthSystem.cs:114 | "Алёна" is rejected because ё is outside а-я; "Алена" is accepted |
| Strength.CheckPasswordStrength | TaskManagerApplication/AccountWorking/AuthSystem.cs:399-423 | the score is at most 5; the empty password gets (0, "Пустой пароль"); any other password gets the label of its score; the score is 5 iff all five criteria hold |
| Strength.EmptyLabelOnlyForEmpty | TaskManagerApplication/AccountWorking/AuthSystem.cs:401-402 | the label "Пустой пароль" is given to the empty password and to no other |
| Strength.ValidPasswordIsVeryStrong | TaskManagerApplication/AccountWorking/AuthSystem.cs:399-423 | every valid password scores (5, "Очень сильный пароль") |
| Strength.ValidateByStrength | TaskManagerApplication/AccountWorking/AuthSystem.cs:90-104 | a password is valid iff it scores 5 and is at most 64 code units long |
| Strength.ClassesDisjoint | TaskManagerApplication/AccountWorking/AuthSystem.cs:408-411 | a character is in at most one of the four classes the scorer tests |
| Strength.CriteriaAfterAppend | TaskManagerApplication/AccountWorking/AuthSystem.cs:407-411 | appending a character never lowers the count of criteria met and raises it by at most 2 |
| Strength.StrengthAfterAppend | TaskManagerApplication/AccountWorking/AuthSystem.cs:399-423 | appending a character to a password never lowers its score and raises it by at most 2, the empty password included |
| Strength.StrengthOfEmptyAndShort | TaskManagerApplication/TestCases/Program.cs:127-129 | "" scores (0, "Пустой пароль"), "A" scores (1, "Очень слабый пароль"), "Aa" scores (2, "Слабый пароль") |
| Strength.StrengthOfAa1 | TaskManagerApplication/AccountWorking.Tests/AccountWorkingTest.cs:292-294 | "Aa1" scores (3, "Средний пароль") |
| Strength.StrengthOfAa1Bang | TaskManagerApplication/TestCases/Program.cs:131 | "Aa1!" scores (4, "Сильный пароль") |
| Strength.StrengthOfWeak1 | TaskManagerApplication/AccountWorking.Tests/AccountWorkingTest.cs:192-199 | "Weak1" scores (3, "Средний пароль") |
| Strength.StrengthOfValidPass | TaskManagerApplication/AccountWorking.Tests/AccountWorkingTest.cs:296-298 | "ValidPass1!" scores (5, "Очень сильный пароль") |
| Strength.GetPasswordRequirements | TaskManagerApplication/AccountWorking/AuthSystem.cs:388-397 | the policy text opens with its heading and ends with the rule "Без пробелов" |
| Strength.RequirementsMentionPolicy | TaskManagerApplication/AccountWorking/AuthSystem.cs:388-397 | the policy text contains the length rule with 8 and 64, the four character classes and "Без пробелов" |
| Secrets.HashPassword | TaskManagerApplication/AccountWorking/AuthSystem.cs:40-61 | an argument error iff the password or the salt is empty, with the password checked first and each with its own message; otherwise a 44-character hash |
| Secrets.VerifyPassword | TaskManagerApplication/AccountWorking/AuthSystem.cs:63-77 | false whenever an argument is empty; otherwise true iff the hash recomputed from the password and salt equals the stored hash |
| Secrets.HashOfConcatenation | TaskManagerApplication/AccountWorking/AuthSystem.cs:52 | the hash depends only on the concatenation password + salt |
| Secrets.VerifyOwnHash | TaskManagerApplication/AccountWorking/AuthSystem.cs:63-77 | a password verifies against the hash computed from it and its salt |
| Secrets.SaltCancels | TaskManagerApplication/AccountWorking/AuthSystem.cs:52 | two passwords followed by the same salt give the same hash input only if they are equal |
| Secrets.OtherPasswordIsCollision | TaskManagerApplication/AccountWorking/AuthSystem.cs:63-77 | another password verifies against the hash of a password and salt only if the digest collides on the two salted inputs |
| Accounts.AuthSystem.constructor | TaskManagerApplication/AccountWorking/AuthSystem.cs:13-16 | the service starts over a given table whose rows sit under their own logins |
| Accounts.AuthSystem.IsUserExists | TaskManagerApplication/AccountWorking/AuthSystem.cs:234-260 | (false, "Неверный формат логина") for a malformed login; otherwise success iff the login is in the table, with "Пользователь существует" / "Пользователь не существует" |
| Accounts.AuthSystem.Login | TaskManagerApplication/AccountWorking/AuthSystem.cs:117-168 | success iff the login is valid, present, and the password verifies against its row; otherwise the message of the first failing check in the source's order (format, empty password, not found, wrong password); success iff the message is "Успешный вход" |
| Accounts.AuthSystem.LoginWithStoredPassword | TaskManagerApplication/AccountWorking/AuthSystem.cs:140-156 | once a row holds the hash of a password with its salt, that password logs in, and any other password that logs in collides with it under the digest |
| Accounts.AuthSystem.StoreCredentials | TaskManagerApplication/AccountWorking/AuthSystem.cs:193-202 | writing the hash and salt of a password into a login's row changes only that key, and afterwards the password logs in and any other password that logs in collides with it under the digest |
| Accounts.AuthSystem.Register | TaskManagerApplication/AccountWorking/AuthSystem.cs:170-232 | success iff the four format checks pass, the login is new, a salt was drawn and the INSERT ran. On failure the table is unchanged and the message is that of the first failing step: the four format rules in order, "already exists" (also for error 1062), the registration and salt prefixes around an RNG failure, or the database prefix. On success only that login is added, with the given names, the drawn salt and the digest of password + salt; the password then logs in, and any other password that logs in collides with it under the digest. The checks are the corrected login and name checks |
| Accounts.AuthSystem.GetUserInfo | TaskManagerApplication/AccountWorking/AuthSystem.cs:262-298 | a row iff the login is valid and present, with login, name and surname intact and the hash and salt both "***"; otherwise (null, format error) or (null, "Пользователь не найден") |
| Accounts.AuthSystem.UpdatePassword | TaskManagerApplication/AccountWorking/AuthSystem.cs:300-339 | success iff the login is valid, the new password is valid, the row exists, a salt was drawn and the UPDATE ran. On failure the table is unchanged, with the message of the first failing step. On success only that row's hash and salt change, to the new salt and the digest of new password + salt, with name and surname kept; the new password then logs in, and any other password that logs in collides with it under the digest |
| Accounts.AuthSystem.DeleteUser | TaskManagerApplication/AccountWorking/AuthSystem.cs:341-386 | success iff the login is valid, present and the DELETE ran. On failure the table is unchanged: format error, "Пользователь не существует", the related-data message for error 1451, or the database prefix. On success exactly that key is removed and IsUserExists then answers (false, "Пользователь не существует") |
| Scenarios.RegisterThenLogin | TaskManagerApplication/AccountWorking.Tests/AccountWorkingTest.cs:99-113 | registering "test_user" succeeds, and logging in with the same password then succeeds |
| Scenarios.RegisterThenWrongPassword | TaskManagerApplication/AccountWorking.Tests/AccountWorkingTest.cs:115-129 | after registering "test_user_wrong_pass", a different password whose salted digest differs from the stored one gets "Неверный пароль" |
| Scenarios.RegisterTwice | TaskManagerApplication/AccountWorking.Tests/AccountWorkingTest.cs:62-75 | a second registration under the same login is refused with "already exists", whatever the storage answer |
| Scenarios.LoginAbsentUser | TaskManagerApplication/AccountWorking.Tests/AccountWorkingTest.cs:131-140 | logging in as "nonexistent_user_123" gets "Пользователь не найден" |
| Scenarios.UpdateAbsentUser | TaskManagerApplication/AccountWorking.Tests/AccountWorkingTest.cs:162-171 | a valid new password for "nonexistent_user_456" gets "Пользователь не существует", whatever the salt draw and the storage answer |
| Scenarios.DeleteAbsentUser | TaskManagerApplication/AccountWorking.Tests/AccountWorkingTest.cs:316-325 | deleting "nonexistent_user_999" gets "Пользователь не существует", whatever the storage answer |
| Scenarios.InfoAbsentUser | TaskManagerApplication/AccountWorking.Tests/AccountWorkingTest.cs:327-336 | the profile of "nonexistent_user_info" is null, with "Пользователь не найден" |
| Scenarios.UpdateThenLogin | TaskManagerApplication/AccountWorking.Tests/AccountWorkingTest.cs:142-160 | after registering "test_user_update", a valid new password is stored and then logs in |
| Scenarios.UpdateWeakPassword | TaskManagerApplication/AccountWorking.Tests/AccountWorkingTest.cs:301-314 | after registering "test_user_weak", the new password "weak" is refused with the security-requirements message, whatever the salt draw and the storage answer |
| Scenarios.DeleteThenExists | TaskManagerApplication/AccountWorking.Tests/AccountWorkingTest.cs:173-189 | a registered user exists, is deleted, and then does not exist |
| Scenarios.RegisterThenGetUserInfo | TaskManagerApplication/AccountWorking.Tests/AccountWorkingTest.cs:216-235 | the profile of a registered user has its login and names and "***" for the hash and the salt |

## Left out

- Validation.ValidatePassword: its ensures gives 4 as the lower bound on the number of characters. The tight bound is 6, because the four class witnesses are one code unit each; it is not proved.
- **Storage plumbing.** Connections, commands, data adapters and data tables are not modelled. The table is a map keyed by login, so SQL text and parameter binding are outside the model.
- **Login matching.** Matching is exact string equality. The case-insensitive comparison of a typical MySQL collation is not modelled.
- **Failed reads.** A SELECT that fails is not modelled. Login's "Ошибка базы данных: …" reply and IsUserExists's "Ошибка проверки: …" reply are the results of such reads. With a failed probe, Register would carry on to its INSERT as if the login were free, while UpdatePassword and DeleteUser would stop with "Пользователь не существует" as if it were absent.
- **Row-count branches.** The branches where a statement affects a number of rows other than 1 are left out ("Ошибка при создании пользователя", "Не удалось обновить пароль", "Не удалось удалить пользователя"). In a sequential store they cannot be reached once the existence probe has answered, so they would need a concurrent writer.
- **Races.** Concurrency is not modelled: the race between the existence probe and the INSERT, and connection lifetime. Error 1062 on the INSERT is kept, as a storage answer.
- **Other exceptions.** Exceptions other than the storage answer and the salt failure are not modelled. The generic "Ошибка системы", "Ошибка хеширования пароля", "Ошибка удаления" and "Ошибка получения данных" replies come from failures inside library code. Their text is `ex.Message`, which the model takes only where the parameters supply it.
- **Null strings.** Dafny strings cannot be null. The empty string stands for the cases `IsNullOrEmpty` and `IsNullOrWhiteSpace` share.
- **Real cryptography.** Real SHA-256, Base64 and `RandomNumberGenerator` are not modelled. The digest is any 44-character-valued function, and the salt is a parameter that must be non-empty when drawn. Whether two draws differ is only probabilistic, so nothing about salt uniqueness is claimed.
- **UTF-8 encoding.** The UTF-8 encoding inside the hash is not modelled. Strings here are sequences of Unicode scalar values, so lone surrogates, which the encoder would replace, do not arise.
- **Extra columns.** GetUserInfo returns every column of the row. The model's row has only the five columns the service writes.
- **Console harness.** The console harness in TaskManagerApplication/TestCases/Program.cs expects "Weak1" to score (2, "Слабый пароль"). The code gives 3, as the unit tests expect, and the model follows the code (Strength.StrengthOfWeak1).
- Scenarios.RegisterThenWrongPassword: assumes that the digests of the two salted passwords differ, as the unit test does. Without that assumption the model proves only the general statement of Accounts.AuthSystem.LoginWithStoredPassword: another password that logs in collides with the stored one.
- **Collision resistance.** The model does not claim that another password is always refused. A 44-character digest of unboundedly long inputs has collisions, so every such statement names the collision instead (Secrets.OtherPasswordIsCollision).
- Accounts.AuthSystem.Register: checks the login, name and surname with the corrected checks (anchor at the very end). The source's `$` checks also accept a login, name or surname ending in '\n', such as "ab\n", and would go on to the INSERT; the model answers with the format rule (see "## Findings").
- Accounts.AuthSystem.Login: checks the login with the corrected check. A login ending in '\n' gets "Неверный формат логина" in the model; the source would look it up.
- Accounts.AuthSystem.IsUserExists: checks the login with the corrected check, so a login ending in '\n' gets the format error instead of a lookup.
- Accounts.AuthSystem.GetUserInfo: checks the login with the corrected check, so a login ending in '\n' gets the format error instead of a lookup.
- Accounts.AuthSystem.UpdatePassword: checks the login with the corrected check, so a login ending in '\n' gets the format error instead of a lookup.
- Accounts.AuthSystem.DeleteUser: checks the login with the corrected check, so a login ending in '\n' gets the format error instead of a lookup.
- The user interface forms are not part of this model.

## Findings

| source | as written | input that shows it | evidently intended | confidence | as-written member | corrected member |
|---|---|---|---|---|---|---|
| TaskManagerApplication/AccountWorking/AuthSystem.cs:87 | `^[a-zA-Z0-9_]+$` without RegexOptions.Multiline: `$` also matches before a final '\n', and the length check counts the newline | "ab\n" is accepted as a login | only letters, digits and underscores, at least 3 of them (anchor `\z`) | not executed | Validation.LoginTrailingNewlineAccepted | Validation.ValidateLoginExactly |
| TaskManagerApplication/AccountWorking/AuthSystem.cs:114 | `^[a-zA-Zа-яА-Я\-]+$`, with the same `$` behaviour | "Иван\n" is accepted as a name | only letters and hyphens (anchor `\z`) | not executed | Validation.NameTrailingNewlineAccepted | Validation.ValidateNameExactly |
