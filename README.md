# sudoku_backend identity core in Dafny

This project models the in-memory identity and session layer of the `sudoku_backend` service (`src/user/`). It covers:

- user registration with field validation;
- login, which opens a 24-hour session;
- `is_logged_in` and logout;
- looking up the user behind a session;
- changing a password from a live session;
- the reset flow: request a reset token by email, then redeem it once within 30 minutes.

Module by module:

- `UserRepo`, `SessionRepo` and `TokenRepo` model the three stores (`UserRepository`, `SessionRepository`, `ResetTokenRepository`). Each is a class over a `seq` field, because the source mutates a `Vec` in place. Lookups are functions that read the store. `push` and `retain` are methods that reassign the field and state the new contents exactly.
- `Seqs` holds the two vector primitives the stores use: front-to-back `iter().find` (`Seqs.Find`) and order-preserving `retain` (`Seqs.Filter`). Their lemmas are proved by induction.
- `Validation` models `str::trim` over the Unicode White_Space characters, and `str::len` as UTF-8 byte length.
- `Sessions` and `ResetTokens` hold the two expiring records.
- `Errors` holds `AuthError` and its display texts.
- `Services` holds the service functions. Each one states, for every error, the exact condition under which it is returned, in the order the checks run. On every error the stores are unchanged. On success the new store contents are given exactly.
- `Scenarios` proves properties that span several calls:
  - a reset token is single-use;
  - logging out twice is the same as logging out once;
  - a user who has just registered can log in;
  - a full register / login / logout / reset walk-through.

The environment of the service is made explicit:

- `Utc::now()` is an `Instant` parameter, an integer count of seconds.
- `Uuid::new_v4()` is a caller-supplied `Uuid`. Where freshness matters, it appears as a hypothesis ("no session with this id yet").
- Argon2 hashing and verification (`auth.rs`) are a `Hasher` value with two functions, each of which may fail.

The facts the walk-through needs about the hasher are three named predicates in `Auth`: it never fails, it verifies its own hashes, and it rejects other passwords. They are stated as preconditions of the scenarios, never of the operations.

The checks are exactly the ones the code makes:

- Usernames and emails are only checked as the code checks them:
  - a username needs at least 3 bytes after trimming, with no upper bound and no character classes;
  - an email needs an `@` and a `.` anywhere;
  - a password needs at least 8 bytes, with no character classes.
- Login sessions last 24 hours. `Session::new`'s one-hour window exists but is not used by login.
- There is no session refresh or sliding expiry, because the code has none.
- Uniqueness of usernames and emails is enforced by `register_user`, not by the store. `Services.RegisterUser` proves that it is preserved.

## Model

| member | source | states |
|---|---|---|
| Seqs.FindIndex | src/user/repository.rs:15-17 | the index found holds a match and no earlier position does; no index means no element matches |
| Seqs.Find | src/user/session_repository.rs:16-18 | `iter().find`: None exactly when no element satisfies the predicate; a found value is in the vector, satisfies it, and is the first that does |
| Seqs.Filter | src/user/session_repository.rs:25-27 | `retain`: an element is kept exactly when it satisfies the predicate, and the vector never grows |
| Seqs.FindAppend | src/user/repository.rs:11-17 | pushing an element does not change an existing match; without one, the pushed element is found if it matches |
| Seqs.FilterConcat | src/user/session_repository.rs:25-27 | `retain` keeps order: filtering a concatenation is concatenating the filtered parts |
| Seqs.FilterKeepsAll | src/user/reset_token_repository.rs:21-23 | `retain` with a predicate every element satisfies leaves the vector unchanged |
| Seqs.FilterIdempotent | src/user/reset_token_repository.rs:25-27 | running the same `retain` twice is the same as once |
| Seqs.FilterShrinks | src/user/session_repository.rs:29-31 | the vector gets shorter exactly when some element fails the predicate |
| Errors.Message | src/user/error.rs:26-43 | every error has a non-empty display text, the one given for its variant |
| Errors.MessageInjective | src/user/error.rs:28-41 | distinct errors are displayed differently |
| Errors.ConfusableMessagesDiffer | src/user/error.rs:29-39 | unknown vs expired token, and bad-format vs wrong password, are told apart |
| Validation.IsWhitespace | src/user/validation.rs:2 | the characters `trim` strips: exactly the 25 code points with the Unicode White_Space property that `char::is_whitespace` tests |
| Validation.ByteLen | src/user/validation.rs:8 | `len()`: the UTF-8 byte length, never below the character count and never above four times it |
| Validation.Utf8Width | src/user/validation.rs:8 | a character takes 1 to 4 bytes, and 1 exactly when it is ASCII |
| Validation.ByteLenBounds | src/user/validation.rs:30 | `len()` in bytes equals the character count exactly for ASCII text |
| Validation.SkipLeading | src/user/validation.rs:2 | the start of the trimmed text: everything before it is whitespace and it is not |
| Validation.SkipTrailing | src/user/validation.rs:16 | the end of the trimmed text: everything after it is whitespace and the last kept character is not |
| Validation.Trim | src/user/validation.rs:2 | `trim` returns a slice whose margins are whitespace and whose ends are not |
| Validation.TrimEmpty | src/user/validation.rs:2-6 | trimming gives the empty string exactly when the input is empty or all whitespace |
| Validation.TrimKeeps | src/user/validation.rs:16-22 | a non-whitespace character occurs in the trimmed text exactly when it occurs in the input |
| Validation.TrimBetween | src/user/validation.rs:16 | a slice between whitespace margins with non-whitespace ends is exactly what `trim` returns |
| Validation.TrimPadded | src/user/validation.rs:2 | trimming removes padding of any amount: `trim(ws + t + ws) == t` |
| Validation.ValidateUsername | src/user/validation.rs:1-13 | passes iff the trimmed name has at least 3 bytes; fails with "cannot be empty" iff the input is all whitespace; otherwise "at least 3 characters" |
| Validation.ValidateEmail | src/user/validation.rs:15-27 | passes iff the input contains both `@` and `.`; fails with "cannot be empty" iff it is all whitespace; otherwise "Invalid email format" |
| Validation.ValidatePassword | src/user/validation.rs:29-35 | passes iff the untrimmed password has at least 8 bytes; otherwise fails with the length message |
| Validation.UsernameNoUpperBound | src/user/validation.rs:1-13 | any name of 3 or more characters with non-whitespace ends passes, however long, whatever padding surrounds it |
| Validation.PasswordLength | src/user/validation.rs:29-35 | 8 characters always suffice; for ASCII passwords they are also necessary |
| Validation.EmailShapeUnchecked | src/user/validation.rs:22-26 | positions are not checked: `.@` passes, while `user@example` (no dot) fails |
| Validation.LengthCountsBytes | src/user/validation.rs:8-9 | lengths are in bytes: the two-letter `ää` is an acceptable username and the four-letter `ääää` an acceptable password |
| Sessions.NewSession | src/user/session.rs:14-24 | a new session carries the given ids and creation instant, expires 3600 s later, and is valid at creation |
| Sessions.IsValid | src/user/session.rs:26-28 | valid exactly when the instant is strictly before the expiry |
| Sessions.NewSessionWindow | src/user/session.rs:14-28 | from creation on, a new session is valid exactly during the following hour |
| Sessions.ExpiryIsPermanent | src/user/session.rs:26-28 | once a session is invalid it stays invalid at every later instant |
| ResetTokens.NewToken | src/user/reset_token.rs:13-23 | a new token carries the user and token ids and the creation instant, expires 1800 s later, and is valid at creation |
| ResetTokens.IsValid | src/user/reset_token.rs:25-27 | valid exactly when the instant is strictly before the expiry |
| ResetTokens.NewTokenWindow | src/user/reset_token.rs:13-27 | from creation on, a new token is valid exactly during the following 30 minutes |
| ResetTokens.ExpiryIsPermanent | src/user/reset_token.rs:25-27 | once a token is invalid it stays invalid at every later instant |
| UserRepo.AppendKeepsUnique | src/user/services.rs:23-42 | appending a user whose username (email, id) is new keeps usernames (emails, ids) unique |
| UserRepo.WithPassword | src/user/services.rs:137 | a password update changes only the hash, and only of the users with that id; the length, ids, names, emails and creation times stay |
| UserRepo.WithPasswordUnknownId | src/user/services.rs:178 | updating the hash of an id no user has changes nothing |
| UserRepo.WithPasswordKeepsUniqueness | src/user/services.rs:137 | a password update keeps usernames, emails and ids unique |
| UserRepo.UserRepository.constructor | src/user/repository.rs:7-9 | a new store is empty |
| UserRepo.UserRepository.AddUser | src/user/repository.rs:11-13 | the user is appended; if no user had its username, email or id, lookups by each now find it |
| UserRepo.UserRepository.FindByUsername | src/user/repository.rs:15-17 | None iff no user has the name; otherwise a stored user with it, the first such |
| UserRepo.UserRepository.FindByEmail | src/user/repository.rs:19-21 | None iff no user has the email; otherwise a stored user with it, the first such |
| UserRepo.UserRepository.FindById | src/user/services.rs:95 | None iff no user has the id; otherwise a stored user with it, the first such |
| UserRepo.UserRepository.UpdatePassword | src/user/services.rs:137 | the store becomes WithPassword of the old store |
| SessionRepo.Without | src/user/session_repository.rs:25-27 | a session stays after removal iff it was there and has a different id; the store never grows |
| SessionRepo.Unexpired | src/user/session_repository.rs:29-31 | a session survives the sweep iff it was there and is valid at the sweep instant |
| SessionRepo.WithoutAbsent | src/user/session_repository.rs:25-27 | removing an id no session has changes nothing |
| SessionRepo.WithoutIdempotent | src/user/session_repository.rs:25-27 | removing twice is removing once |
| SessionRepo.WithoutConcat | src/user/session_repository.rs:25-27 | removal keeps the other sessions in order |
| SessionRepo.UnexpiredAllValid | src/user/session_repository.rs:29-31 | a sweep when every session is valid changes nothing |
| SessionRepo.UnexpiredIdempotent | src/user/session_repository.rs:29-31 | a second sweep at the same instant is a no-op |
| SessionRepo.UnexpiredConcat | src/user/session_repository.rs:29-31 | the sweep keeps surviving sessions in order |
| SessionRepo.UnexpiredShrinks | src/user/session_repository.rs:29-31 | the sweep removes something iff some session has expired |
| SessionRepo.SessionRepository.constructor | src/user/session_repository.rs:8-10 | a new store is empty |
| SessionRepo.SessionRepository.AddSession | src/user/session_repository.rs:12-14 | the session is appended; a session with a new id is then found, and unique ids stay unique |
| SessionRepo.SessionRepository.FindBySessionId | src/user/session_repository.rs:16-18 | None iff no session has the id; otherwise a stored session with it, the first such |
| SessionRepo.SessionRepository.ValidateSession | src/user/session_repository.rs:20-24 | false for an unknown id; otherwise the validity of the first session with the id; with unique ids, true iff some session with the id is valid |
| SessionRepo.SessionRepository.RemoveSession | src/user/session_repository.rs:25-27 | the store becomes Without(old, id), no session has the id afterwards, and removing an absent id leaves the store unchanged |
| SessionRepo.SessionRepository.CleanExpiredSessions | src/user/session_repository.rs:29-31 | the store becomes Unexpired(old, now); every remaining session is valid; with nothing expired, it is unchanged |
| TokenRepo.Without | src/user/reset_token_repository.rs:21-23 | a token stays after removal iff it was there with a different token id |
| TokenRepo.Unexpired | src/user/reset_token_repository.rs:25-27 | a token survives the sweep iff it was there and is valid at the sweep instant |
| TokenRepo.WithoutAbsent | src/user/reset_token_repository.rs:21-23 | removing a token id no entry has changes nothing |
| TokenRepo.WithoutIdempotent | src/user/reset_token_repository.rs:21-23 | removing twice is removing once |
| TokenRepo.WithoutConcat | src/user/reset_token_repository.rs:21-23 | removal keeps the other tokens in order |
| TokenRepo.UnexpiredAllValid | src/user/reset_token_repository.rs:25-27 | a sweep when every token is valid changes nothing |
| TokenRepo.UnexpiredIdempotent | src/user/reset_token_repository.rs:25-27 | a second sweep at the same instant is a no-op |
| TokenRepo.UnexpiredConcat | src/user/reset_token_repository.rs:25-27 | the sweep keeps surviving tokens in order |
| TokenRepo.ResetTokenRepository.constructor | src/user/reset_token_repository.rs:9-11 | a new store is empty |
| TokenRepo.ResetTokenRepository.AddToken | src/user/reset_token_repository.rs:13-15 | the token is appended; a new token id is then found, and unique token ids stay unique |
| TokenRepo.ResetTokenRepository.FindToken | src/user/reset_token_repository.rs:17-19 | None iff no entry has the token id; otherwise a stored entry with it, the first such |
| TokenRepo.ResetTokenRepository.RemoveToken | src/user/reset_token_repository.rs:21-23 | the store becomes Without(old, token), the token is then unknown, and an absent token leaves the store unchanged |
| TokenRepo.ResetTokenRepository.CleanExpired | src/user/reset_token_repository.rs:25-27 | the store becomes Unexpired(old, now); every remaining token is valid; with nothing expired, it is unchanged |
| Services.RegisterUser | src/user/services.rs:17-45 | each of InvalidUsername, InvalidEmail, InvalidPassword, UsernameExists, EmailExists and PasswordHashingFailed is returned iff its check is the first to fail; on error the store is unchanged; on success exactly the new user (given id, fields, hash, `now`) is appended; unique usernames and emails stay unique, and unique ids stay unique when the new id is fresh |
| Services.LoginUser | src/user/services.rs:47-70 | UserNotFound iff no user has the name; InvalidPasswordLogin iff the hasher does not accept the password (a fault included); otherwise the new session id is returned and a 24-hour session for the first user with the name is appended; with a fresh id, that session is logged in and leads back to a user with that user's id |
| Services.IsLoggedIn | src/user/services.rs:72-74 | true iff the first session with the id exists and has not expired; with unique ids, iff some such session is valid |
| Services.LogoutUser | src/user/services.rs:76-78 | every session with the id is removed, so it is not logged in at any instant; an unknown id changes nothing |
| Services.GetUserFromSession | src/user/services.rs:80-96 | None when the session is missing or expired; otherwise the user lookup by the session's user id, which is a stored user when present |
| Services.ChangePassword | src/user/services.rs:98-140 | SessionExpired, UserNotFound, InvalidPasswordLogin, InvalidPassword and PasswordHashingFailed are each returned iff theirs is the first check to fail; on error the store is unchanged; on success the session owner's hash (every user with that id) is replaced by the new hash |
| Services.RequestPasswordReset | src/user/services.rs:142-153 | UserNotFound iff no user has the email, store unchanged; otherwise the token id is returned and a 30-minute token for the first user with the email is appended; a fresh token is then found, valid, for that user |
| Services.ResetPassword | src/user/services.rs:155-184 | TokenInvalid, TokenExpired, InvalidPassword and PasswordHashingFailed are each returned iff theirs is the first check to fail; on error both stores are unchanged; on success the token owner's hash is replaced and every entry with the token is removed, so the token is unknown afterwards |
| Scenarios.ResetTokenIsSingleUse | src/user/services.rs:180-181 | after a successful reset, a second reset with the same token fails with TokenInvalid |
| Scenarios.LogoutTwice | src/user/services.rs:76-78 | logging out twice leaves the same store as logging out once |
| Scenarios.NewcomerFound | src/user/repository.rs:11-17 | a user appended under a new username is what a lookup by that name finds |
| Scenarios.RegisterThenLogin | src/user/services.rs:17-70 | with a hasher that verifies its own hashes, a successful registration is followed by a successful login with the same password, which is then logged in |
| Scenarios.ExampleInputsValid | src/main.rs:16-18 | the demo driver's username, email and password pass all field checks, as does a sample new password |
| Scenarios.ExampleUsernameValid | src/main.rs:16 | the demo username passes the username check |
| Scenarios.ExampleEmailValid | src/main.rs:17 | the demo email passes the email check |
| Scenarios.HasherAssumptionsConsistent | src/user/auth.rs:1-21 | a hasher that appends a marker never fails, verifies its own hashes and rejects other passwords, so the three assumptions can hold together |
| Scenarios.RegisterFirst | src/user/services.rs:17-45 | registering valid fields into an empty store succeeds and stores exactly that user |
| Scenarios.LoginLogout | src/user/services.rs:47-78 | a wrong password is refused, the right one opens the given session, which is logged in until logout |
| Scenarios.RequestAndReset | src/user/services.rs:142-184 | requesting a reset by email and redeeming it replaces the user's hash and consumes the token |
| Scenarios.LoginAfterReset | src/user/services.rs:47-70 | after a reset the old password is refused, the new one accepted, and the spent token is unknown |
| Scenarios.Walkthrough | src/user/services.rs:17-184 | from empty stores: register, wrong and right login, logout, reset request and redemption, old and new login, and token reuse give the expected results |

## Left out

- Argon2 hashing and verification (`src/user/auth.rs`) are not modelled. They are the `Hasher` parameter. The properties of a correct hasher are named predicates, used only as hypotheses of the scenarios. A `Hasher` is a fixed function, so hashing the same password twice with one `Hasher` gives the same hash, whereas the source draws a fresh salt from `OsRng` on every call (`src/user/auth.rs:6`) and two hashes of one password differ; no property here depends on this.
- `src/main.rs` is a demo driver that prints results. It is not part of this model, apart from its sample inputs.
- The clock (`Utc::now()`) is an `Instant` parameter in whole seconds, not chrono's nanosecond `DateTime<Utc>`. Services.LoginUser reads it once, where the source reads it twice for creation and expiry. The two readings differ by at most the time between them. `Instant` is unbounded, so the panic that chrono's `DateTime + Duration` raises on overflow (`src/user/session.rs:16`, `src/user/reset_token.rs:15`, `src/user/services.rs:63`) is not modelled; no real clock reading comes near that limit.
- SessionRepo.SessionRepository.CleanExpiredSessions and TokenRepo.ResetTokenRepository.CleanExpired judge every entry at one `now`, while the source's `is_valid` reads `Utc::now()` anew for each element during `retain` (`src/user/session.rs:27`, `src/user/reset_token.rs:26`). An entry that expires during the sweep can therefore be kept when judged before that instant and dropped after it. "Every survivor is valid" and "a second sweep is a no-op" hold for the single instant the model passes in, not across the source's successive readings.
- `Utc::now()` is a wall clock that can step backwards. Sessions.ExpiryIsPermanent and ResetTokens.ExpiryIsPermanent are about later instants, not about later calls.
- Random identifiers (`Uuid::new_v4()`) are caller-supplied. Their uniqueness is not assumed globally. It appears as a freshness hypothesis where a property needs it.
- `find_by_id` and `update_password` are called in `src/user/services.rs` but are not defined in `src/user/repository.rs`. UserRepo.UserRepository.FindById follows the other lookups (first match). UserRepo.UserRepository.UpdatePassword sets the hash of every user with the id.
- Rust borrows (`Option<&User>`) are modelled as copies of the stored value. The stores are not changed while such a borrow is live, so nothing observable is lost.
- `fmt::Formatter` plumbing and the `Debug`/`Clone` derives are not modelled; only the display text is.
- Nothing in `src/user/` refreshes or extends a session, so no refresh operation is modelled.
