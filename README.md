# user-creation-nisum — a verified model of the registration core

This project models in Dafny the core of a Spring REST service. The service registers users with phones,
looks them up by id or email, stamps their last login and logs them in. The model covers five parts:

- **`Service.UserService`** (`service.dfy`): the registration and login engine.
  - The user repository is a class field `users: map<Uuid, User>` holding the stored entity objects.
  - The password encoder (`encode`, `matches`) and the token generator (`generateToken`) are function-valued
    constants given to the constructor.
  - The clock is a `now` argument of every operation that reads it.
  - A ghost field `calls` logs the collaborator calls the service makes: a request mapped to an entity, a
    password encoded or checked, a token issued, a row saved. The contracts use it to say how often each one happens, as the service's
    unit tests do.
  - `Valid()` is the store invariant. Every stored user carries its key as id, has its NOT NULL columns set
    and owns its phones, and no two stored users share an email. Every operation preserves it.
- **`Entity`** (`entity.dfy`): the `User` entity as a class whose fields the lifecycle hooks assign, and
  `Phone` as a value with an owner reference.
- **`Mapper`** (`mapper.dfy`): the request and response documents, the mapping of phones element by element,
  `toEntity`, `toResponse` and the two null-safe date conversions. `Time` (`time.dfy`) supplies the date-time
  values.
- **`Exceptions`** (`exceptions.dfy`): the global exception handler as one function from error kind to HTTP
  status and message, with the field-error message built by a recursive join.
- **`Security`** (`security.dfy`): the permit-all allow-list of the filter chain. Paths are segment lists;
  `*` matches one segment and a trailing `**` matches any suffix. First match wins, and anything else needs
  authentication.

`Ids` (`ids.dfy`) models UUIDs as 128-bit numbers with their canonical text, which appears in the
not-found message. `Scenarios` (`scenarios.dfy`) chains operations the way a client does.

A failed operation returns `Failure(e)` with `e` the exception kind it throws. `Exceptions.Handle(e)` is the
response the client receives.

Notes on the source:
- `login` is declared in `UserService.java:13`, but `UserServiceImpl` has no body for it.
  - It is modelled from its unit tests in `UserServiceTest.java:311-375`.
  - Those tests expect a token for the user's id and email and one save; the model stores that token on the
    user before the save. They do not expect `lastLogin` to be stamped, so the model does not stamp it.
  - That save runs the update hook in the model, which moves `modified` (see `Service.UserService.Update` under "## Left out").
- `toEntity` (UserMapper.java:20-27) ignores six properties but not `password`, so the request's password is
  copied. Registration then overwrites it with the encoded password (UserServiceImpl.java:49).
- A save of a user that is already stored, inside one transaction, runs the `@PreUpdate` hook at commit if a
  column changed. That is after the operation has built its answer.
  - The model runs the hook in the save, but builds the answer before it.
  - So answers from `updateLastLogin` and `login` show the `modified` the user had before the call.

## Model

| member | source | states |
|---|---|---|
| Service.UserService.RegisterUser | src/main/java/com/user/nisum/service/impl/UserServiceImpl.java:43-64 | an existing email fails with the business-rule error "El correo ya registrado", with store and call log unchanged (nothing mapped, encoded or saved); otherwise the result is a success exactly when the id space is not exhausted; on success the store gains exactly one new object under a previously unused id, the email is then taken, the stored user's state is `RegisteredFrom` the request (encoded password, token of the saved id and email, three timestamps `now`, active, request phones owned by it), the answer is `toResponse` of it with the request's phones, and the call log grew by exactly map once, encode once, save, token, save |
| Service.UserService.RegisterNew | src/main/java/com/user/nisum/service/impl/UserServiceImpl.java:48-63 | for a free email: Internal failure with only the mapping and the encode logged when no id is left, success otherwise; new id not in the old store, store updated only there with a fresh object, registered state, response and the five-call log |
| Service.UserService.SaveRegistration | src/main/java/com/user/nisum/service/impl/UserServiceImpl.java:48-55 | the first save: a fresh user under an unused id, the store grown by one, its state the registered state without token, and calls map, encode, then save |
| Service.UserService.FinishRegistration | src/main/java/com/user/nisum/service/impl/UserServiceImpl.java:58-63 | the token step on the saved user: the store unchanged as a map, the user `RegisteredFrom` the request, the response is `toResponse` of the user (its `modified` is already the creation time) with the request's phones, the log grew by token issued then saved with that token |
| Service.UserService.BuildUser | src/main/java/com/user/nisum/service/impl/UserServiceImpl.java:48-53 | a fresh user with no id, token, timestamps or active flag, the request's name and email, `encode(password)` as password, the request phones mapped and owned by it; the mapping and the encode logged exactly once each |
| Service.AttachOwner | src/main/java/com/user/nisum/service/impl/UserServiceImpl.java:51-53 | the loop over the phones equals `WithOwner`: same length and order, each phone unchanged but for its owner |
| Service.WithOwner | src/main/java/com/user/nisum/service/impl/UserServiceImpl.java:52 | same length as the input and, at each position, the input phone with the given owner |
| Service.OwnedPhonesRoundTrip | src/main/java/com/user/nisum/service/impl/UserServiceImpl.java:51-53 | the request phones, mapped, owned and mapped back to documents, are the request phones |
| Service.UserService.IssueToken | src/main/java/com/user/nisum/service/impl/UserServiceImpl.java:58-62 | the stored user gets token `generateToken(id, email)` and a new `modified`, all else unchanged; store unchanged; log grew by token issued then saved; the answer is `toResponse` of the user with the `modified` it had before the save |
| Service.UserService.Save | src/main/java/com/user/nisum/service/impl/UserServiceImpl.java:55-62 | a stored user is updated in place (only `modified` moves); a new user fails with an Internal error, everything unchanged, when its email is taken or no id is left, and is otherwise stored under an unused id with the creation hook applied; one save logged on success |
| Service.UserService.Insert | src/main/java/com/user/nisum/entity/User.java:22-31 | insert path of save: the unique email column and id exhaustion reject with nothing changed; otherwise a fresh id, the store extended by exactly that entry, id and creation stamps set, all else unchanged |
| Service.UserService.Persist | src/main/java/com/user/nisum/entity/User.java:55-61 | the insert under a given unused id keeps the store invariant, including email uniqueness |
| Service.UserService.Update | src/main/java/com/user/nisum/entity/User.java:63-66 | update path of save: store unchanged, the user's `modified` is `now` and nothing else of it changes |
| Service.UserService.constructor | src/main/java/com/user/nisum/service/impl/UserServiceImpl.java:30-39 | an empty valid store, an empty call log, the given collaborators |
| Service.UserService.FindByEmail | src/main/java/com/user/nisum/service/impl/UserServiceImpl.java:77 | nothing exactly when the email is not taken; otherwise the stored user, under its own id, with that email |
| Service.UserService.GetUserById | src/main/java/com/user/nisum/service/impl/UserServiceImpl.java:66-72 | a stored id answers `toResponse` of that user (whose id is the asked id); an unknown id fails with not-found "Usuario no encontrado con ID: " and the id's text; nothing is modified |
| Service.NotFoundById | src/main/java/com/user/nisum/service/impl/UserServiceImpl.java:70 | "Usuario no encontrado con ID: " followed by 36 characters from which the id parses back |
| Service.NotFoundByIdNamesId | src/main/java/com/user/nisum/service/impl/UserServiceImpl.java:70 | distinct ids give distinct not-found messages |
| Service.NotFoundByEmail | src/main/java/com/user/nisum/service/impl/UserServiceImpl.java:78 | "Usuario no encontrado con email: " followed by the email and nothing else |
| Service.NotFoundByEmailNamesEmail | src/main/java/com/user/nisum/service/impl/UserServiceImpl.java:78 | distinct emails give distinct not-found messages |
| Service.UserService.EmailTaken | src/main/java/com/user/nisum/service/impl/UserServiceImpl.java:44 | `existsByEmail`: false means no stored user has the email; true, under the store invariant, means exactly one stored user has it |
| Service.UserService.Valid | src/main/java/com/user/nisum/entity/User.java:22-53 | the store invariant (key as id, NOT NULL columns set, phones owned, unique emails); it implies that distinct keys hold distinct entity objects |
| Service.UserService.GetUserByEmail | src/main/java/com/user/nisum/service/impl/UserServiceImpl.java:74-80 | success exactly when the email is taken, and then it is `toResponse` of the user holding it; otherwise not-found "Usuario no encontrado con email: " and the email; nothing is modified |
| Service.UserService.UpdateLastLogin | src/main/java/com/user/nisum/service/impl/UserServiceImpl.java:82-92 | an unknown id fails with not-found and nothing changes; a stored user gets `lastLogin` and `modified` set to `now`, token, email, password and phones unchanged, one save logged; the answer is `toResponse` of it except that its `modified` is the one from before the call, since the update hook runs at commit; the store map is unchanged |
| Service.UserService.Login | src/test/java/com/user/nisum/service/UserServiceTest.java:311-375 | every failure is the business-rule error "Credenciales inválidas"; an unknown email fails with an unchanged log (no password check, token or save); for the user with the email, a wrong password logs only the check and leaves the user unchanged; a right one logs check, token for (id, email), one save, sets that token and answers with the user as it was before the update hook |
| Service.UserService.Authenticate | src/test/java/com/user/nisum/service/UserServiceTest.java:311-375 | the same two password cases for one found user, the answer built before the update hook |
| Entity.User.OnCreate | src/main/java/com/user/nisum/entity/User.java:55-61 | created, modified and lastLogin become `now`, isActive becomes true whatever it was, all other fields unchanged |
| Entity.User.OnUpdate | src/main/java/com/user/nisum/entity/User.java:63-66 | only `modified` changes, to `now` |
| Entity.User.constructor | src/main/java/com/user/nisum/entity/User.java:17-20 | the given name, email, password and phones; id, token, timestamps and active flag unset |
| Mapper.ToEntity | src/main/java/com/user/nisum/mapper/UserMapper.java:20-27 | a fresh user: id, token, created, modified, lastLogin, isActive unset; name, email and password copied; phones mapped element by element |
| Mapper.ToResponse | src/main/java/com/user/nisum/mapper/UserMapper.java:29-30 | id, name, email, token and active flag copied, phones mapped back, and each timestamp converts back to the user's own |
| Mapper.ToPhoneEntity | src/main/java/com/user/nisum/mapper/UserMapper.java:32-34 | phone id and owner unset, the three strings copied |
| Mapper.ToPhoneDto | src/main/java/com/user/nisum/mapper/UserMapper.java:36 | mapping the document back gives the phone with id and owner cleared |
| Mapper.ToPhoneEntityList | src/main/java/com/user/nisum/mapper/UserMapper.java:38 | same length, and element i is `toPhoneEntity` of request element i |
| Mapper.ToPhoneDtoList | src/main/java/com/user/nisum/mapper/UserMapper.java:40 | same length, and element i is `toPhoneDTO` of phone i |
| Mapper.PhoneListRoundTrip | src/main/java/com/user/nisum/mapper/UserMapper.java:32-40 | documents mapped to phones and back are unchanged |
| Mapper.PhoneDtosIgnoreOwner | src/main/java/com/user/nisum/mapper/UserMapper.java:32-36 | phone lists that differ only in ids and owners map to the same documents |
| Mapper.LocalDateTimeToOffsetDateTime | src/main/java/com/user/nisum/mapper/UserMapper.java:43-48 | null exactly for null, otherwise the same date-time at offset UTC |
| Mapper.OffsetDateTimeToLocalDateTime | src/main/java/com/user/nisum/mapper/UserMapper.java:50-55 | null exactly for null, otherwise the date-time without its offset |
| Mapper.LocalDateTimeRoundTrip | src/main/java/com/user/nisum/mapper/UserMapper.java:43-55 | local to offset and back is the identity, null included |
| Mapper.OffsetDateTimeRoundTrip | src/main/java/com/user/nisum/mapper/UserMapper.java:43-55 | offset to local and back is the identity exactly on null and on values at UTC |
| Time.AtOffset | src/main/java/com/user/nisum/mapper/UserMapper.java:47 | the result is the same date-time, unshifted, carrying the given offset |
| Time.ToLocalDateTime | src/main/java/com/user/nisum/mapper/UserMapper.java:54 | putting the dropped offset back gives the original value |
| Exceptions.Handle | src/main/java/com/user/nisum/exception/GlobalExceptionHandler.java:15-49 | validation: 400 with the joined field errors; business rule: 409 with its message; not found: 404 with its message; anything else: 500 with "Error interno del servidor" |
| Exceptions.StatusIdentifiesKind | src/main/java/com/user/nisum/exception/GlobalExceptionHandler.java:15-49 | the status is one of 400, 404, 409, 500 and each status occurs for exactly one kind |
| Exceptions.InternalMessageHidden | src/main/java/com/user/nisum/exception/GlobalExceptionHandler.java:43-49 | two unexpected exceptions give identical responses whatever their texts |
| Exceptions.RenderFieldError | src/main/java/com/user/nisum/exception/GlobalExceptionHandler.java:18 | the field, then ": ", then the default message, and nothing else |
| Exceptions.RenderFieldErrors | src/main/java/com/user/nisum/exception/GlobalExceptionHandler.java:17-18 | same length and order, element i rendered from field error i |
| Exceptions.ValidationMessage | src/main/java/com/user/nisum/exception/GlobalExceptionHandler.java:17-19 | no errors give the empty message, one error gives exactly its rendering, and more errors give a message that starts with the first error's rendering and ", "; `ValidationMessageSnoc` gives the order of the rest |
| Exceptions.ValidationMessageSnoc | src/main/java/com/user/nisum/exception/GlobalExceptionHandler.java:17-19 | one more error appends ", " and its rendering, so the message lists the errors in order |
| Exceptions.Join | src/main/java/com/user/nisum/exception/GlobalExceptionHandler.java:19 | no parts give the empty text and one part gives itself; more parts give a text that starts with the first part followed by the separator; `JoinAppend` gives the rest |
| Exceptions.JoinAppend | src/main/java/com/user/nisum/exception/GlobalExceptionHandler.java:19 | joining a concatenation is joining the parts with one separator between |
| Security.DecideFirstMatch | src/main/java/com/user/nisum/config/SecurityConfig.java:33-39 | the first matching rule decides the access |
| Security.Decide | src/main/java/com/user/nisum/config/SecurityConfig.java:33-39 | a path no rule matches needs authentication (`anyRequest().authenticated()`), and any other answer is the access of a rule that matches the path; `DecideFirstMatch` says which rule |
| Security.DecideAllPermit | src/main/java/com/user/nisum/config/SecurityConfig.java:34-39 | with only permit-all rules, a path is permitted exactly when some rule matches |
| Security.Authorize | src/main/java/com/user/nisum/config/SecurityConfig.java:33-39 | every path is classified: public exactly when one of the eight listed patterns matches it, protected exactly when none does |
| Security.RulesListPublicPatterns | src/main/java/com/user/nisum/config/SecurityConfig.java:34-38 | some permit-all line matches a path exactly when one of the eight listed patterns does |
| Security.Matches | src/main/java/com/user/nisum/config/SecurityConfig.java:34-38 | a matching path has the pattern's length (at least that length under a trailing `**`) and equals each literal segment; `LiteralPatternMatches` gives the converse for patterns without `*` |
| Security.LiteralPatternMatches | src/main/java/com/user/nisum/config/SecurityConfig.java:34-38 | a pattern without `*` matches exactly the paths that start with its texts: with nothing after them, or with anything after them under a trailing `**` |
| Security.RegistrationIsPublic | src/main/java/com/user/nisum/config/SecurityConfig.java:34 | `/api/usuarios/registro` is public |
| Security.EmailLookupIsPublic | src/main/java/com/user/nisum/config/SecurityConfig.java:35 | `/api/usuarios/email` followed by any segments is public |
| Security.LoginPathsArePublic | src/main/java/com/user/nisum/config/SecurityConfig.java:36-37 | `/api/usuarios/{any one segment}/login` and `/api/usuarios/login` are public |
| Security.LastLoginPatternOneSegment | src/main/java/com/user/nisum/config/SecurityConfig.java:36 | the `*/login` pattern matches exactly the four-segment paths api, usuarios, one segment, login |
| Security.DocumentationIsPublic | src/main/java/com/user/nisum/config/SecurityConfig.java:38 | everything under swagger-ui, api-docs and h2-console, and swagger-ui.html, is public |
| Security.VerifyTokenIsProtected | src/main/java/com/user/nisum/controller/UserController.java:71 | `/api/usuarios/verificar-token` matches no listed pattern and needs authentication |
| Ids.UuidText | src/main/java/com/user/nisum/service/impl/UserServiceImpl.java:70 | 36 characters with dashes at positions 8, 13, 18 and 23 |
| Ids.ParseUuidText | src/main/java/com/user/nisum/service/impl/UserServiceImpl.java:70 | parsing the canonical text gives the UUID back |
| Ids.UuidTextInjective | src/main/java/com/user/nisum/service/impl/UserServiceImpl.java:70 | distinct UUIDs have distinct texts |
| Ids.FreshIdExists | src/main/java/com/user/nisum/entity/User.java:22-26 | while fewer than 2^128 ids are used, an unused one exists |
| Ids.FreeIdBelow | src/main/java/com/user/nisum/entity/User.java:22-26 | pigeonhole: fewer than n used ids leave one below n free |
| Scenarios.RegisterThenFetch | src/main/java/com/user/nisum/service/impl/UserServiceImpl.java:43-80 | after a successful registration, lookup by the new id and by the email both answer exactly the registration's response, `modified` included because the commit-time stamp is the same `now` (see "## Left out") |
| Scenarios.RegisterTwice | src/test/java/com/user/nisum/controller/UserControllerIntegrationTest.java:98-121 | registering an email a second time answers 409 "El correo ya registrado"; the store holds one user more than before the first attempt, not two; the call log holds exactly the first attempt's mapping, encode, save, token and save |
| Scenarios.RegisterThenLogin | src/test/java/com/user/nisum/service/UserServiceTest.java:311-335 | with an encoder whose `matches` accepts the encoding of the password, logging in with the registered password succeeds with the new id and a token for that id and email |

## Left out

- Password hashing: `encode` and `matches` are uninterpreted parameters. BCrypt salting and its matching are not modelled. `Scenarios.RegisterThenLogin` states what it needs of them as a precondition.
- Token signing: `generateToken` is an uninterpreted parameter. Extracting and validating tokens are not modelled, and nothing claims they invert generation, because the `JwtService` interface (JwtService.java:5-10) promises nothing about it.
- Transactions and rollback: each operation runs to completion on the in-memory store, and a failure raised after the first save does not undo it.
  - The only such failure in the model is the second save, which cannot fail for a stored user.
- The update hook: Hibernate runs it at flush or commit, and the model runs it inside `save`. The answers are built before it, as in the program. The timestamp written at commit is the operation's `now`, not a later clock reading.
- Time: the three `LocalDateTime.now()` readings of the creation hook, and the readings of separate calls, are one `now` argument per operation. The model does not say how far apart they are.
- Ids: Hibernate's UUID generator becomes a nondeterministic choice of an unused id.
  - The 2^128-user exhaustion case surfaces as an Internal failure, a shape the real service never exhibits.
  - Phone ids (database identities) and cascading phone rows are not modelled: phones live inside their user.
- Persistence of separate object graphs: the store maps ids to the entity objects themselves. Detached copies, lazy loading and the phone repository's derived query are not modelled.
- The race between the email check and the insert. Concurrency is not modelled; the unique email column is modelled as the Internal failure of the insert.
- Bean-validation rules behind the 400 responses: their patterns live in files that are not part of this model. Validation errors enter only as `ArgumentNotValid` with a list of field errors.
- Spring's request-matcher semantics: paths are pre-split into segments, and only literal, `*` and trailing `**` segments are modelled. Trailing slashes, empty segments, encoded characters and HTTP methods are not modelled: `*` here also matches an empty segment, so `/api/usuarios//login` counts as public, which Spring's patterns and its default firewall would not allow.
- The controller and HTTP plumbing: the `verificarToken` map, the login response wrapper, CSRF, session and frame options.
- `toResponse` with a null phone list: MapStruct's null handling of collections is not modelled, and lists are never null here.
- Mapper.ToResponse: states each timestamp through the inverse conversion, not by its offset form.
- Mapper.ToResponse: copies the entity's `isActive` into the response's `isactive` and assumes the mapper pairs them. The mapping declares only `phones` (UserMapper.java:29-30), so the pairing rests on matching the two names. The generated mapper and the response document are not part of this model. Under exact-name matching the flag would stay null.
- Service.UserService.Login: does not stamp `lastLogin`, following the unit tests; a body that did would be a different contract. Its answer is built before the update hook, as `updateLastLogin` does it; the tests do not check `modified`.
- Service.UserService.Update: runs the update hook on every save of a stored user, while Hibernate runs it only when its dirty check finds a changed column. So where a save changes nothing, the model still moves `modified`: a login writes back the same token (`generateToken` is a function of id and email), and `updateLastLogin` may write back the same `lastLogin`; in the program `modified` would stay. `Save`, `IssueToken`, `Authenticate`, `Login` and `UpdateLastLogin` inherit this.
- Scenarios.RegisterThenFetch: the equality includes `modified` only because the model stamps the update hook of the second save with the registration's `now`. In the program that hook runs at commit, with a later clock reading than the one in the registration's answer, so a later lookup may show a later `modified`.
- Service.UserService.RegisterUser: "nothing mapped" rests on the `Mapped` entry that `BuildUser` logs beside its call of `toEntity`. The mapper function keeps no log of its own.
