/**
 * The registration and login engine over a store of users keyed by id. The password
 * encoder, the token generator and the clock are parameters of the model.
 */
module Service {
  import opened Wrappers
  import opened Ids
  import opened Time
  import opened Entity
  import opened Mapper
  import opened Exceptions

  const DUPLICATE_EMAIL: string := "El correo ya registrado"
  const INVALID_CREDENTIALS: string := "Credenciales inv\U{E1}lidas"
  // The two storage failures are the model's own texts: the program's come from the database driver
  // and Hibernate, and the client never sees them (the handler answers every such error alike).
  const EMAIL_NOT_UNIQUE: string := "unique constraint violated: users.email"
  const NO_FREE_ID: string := "no unused user id left"

  const NOT_FOUND_BY_ID: string := "Usuario no encontrado con ID: "

  /** The not-found message for an id: the fixed prefix, then a text from which the id parses back. */
  function NotFoundById(id: Uuid): (m: string)
    ensures |m| == |NOT_FOUND_BY_ID| + 36 && m[..|NOT_FOUND_BY_ID|] == NOT_FOUND_BY_ID
    ensures ParseUuid(m[|NOT_FOUND_BY_ID|..]) == id as int
  {
    ParseUuidText(id);
    var m := NOT_FOUND_BY_ID + UuidText(id);
    assert m[|NOT_FOUND_BY_ID|..] == UuidText(id);
    m
  }

  /** The not-found message names the id, so distinct ids give distinct messages. */
  lemma NotFoundByIdNamesId(a: Uuid, b: Uuid)
    ensures NotFoundById(a) == NotFoundById(b) ==> a == b
  {
  }

  const NOT_FOUND_BY_EMAIL: string := "Usuario no encontrado con email: "

  /** The not-found message for an email: the fixed prefix, then the email and nothing else. */
  function NotFoundByEmail(email: string): (m: string)
    ensures |m| == |NOT_FOUND_BY_EMAIL| + |email|
    ensures m[..|NOT_FOUND_BY_EMAIL|] == NOT_FOUND_BY_EMAIL && m[|NOT_FOUND_BY_EMAIL|..] == email
  {
    NOT_FOUND_BY_EMAIL + email
  }

  /** The not-found message names the email, so distinct emails give distinct messages. */
  lemma NotFoundByEmailNamesEmail(a: string, b: string)
    ensures NotFoundByEmail(a) == NotFoundByEmail(b) ==> a == b
  {
  }

  /**
   * A collaborator call whose use the operations pin down: a request mapped to an entity,
   * a password encoded or checked, a token issued, a row written.
   */
  datatype Call =
    | Mapped(request: RegistrationRequest)
    | Encoded(rawPassword: string)
    | PasswordChecked(rawPassword: string, encodedPassword: string)
    | TokenIssued(id: Uuid, email: string)
    | Saved(id: Uuid, token: Option<string>)

  /** The phones with `owner` as owner of each, all else as it was. */
  function WithOwner(phones: seq<Phone>, owner: User): (owned: seq<Phone>)
    ensures |owned| == |phones|
    ensures forall i | 0 <= i < |phones| :: owned[i] == phones[i].(user := owner)
  {
    if phones == [] then [] else [phones[0].(user := owner)] + WithOwner(phones[1..], owner)
  }

  /** Owners and phone ids are not part of the documents: request phones survive the mapping with an owner. */
  lemma OwnedPhonesRoundTrip(ds: seq<PhoneDto>, owner: User)
    ensures ToPhoneDtoList(WithOwner(ToPhoneEntityList(ds), owner)) == ds
  {
    PhoneListRoundTrip(ds);
    PhoneDtosIgnoreOwner(ToPhoneEntityList(ds), WithOwner(ToPhoneEntityList(ds), owner));
  }

  /** The `forEach(phone -> phone.setUser(user))` step, phone by phone. */
  method AttachOwner(phones: seq<Phone>, owner: User) returns (owned: seq<Phone>)
    ensures owned == WithOwner(phones, owner)
  {
    owned := phones;
    var i := 0;
    while i < |owned|
      invariant 0 <= i <= |owned| == |phones|
      invariant forall j | 0 <= j < i :: owned[j] == phones[j].(user := owner)
      invariant forall j | i <= j < |owned| :: owned[j] == phones[j]
    {
      owned := owned[i := owned[i].(user := owner)];
      i := i + 1;
    }
  }

  /**
   * The state registering `request` at `now` under `id` leaves its user `owner` in, with
   * `password` stored and `token` as its token.
   */
  function RegisteredState(request: RegistrationRequest, id: Uuid, now: LocalDateTime, password: string,
                           token: Option<string>, owner: User): UserState
  {
    UserState(Some(id), request.name, request.email, password, token, Some(now), Some(now), Some(now), Some(true),
              WithOwner(ToPhoneEntityList(request.phones), owner))
  }

  /** The state a successful registration of `request` at time `now` leaves the new user `u` in. */
  ghost predicate RegisteredFrom(u: User, request: RegistrationRequest, id: Uuid, now: LocalDateTime,
                                 encode: string -> string, generateToken: (Uuid, string) -> string)
    reads u
  {
    u.State() == RegisteredState(request, id, now, encode(request.password), Some(generateToken(id, request.email)), u)
  }

  class UserService {
    var users: map<Uuid, User>
    ghost var calls: seq<Call>
    const encode: string -> string
    const matches: (string, string) -> bool
    const generateToken: (Uuid, string) -> string

    /**
     * Every stored user carries its key as id, has its NOT NULL columns set and owns
     * its phones; no two stored users share an email.
     */
    ghost predicate Valid(): (v: bool)
      reads this`users, users.Values
      ensures v ==> forall a, b | a in users && b in users && a != b :: users[a] != users[b]
    {
      && (forall k | k in users :: users[k].id == Some(k) && users[k].Persisted() && users[k].OwnsPhones())
      && (forall a, b | a in users && b in users && a != b :: users[a].email != users[b].email)
    }

    /** `existsByEmail`: under the store invariant, a taken email has exactly one holder. */
    predicate EmailTaken(email: string): (taken: bool)
      reads this`users, users.Values
      ensures taken && Valid() ==>
        exists k | k in users :: (users[k].email == email && forall j | j in users && users[j].email == email :: j == k)
      ensures !taken ==> forall k | k in users :: users[k].email != email
    {
      exists k | k in users :: users[k].email == email
    }

    constructor (encode: string -> string, matches: (string, string) -> bool, generateToken: (Uuid, string) -> string)
      ensures Valid() && users == map[] && calls == []
      ensures this.encode == encode && this.matches == matches && this.generateToken == generateToken
    {
      users := map[];
      calls := [];
      this.encode := encode;
      this.matches := matches;
      this.generateToken := generateToken;
    }

    /**
     * The insert path of the repository's `save`: the email column is unique, an unused id
     * is chosen and the @PrePersist hook runs.
     */
    method Insert(u: User, now: LocalDateTime) returns (r: Result<User, Error>)
      requires Valid() && u.OwnsPhones() && u.id.None? && u !in users.Values
      modifies this`users, this`calls, u
      ensures Valid()
      ensures old(EmailTaken(u.email)) || old(|users|) >= UUID_COUNT ==>
        && r.Failure? && r.error.Internal?
        && users == old(users) && u.State() == old(u.State()) && calls == old(calls)
      ensures !old(EmailTaken(u.email)) && old(|users|) < UUID_COUNT ==>
        && r == Success(u) && u.id.Some? && u.id.value !in old(users)
        && users == old(users)[u.id.value := u]
        && u.State() == old(u.State()).(id := u.id, created := Some(now), modified := Some(now),
                                        lastLogin := Some(now), isActive := Some(true))
        && calls == old(calls) + [Saved(u.id.value, u.token)]
    {
      if EmailTaken(u.email) {
        r := Failure(Internal(EMAIL_NOT_UNIQUE));
      } else if |users| >= UUID_COUNT {
        r := Failure(Internal(NO_FREE_ID));
      } else {
        FreshIdExists(users.Keys);
        var id: Uuid :| id !in users;
        Persist(u, id, now);
        r := Success(u);
      }
    }

    /** The insert of a new user under the unused id `id`, with its @PrePersist hook. */
    method Persist(u: User, id: Uuid, now: LocalDateTime)
      requires Valid() && u.OwnsPhones() && u.id.None? && u !in users.Values
      requires id !in users && !EmailTaken(u.email)
      modifies this`users, this`calls, u
      ensures Valid()
      ensures users == old(users)[id := u]
      ensures u.State() == old(u.State()).(id := Some(id), created := Some(now), modified := Some(now),
                                          lastLogin := Some(now), isActive := Some(true))
      ensures calls == old(calls) + [Saved(id, u.token)]
    {
      ghost var others := users;
      assert forall k | k in others :: others[k] != u && others[k].email != u.email;
      u.id := Some(id);
      u.OnCreate(now);
      assert forall k | k in others :: others[k].id == Some(k) && others[k].Persisted() && others[k].OwnsPhones();
      assert u.Persisted() && u.OwnsPhones();
      users := users[id := u];
      calls := calls + [Saved(id, u.token)];
    }

    /** The update path of the repository's `save`: the @PreUpdate hook runs on the stored user. */
    method Update(u: User, now: LocalDateTime) returns (r: Result<User, Error>)
      requires Valid() && u.OwnsPhones()
      requires u.id.Some? && u.id.value in users && users[u.id.value] == u
      modifies this`users, this`calls, u
      ensures Valid()
      ensures r == Success(u) && users == old(users)
      ensures u.State() == old(u.State()).(modified := Some(now))
      ensures calls == old(calls) + [Saved(u.id.value, u.token)]
    {
      u.OnUpdate(now);
      calls := calls + [Saved(u.id.value, u.token)];
      r := Success(u);
    }

    /** The repository's `save`: a user without id is inserted, a stored user is updated. */
    method Save(u: User, now: LocalDateTime) returns (r: Result<User, Error>)
      requires Valid() && u.OwnsPhones()
      requires u.id.None? ==> u !in users.Values
      requires u.id.Some? ==> u.id.value in users && users[u.id.value] == u
      modifies this`users, this`calls, u
      ensures Valid()
      ensures old(u.id).Some? ==>
        && r == Success(u) && users == old(users)
        && u.State() == old(u.State()).(modified := Some(now))
        && calls == old(calls) + [Saved(u.id.value, u.token)]
      ensures old(u.id).None? && (old(EmailTaken(u.email)) || old(|users|) >= UUID_COUNT) ==>
        && r.Failure? && r.error.Internal?
        && users == old(users) && u.State() == old(u.State()) && calls == old(calls)
      ensures old(u.id).None? && !old(EmailTaken(u.email)) && old(|users|) < UUID_COUNT ==>
        && r == Success(u) && u.id.Some? && u.id.value !in old(users)
        && users == old(users)[u.id.value := u]
        && u.State() == old(u.State()).(id := u.id, created := Some(now), modified := Some(now),
                                        lastLogin := Some(now), isActive := Some(true))
        && calls == old(calls) + [Saved(u.id.value, u.token)]
    {
      if u.id.Some? {
        r := Update(u, now);
      } else {
        r := Insert(u, now);
      }
    }

    /** The repository's `findByEmail`. */
    method FindByEmail(email: string) returns (r: Option<User>)
      requires Valid()
      ensures r.None? <==> !EmailTaken(email)
      ensures r.Some? ==> r.value.id.Some? && r.value.id.value in users && users[r.value.id.value] == r.value
      ensures r.Some? ==> r.value.email == email
    {
      if EmailTaken(email) {
        var k :| k in users && users[k].email == email;
        r := Some(users[k]);
      } else {
        r := None;
      }
    }

    /**
     * Lines 48-53 of `registerUser`: the mapped entity with the encoded password and the
     * request's phones, each owned by the new user.
     */
    method BuildUser(request: RegistrationRequest) returns (user: User)
      modifies this`calls
      ensures fresh(user) && user.OwnsPhones()
      ensures calls == old(calls) + [Mapped(request), Encoded(request.password)]
      ensures user.State() == UserState(None, request.name, request.email, encode(request.password),
                                        None, None, None, None, None, WithOwner(ToPhoneEntityList(request.phones), user))
    {
      user := ToEntity(request);
      calls := calls + [Mapped(request), Encoded(request.password)];
      user.password := encode(request.password);
      var phones := ToPhoneEntityList(request.phones);
      phones := AttachOwner(phones, user);
      user.phones := phones;
    }

    /**
     * Lines 58-63 of `registerUser`: a token from the saved id and email, stored with a second
     * save, and the answer built from the saved user. The save of a stored user runs its
     * @PreUpdate hook only when the transaction commits, after the answer is built, so the
     * answer still shows the `modified` the user had before.
     */
    method IssueToken(user: User, now: LocalDateTime) returns (answer: UserResponse)
      requires Valid() && user.id.Some? && user.id.value in users && users[user.id.value] == user
      modifies this`users, this`calls, user
      ensures Valid() && users == old(users)
      ensures answer == ToResponse(user).(modified := LocalDateTimeToOffsetDateTime(old(user.modified)))
      ensures user.State() == old(user.State()).(token := Some(generateToken(user.id.value, user.email)),
                                                 modified := Some(now))
      ensures calls == old(calls) + [TokenIssued(user.id.value, user.email),
                                     Saved(user.id.value, Some(generateToken(user.id.value, user.email)))]
    {
      var id := user.id.value;
      calls := calls + [TokenIssued(id, user.email)];
      var token := generateToken(id, user.email);
      user.token := Some(token);
      answer := ToResponse(user);
      var saved := Save(user, now);
    }

    /**
     * Lines 48-56 of `registerUser`: the password is encoded, the entity built and saved
     * for the first time, without a token.
     */
    method SaveRegistration(request: RegistrationRequest, now: LocalDateTime) returns (r: Result<User, Error>)
      requires Valid() && !EmailTaken(request.email)
      modifies this`users, this`calls
      ensures Valid()
      ensures old(|users|) >= UUID_COUNT ==>
        && r.Failure? && r.error.Internal?
        && users == old(users) && calls == old(calls) + [Mapped(request), Encoded(request.password)]
      ensures old(|users|) < UUID_COUNT ==> r.Success?
      ensures r.Success? ==>
        && fresh(r.value) && r.value.id.Some? && r.value.id.value !in old(users)
        && users == old(users)[r.value.id.value := r.value] && |users| == old(|users|) + 1
      ensures r.Success? ==> var id := r.value.id.value;
        r.value.State() == RegisteredState(request, id, now, encode(request.password), None, r.value)
      ensures r.Success? ==>
        calls == old(calls) + [Mapped(request), Encoded(request.password), Saved(r.value.id.value, None)]
    {
      var user := BuildUser(request);
      r := Insert(user, now);
    }

    /** Lines 58-64 of `registerUser`: the token step on the saved user, answered with the twice-saved user. */
    method FinishRegistration(request: RegistrationRequest, user: User, id: Uuid, now: LocalDateTime)
      returns (r: Result<UserResponse, Error>)
      requires Valid() && id in users && users[id] == user
      requires user.State() == RegisteredState(request, id, now, encode(request.password), None, user)
      modifies this`users, this`calls, user
      ensures Valid() && users == old(users) && EmailTaken(request.email)
      ensures r.Success? && r.value.id == Some(id)
      ensures RegisteredFrom(user, request, id, now, encode, generateToken)
      ensures r.value == ToResponse(user) && r.value.phones == request.phones
      ensures calls == old(calls) + [TokenIssued(id, request.email), Saved(id, Some(generateToken(id, request.email)))]
    {
      var answer := IssueToken(user, now);
      assert users[id].email == request.email;
      OwnedPhonesRoundTrip(request.phones, user);
      r := Success(answer);
    }

    /** `registerUser` past its duplicate check: the two saves and the token step in between. */
    method RegisterNew(request: RegistrationRequest, now: LocalDateTime) returns (r: Result<UserResponse, Error>)
      requires Valid() && !EmailTaken(request.email)
      modifies this`users, this`calls
      ensures Valid()
      ensures old(|users|) >= UUID_COUNT ==>
        && r.Failure? && r.error.Internal?
        && users == old(users) && calls == old(calls) + [Mapped(request), Encoded(request.password)]
      ensures old(|users|) < UUID_COUNT ==> r.Success?
      ensures r.Success? ==> r.value.id.Some?
      ensures r.Success? ==> var id := r.value.id.value;
        id !in old(users) && id in users && users == old(users)[id := users[id]] && fresh(users[id])
      ensures r.Success? ==> var id := r.value.id.value;
        id in users && RegisteredFrom(users[id], request, id, now, encode, generateToken)
      ensures r.Success? ==> var id := r.value.id.value;
        id in users && r.value == ToResponse(users[id]) && r.value.phones == request.phones
      ensures r.Success? ==> var id := r.value.id.value;
        calls == old(calls) + [Mapped(request), Encoded(request.password), Saved(id, None), TokenIssued(id, request.email),
                               Saved(id, Some(generateToken(id, request.email)))]
    {
      var saved := SaveRegistration(request, now);
      if saved.Failure? {
        return Failure(saved.error);
      }
      var user := saved.value;
      var id := user.id.value;
      ghost var token := generateToken(id, request.email);
      r := FinishRegistration(request, user, id, now);
      assert [Mapped(request), Encoded(request.password), Saved(id, None)] + [TokenIssued(id, request.email), Saved(id, Some(token))]
          == [Mapped(request), Encoded(request.password), Saved(id, None), TokenIssued(id, request.email), Saved(id, Some(token))];
    }

    /**
     * `registerUser`: rejects a taken email before anything else; otherwise maps the request,
     * encodes the password, attaches the phones to the new user, saves it, issues a token from
     * the saved id and email, saves again and answers with the twice-saved user.
     */
    method RegisterUser(request: RegistrationRequest, now: LocalDateTime) returns (r: Result<UserResponse, Error>)
      requires Valid()
      modifies this`users, this`calls
      ensures Valid()
      ensures old(EmailTaken(request.email)) ==>
        r == Failure(BusinessRule(DUPLICATE_EMAIL)) && users == old(users) && calls == old(calls)
      ensures !old(EmailTaken(request.email)) && old(|users|) >= UUID_COUNT ==>
        && r.Failure? && r.error.Internal?
        && users == old(users) && calls == old(calls) + [Mapped(request), Encoded(request.password)]
      ensures !old(EmailTaken(request.email)) && old(|users|) < UUID_COUNT ==> r.Success?
      ensures r.Success? ==> r.value.id.Some?
      ensures r.Success? ==> var id := r.value.id.value;
        id !in old(users) && id in users && users == old(users)[id := users[id]] && fresh(users[id])
      ensures r.Success? ==> |users| == old(|users|) + 1
      ensures r.Success? ==> EmailTaken(request.email)
      ensures r.Success? ==> var id := r.value.id.value;
        id in users && RegisteredFrom(users[id], request, id, now, encode, generateToken)
      ensures r.Success? ==> var id := r.value.id.value;
        id in users && r.value == ToResponse(users[id]) && r.value.phones == request.phones
      ensures r.Success? ==> var id := r.value.id.value;
        calls == old(calls) + [Mapped(request), Encoded(request.password), Saved(id, None), TokenIssued(id, request.email),
                               Saved(id, Some(generateToken(id, request.email)))]
    {
      if EmailTaken(request.email) {
        return Failure(BusinessRule(DUPLICATE_EMAIL));
      }
      r := RegisterNew(request, now);
      if r.Success? {
        var id := r.value.id.value;
        assert users[id].email == request.email;
        assert |users| == old(|users|) + 1;
      }
    }

    /** `getUserById`: the stored user, or not-found naming the id; the store is only read. */
    method GetUserById(id: Uuid) returns (r: Result<UserResponse, Error>)
      requires Valid()
      ensures id in users ==> r == Success(ToResponse(users[id])) && r.value.id == Some(id)
      ensures id !in users ==> r == Failure(NotFound(NotFoundById(id)))
    {
      if id in users {
        r := Success(ToResponse(users[id]));
      } else {
        r := Failure(NotFound(NotFoundById(id)));
      }
    }

    /** `getUserByEmail`: the one user with that email, or not-found naming the email; the store is only read. */
    method GetUserByEmail(email: string) returns (r: Result<UserResponse, Error>)
      requires Valid()
      ensures r.Success? <==> EmailTaken(email)
      ensures r.Failure? ==> r.error == NotFound(NotFoundByEmail(email))
      ensures forall k | k in users && users[k].email == email :: r == Success(ToResponse(users[k]))
    {
      var found := FindByEmail(email);
      if found.None? {
        r := Failure(NotFound(NotFoundByEmail(email)));
      } else {
        r := Success(ToResponse(found.value));
      }
    }

    /**
     * `updateLastLogin`: stamps the stored user's last login with the current time and saves it.
     * As in `IssueToken`, the @PreUpdate hook runs at commit, after the answer is built, so the
     * answer carries the new last login but the `modified` the user had before the call.
     */
    method UpdateLastLogin(id: Uuid, now: LocalDateTime) returns (r: Result<UserResponse, Error>)
      requires Valid()
      modifies this`users, this`calls, if id in users then {users[id]} else {}
      ensures Valid() && users == old(users)
      ensures id !in users ==> r == Failure(NotFound(NotFoundById(id))) && calls == old(calls)
      ensures id in users ==>
        && users[id].State() == old(users[id].State()).(lastLogin := Some(now), modified := Some(now))
        && r == Success(ToResponse(users[id]).(modified := LocalDateTimeToOffsetDateTime(old(users[id].modified))))
        && calls == old(calls) + [Saved(id, users[id].token)]
    {
      if id !in users {
        return Failure(NotFound(NotFoundById(id)));
      }
      var user := users[id];
      user.lastLogin := Some(now);
      var answer := ToResponse(user);
      var updated := Save(user, now);
      r := Success(answer);
    }

    /** `login` once the user is found: the password check, and on success a fresh token saved once. */
    method Authenticate(user: User, id: Uuid, password: string, now: LocalDateTime) returns (r: Result<UserResponse, Error>)
      requires Valid() && id in users && users[id] == user
      modifies this`users, this`calls, user
      ensures Valid() && users == old(users)
      ensures !matches(password, old(user.password)) ==>
        && r == Failure(BusinessRule(INVALID_CREDENTIALS)) && user.State() == old(user.State())
        && calls == old(calls) + [PasswordChecked(password, old(user.password))]
      ensures matches(password, old(user.password)) ==>
        && user.State() == old(user.State()).(token := Some(generateToken(id, user.email)), modified := Some(now))
        && r == Success(ToResponse(user).(modified := LocalDateTimeToOffsetDateTime(old(user.modified))))
        && calls == old(calls) + [PasswordChecked(password, old(user.password)), TokenIssued(id, user.email),
                                  Saved(id, Some(generateToken(id, user.email)))]
    {
      ghost var stored := user.password;
      calls := calls + [PasswordChecked(password, user.password)];
      if !matches(password, user.password) {
        return Failure(BusinessRule(INVALID_CREDENTIALS));
      }
      ghost var token := generateToken(id, user.email);
      ghost var middle := calls;
      var answer := IssueToken(user, now);
      assert calls == middle + [TokenIssued(id, user.email), Saved(id, Some(token))];
      assert [PasswordChecked(password, stored)] + [TokenIssued(id, user.email), Saved(id, Some(token))]
          == [PasswordChecked(password, stored), TokenIssued(id, user.email), Saved(id, Some(token))];
      r := Success(answer);
    }

    /**
     * `login`: an unknown email and a wrong password fail alike with invalid credentials,
     * the former without a password check; a right password gets a fresh token for the
     * user's id and email, saved once.
     */
    method Login(email: string, password: string, now: LocalDateTime) returns (r: Result<UserResponse, Error>)
      requires Valid()
      modifies this`users, this`calls, set k | k in users && users[k].email == email :: users[k]
      ensures Valid() && users == old(users)
      ensures r.Failure? ==> r.error == BusinessRule(INVALID_CREDENTIALS)
      ensures !old(EmailTaken(email)) ==> r.Failure? && calls == old(calls)
      ensures forall k | k in old(users) && old(users[k].email) == email ::
        var stored := old(users[k].password);
        && (!matches(password, stored) ==>
              && r.Failure? && users[k].State() == old(users[k].State())
              && calls == old(calls) + [PasswordChecked(password, stored)])
        && (matches(password, stored) ==>
              && users[k].State() == old(users[k].State()).(token := Some(generateToken(k, email)), modified := Some(now))
              && r == Success(ToResponse(users[k]).(modified := LocalDateTimeToOffsetDateTime(old(users[k].modified))))
              && calls == old(calls) + [PasswordChecked(password, stored), TokenIssued(k, email),
                                        Saved(k, Some(generateToken(k, email)))])
    {
      var found := FindByEmail(email);
      if found.None? {
        return Failure(BusinessRule(INVALID_CREDENTIALS));
      }
      var user := found.value;
      var id := user.id.value;
      assert forall k | k in users && users[k].email == email :: k == id;
      r := Authenticate(user, id, password, now);
    }
  }
}
