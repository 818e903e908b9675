/** Client runs that chain the service's operations on one store. */
module Scenarios {
  import opened Wrappers
  import opened Ids
  import opened Time
  import opened Mapper
  import opened Exceptions
  import opened Service

  /** A fresh registration is what both lookups answer afterwards, by the new id and by the email. */
  method RegisterThenFetch(s: UserService, request: RegistrationRequest, now: LocalDateTime)
    returns (registered: Result<UserResponse, Error>, byId: Result<UserResponse, Error>,
             byEmail: Result<UserResponse, Error>)
    requires s.Valid() && !s.EmailTaken(request.email) && |s.users| < UUID_COUNT
    modifies s`users, s`calls
    ensures registered.Success? && registered.value.id.Some?
    ensures byId == registered && byEmail == registered
    ensures registered.value.email == request.email && registered.value.phones == request.phones
  {
    registered := s.RegisterUser(request, now);
    var id := registered.value.id.value;
    byId := s.GetUserById(id);
    byEmail := s.GetUserByEmail(request.email);
  }

  /**
   * The same email registered twice: the second attempt answers 409 with the duplicate
   * message, and the store and the collaborator calls stay as the first attempt left them:
   * one mapping, one encoding, two saves and one token in all.
   */
  method RegisterTwice(s: UserService, first: RegistrationRequest, second: RegistrationRequest, now: LocalDateTime)
    returns (r1: Result<UserResponse, Error>, r2: Result<UserResponse, Error>)
    requires s.Valid() && !s.EmailTaken(first.email) && |s.users| < UUID_COUNT
    requires second.email == first.email
    modifies s`users, s`calls
    ensures r1.Success? && r1.value.id.Some? && r2 == Failure(BusinessRule(DUPLICATE_EMAIL))
    ensures Handle(r2.error) == ErrorResponse(CONFLICT, DUPLICATE_EMAIL)
    ensures |s.users| == old(|s.users|) + 1
    ensures var id := r1.value.id.value;
      s.calls == old(s.calls) + [Mapped(first), Encoded(first.password), Saved(id, None), TokenIssued(id, first.email),
                                 Saved(id, Some(s.generateToken(id, first.email)))]
  {
    r1 := s.RegisterUser(first, now);
    r2 := s.RegisterUser(second, now);
  }

  /**
   * With an encoder whose `matches` accepts the encoding of a password, logging in with the
   * registered password succeeds and answers with a token for the new id and the email.
   */
  method RegisterThenLogin(s: UserService, request: RegistrationRequest, now: LocalDateTime, later: LocalDateTime)
    returns (registered: Result<UserResponse, Error>, loggedIn: Result<UserResponse, Error>)
    requires s.Valid() && !s.EmailTaken(request.email) && |s.users| < UUID_COUNT
    requires s.matches(request.password, s.encode(request.password))
    modifies s`users, s`calls
    ensures registered.Success? && registered.value.id.Some?
    ensures loggedIn.Success? && loggedIn.value.id == registered.value.id
    ensures loggedIn.value.token == Some(s.generateToken(registered.value.id.value, request.email))
  {
    registered := s.RegisterUser(request, now);
    var id := registered.value.id.value;
    ghost var user := s.users[id];
    assert user.email == request.email && user.password == s.encode(request.password);
    loggedIn := s.Login(request.email, request.password, later);
    assert user.id == Some(id) && user.token == Some(s.generateToken(id, request.email));
  }
}
