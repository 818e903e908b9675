/** Conversions between the request/response documents and the entities. */
module Mapper {
  import opened Wrappers
  import opened Ids
  import opened Time
  import opened Entity

  /** A phone as carried in requests and responses. */
  datatype PhoneDto = PhoneDto(number: string, citycode: string, contrycode: string)

  /** The registration request. Its field constraints are enforced before the service runs. */
  datatype RegistrationRequest = RegistrationRequest(name: string, email: string, password: string, phones: seq<PhoneDto>)

  /** The user record returned by every service operation. */
  datatype UserResponse = UserResponse(
    id: Option<Uuid>, name: string, email: string,
    created: Option<OffsetDateTime>, modified: Option<OffsetDateTime>, lastLogin: Option<OffsetDateTime>,
    token: Option<string>, isactive: Option<bool>, phones: seq<PhoneDto>)

  /** `toPhoneEntity`: copies the three strings; the phone id and the owner stay unset. */
  function ToPhoneEntity(d: PhoneDto): (p: Phone)
    ensures p.id == None && p.user == null
    ensures p.number == d.number && p.citycode == d.citycode && p.contrycode == d.contrycode
  {
    Phone(None, d.number, d.citycode, d.contrycode, null)
  }

  /** `toPhoneDTO`: the three strings of the phone. */
  function ToPhoneDto(p: Phone): (d: PhoneDto)
    ensures ToPhoneEntity(d) == p.(id := None, user := null)
  {
    PhoneDto(p.number, p.citycode, p.contrycode)
  }

  /** `toPhoneEntityList`: element by element, same length and order. */
  function ToPhoneEntityList(ds: seq<PhoneDto>): (ps: seq<Phone>)
    ensures |ps| == |ds|
    ensures forall i | 0 <= i < |ds| :: ps[i] == ToPhoneEntity(ds[i])
  {
    if ds == [] then [] else [ToPhoneEntity(ds[0])] + ToPhoneEntityList(ds[1..])
  }

  /** `toPhoneDTOList`: element by element, same length and order. */
  function ToPhoneDtoList(ps: seq<Phone>): (ds: seq<PhoneDto>)
    ensures |ds| == |ps|
    ensures forall i | 0 <= i < |ps| :: ds[i] == ToPhoneDto(ps[i])
  {
    if ps == [] then [] else [ToPhoneDto(ps[0])] + ToPhoneDtoList(ps[1..])
  }

  /** Mapping request phones to entities and back gives the request phones again. */
  lemma PhoneListRoundTrip(ds: seq<PhoneDto>)
    ensures ToPhoneDtoList(ToPhoneEntityList(ds)) == ds
  {
    var back := ToPhoneDtoList(ToPhoneEntityList(ds));
    assert forall i | 0 <= i < |ds| :: back[i] == ds[i];
  }

  /** The documents do not carry phone owners or ids: changing them leaves the mapped list as it was. */
  lemma PhoneDtosIgnoreOwner(ps: seq<Phone>, qs: seq<Phone>)
    requires |ps| == |qs|
    requires forall i | 0 <= i < |ps| :: qs[i].(id := ps[i].id, user := ps[i].user) == ps[i]
    ensures ToPhoneDtoList(qs) == ToPhoneDtoList(ps)
  {
    var a, b := ToPhoneDtoList(ps), ToPhoneDtoList(qs);
    assert forall i | 0 <= i < |ps| :: a[i] == b[i];
  }

  /** `localDateTimeToOffsetDateTime`: null stays null, otherwise the same date-time at offset UTC. */
  function LocalDateTimeToOffsetDateTime(t: Option<LocalDateTime>): (o: Option<OffsetDateTime>)
    ensures o.None? <==> t.None?
    ensures o.Some? ==> o.value.dateTime == t.value && o.value.offset == UTC
  {
    if t.None? then None else Some(AtOffset(t.value, UTC))
  }

  /** `offsetDateTimeToLocalDateTime`: null stays null, otherwise the date-time with its offset dropped. */
  function OffsetDateTimeToLocalDateTime(o: Option<OffsetDateTime>): (t: Option<LocalDateTime>)
    ensures t.None? <==> o.None?
    ensures t.Some? ==> t.value == o.value.dateTime
  {
    if o.None? then None else Some(ToLocalDateTime(o.value))
  }

  /** A local date-time survives the trip through the UTC-offset form unchanged (null included). */
  lemma LocalDateTimeRoundTrip(t: Option<LocalDateTime>)
    ensures OffsetDateTimeToLocalDateTime(LocalDateTimeToOffsetDateTime(t)) == t
  {
  }

  /** The other way round the trip is the identity exactly on null and on values already at UTC. */
  lemma OffsetDateTimeRoundTrip(o: Option<OffsetDateTime>)
    ensures LocalDateTimeToOffsetDateTime(OffsetDateTimeToLocalDateTime(o)) == o
        <==> (o.None? || o.value.offset == UTC)
  {
  }

  /**
   * `toEntity`: a new user with the request's name, email, password and mapped phones;
   * id, token, created, modified, lastLogin and isActive are ignored and so left unset.
   */
  method ToEntity(request: RegistrationRequest) returns (u: User)
    ensures fresh(u)
    ensures u.id == None && u.token == None
    ensures u.created == None && u.modified == None && u.lastLogin == None && u.isActive == None
    ensures u.name == request.name && u.email == request.email && u.password == request.password
    ensures u.phones == ToPhoneEntityList(request.phones)
  {
    u := new User(request.name, request.email, request.password, ToPhoneEntityList(request.phones));
  }

  /** `toResponse`: the user's fields, its timestamps at offset UTC and its phones as documents. */
  function ToResponse(u: User): (r: UserResponse)
    reads u
    ensures r.id == u.id && r.name == u.name && r.email == u.email && r.token == u.token
    ensures r.isactive == u.isActive && r.phones == ToPhoneDtoList(u.phones)
    ensures OffsetDateTimeToLocalDateTime(r.created) == u.created
    ensures OffsetDateTimeToLocalDateTime(r.modified) == u.modified
    ensures OffsetDateTimeToLocalDateTime(r.lastLogin) == u.lastLogin
  {
    UserResponse(u.id, u.name, u.email,
      LocalDateTimeToOffsetDateTime(u.created), LocalDateTimeToOffsetDateTime(u.modified),
      LocalDateTimeToOffsetDateTime(u.lastLogin),
      u.token, u.isActive, ToPhoneDtoList(u.phones))
  }
}
