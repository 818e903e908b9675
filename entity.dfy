/** The persistent entities: a user and the phones it owns. */
module Entity {
  import opened Wrappers
  import opened Ids
  import opened Time

  /**
   * A phone row. Its database id is generated on insert; `user` is the mandatory
   * owner reference (column user_id).
   */
  datatype Phone = Phone(id: Option<int>, number: string, citycode: string, contrycode: string, user: User?)

  /** The values of all fields of a user at one moment. */
  datatype UserState = UserState(
    id: Option<Uuid>, name: string, email: string, password: string, token: Option<string>,
    created: Option<LocalDateTime>, modified: Option<LocalDateTime>, lastLogin: Option<LocalDateTime>,
    isActive: Option<bool>, phones: seq<Phone>)

  /**
   * A user entity. The columns name, email, password, created, modified and is_active
   * are NOT NULL once the row exists; token and last_login may be null; id is generated
   * once and never updated.
   */
  class User {
    var id: Option<Uuid>
    var name: string
    var email: string
    var password: string
    var token: Option<string>
    var created: Option<LocalDateTime>
    var modified: Option<LocalDateTime>
    var lastLogin: Option<LocalDateTime>
    var isActive: Option<bool>
    var phones: seq<Phone>

    /** The all-fields-unset builder result with the given name, email, password and phones. */
    constructor (name: string, email: string, password: string, phones: seq<Phone>)
      ensures this.id == None && this.token == None
      ensures this.created == None && this.modified == None && this.lastLogin == None && this.isActive == None
      ensures this.name == name && this.email == email && this.password == password && this.phones == phones
    {
      this.id := None;
      this.name := name;
      this.email := email;
      this.password := password;
      this.token := None;
      this.created := None;
      this.modified := None;
      this.lastLogin := None;
      this.isActive := None;
      this.phones := phones;
    }

    function State(): UserState
      reads this
    {
      UserState(id, name, email, password, token, created, modified, lastLogin, isActive, phones)
    }

    /** Every phone of this user names this user as its owner. */
    predicate OwnsPhones()
      reads this
    {
      forall i | 0 <= i < |phones| :: phones[i].user == this
    }

    /** The NOT NULL columns of a stored row are present. */
    predicate Persisted()
      reads this
    {
      id.Some? && created.Some? && modified.Some? && isActive.Some?
    }

    /** The @PrePersist hook: stamps the three timestamps and forces the user active. */
    method OnCreate(now: LocalDateTime)
      modifies this
      ensures State() == old(State()).(created := Some(now), modified := Some(now), lastLogin := Some(now),
                                       isActive := Some(true))
    {
      created := Some(now);
      modified := Some(now);
      lastLogin := Some(now);
      isActive := Some(true);
    }

    /** The @PreUpdate hook: stamps `modified` and nothing else. */
    method OnUpdate(now: LocalDateTime)
      modifies this
      ensures State() == old(State()).(modified := Some(now))
    {
      modified := Some(now);
    }
  }
}
