/** `UserService`: the database-backed user directory the other services
    consult. Users are kept by id; `save` of a new user assigns the next
    identity value. */
module UserService {
  import opened Common
  import opened Domain
  import Text
  import InMemoryUserStorage

  /** `UserDto` as submitted: either field may be null. */
  datatype UserDto = UserDto(name: Option<string>, email: Option<string>)

  /** `findUserById`: the stored user, or NotFound. */
  function FindUserById(users: map<int, User>, id: int): (r: Result<User>)
    ensures r.Ok? <==> id in users
    ensures r.Ok? ==> r.value == users[id]
    ensures r.Err? ==> r.error == NotFound
  {
    if id in users then Ok(users[id]) else Err(NotFound)
  }

  /** The service's own checks in `createUser`: a null field is
      Validation, and so is a name and an email that are both blank. One
      blank field passes these checks; the entity validation run by `save`
      (`CreateError`) still rejects a blank name. */
  function CreationError(dto: UserDto): (r: Option<Error>)
    ensures r.None? <==> dto.name.Some? && dto.email.Some?
                         && (!Text.IsBlank(dto.name.value) || !Text.IsBlank(dto.email.value))
    ensures r.Some? ==> r.value == Validation
  {
    if dto.email.None? || dto.name.None? then Some(Validation)
    else if Text.IsBlank(dto.email.value) && Text.IsBlank(dto.name.value) then Some(Validation)
    else None
  }

  /** The bean validation Hibernate runs on a `User` before writing it:
      `@NotBlank` on the name and `@Email` on the email. The validator's
      address grammar is not modelled; `isEmail` stands for it. */
  predicate Persistable(u: User, isEmail: string -> bool) {
    !Text.IsBlank(u.name) && isEmail(u.email)
  }

  /** Some stored user has this email: the column is `unique`. */
  predicate EmailInUse(users: map<int, User>, email: string) {
    exists k :: k in users && users[k].email == email
  }

  /** Everything `createUser` can fail with, in order. The service's checks
      come first (Validation). The insert of a new user runs at once, since
      ids are identity values: its entity validation throws a
      `ConstraintViolationException`, a `ValidationException` (Validation);
      the unique email column then throws a `DataIntegrityViolationException`,
      which no handler maps (Internal). */
  function CreateError(users: map<int, User>, dto: UserDto, isEmail: string -> bool): (r: Option<Error>)
    ensures r.None? <==> CreationError(dto).None?
                         && Persistable(User(0, dto.name.value, dto.email.value), isEmail)
                         && !EmailInUse(users, dto.email.value)
    ensures CreationError(dto).Some? ==> r == Some(Validation)
    ensures CreationError(dto).None? && Text.IsBlank(dto.name.value) ==> r == Some(Validation)
    ensures CreationError(dto).None? && !isEmail(dto.email.value) ==> r == Some(Validation)
    ensures r == Some(Internal) <==> (CreationError(dto).None?
                                     && Persistable(User(0, dto.name.value, dto.email.value), isEmail)
                                     && EmailInUse(users, dto.email.value))
    ensures r.None? || r == Some(Validation) || r == Some(Internal)
  {
    if CreationError(dto).Some? then CreationError(dto)
    else if !Persistable(User(0, dto.name.value, dto.email.value), isEmail) then Some(Validation)
    else if EmailInUse(users, dto.email.value) then Some(Internal)
    else None
  }

  /** A blank name with a well-formed email passes the service's checks
      but not the entity's: `createUser` answers Validation. */
  lemma BlankNameRejectedOnSave(users: map<int, User>, email: string, isEmail: string -> bool)
    requires !Text.IsBlank(email) && isEmail(email)
    ensures CreationError(UserDto(Some(""), Some(email))).None?
    ensures CreateError(users, UserDto(Some(""), Some(email)), isEmail) == Some(Validation)
  {
  }

  /** A malformed email with a name passes the service's checks but not
      the entity's: `createUser` answers Validation. */
  lemma MalformedEmailRejectedOnSave(users: map<int, User>, name: string, email: string, isEmail: string -> bool)
    requires !Text.IsBlank(name) && !isEmail(email)
    ensures CreationError(UserDto(Some(name), Some(email))).None?
    ensures CreateError(users, UserDto(Some(name), Some(email)), isEmail) == Some(Validation)
  {
  }

  /** A second user with a stored user's email fails, however valid it is
      otherwise. */
  lemma TakenEmailRejected(users: map<int, User>, id: int, dto: UserDto, isEmail: string -> bool)
    requires id in users && dto.email == Some(users[id].email)
    ensures CreateError(users, dto, isEmail).Some?
  {
  }

  /** The merge of `updateUser`: a submitted field that is non-null and
      differs from the stored one replaces it (setting an equal value
      changes nothing); the id is kept. */
  function Merge(stored: User, dto: UserDto): (r: User)
    ensures r.id == stored.id
    ensures r.name == dto.name.GetOr(stored.name)
    ensures r.email == dto.email.GetOr(stored.email)
  {
    var name := if dto.name.Some? && dto.name.value != stored.name then dto.name.value else stored.name;
    var email := if dto.email.Some? && dto.email.value != stored.email then dto.email.value else stored.email;
    stored.(name := name, email := email)
  }

  /** Submitting the same patch twice is submitting it once; the empty patch
      changes nothing. */
  lemma MergeIdempotent(stored: User, dto: UserDto)
    ensures Merge(Merge(stored, dto), dto) == Merge(stored, dto)
    ensures Merge(stored, UserDto(None, None)) == stored
  {
  }

  /** The database merge and the in-memory storage's update store the same
      user for the same submission. */
  lemma MergeAgreesWithStorage(stored: User, kept: InMemoryUserStorage.StoredUser, dto: UserDto)
    requires kept == InMemoryUserStorage.StoredUser(stored.id, Some(stored.name), stored.email)
    ensures var u := Merge(stored, dto);
            InMemoryUserStorage.Updated(kept, InMemoryUserStorage.UserInput(dto.name, dto.email))
            == InMemoryUserStorage.StoredUser(u.id, Some(u.name), u.email)
  {
  }

  /** Everything `updateUser` can fail with, in order: NotFound for an
      unknown id. The merged user is written only if it differs from the
      stored one (Hibernate's dirty check), and only at commit: its entity
      validation or the unique email column then fails inside the commit,
      which Spring rethrows as an exception no handler maps (Internal). */
  function UpdateError(users: map<int, User>, id: int, dto: UserDto, isEmail: string -> bool): (r: Option<Error>)
    ensures id !in users ==> r == Some(NotFound)
    ensures id in users ==>
              (r.None? <==> var m := Merge(users[id], dto);
                            m == users[id] || (Persistable(m, isEmail) && !EmailInUse(users - {id}, m.email)))
    ensures id in users && r.Some? ==> r == Some(Internal)
  {
    if id !in users then Some(NotFound)
    else
      var merged := Merge(users[id], dto);
      if merged == users[id] then None
      else if !Persistable(merged, isEmail) || EmailInUse(users - {id}, merged.email) then Some(Internal)
      else None
  }

  /** A patch that blanks the name of a stored user is never written. */
  lemma BlankNamePatchRejected(users: map<int, User>, id: int, name: string, isEmail: string -> bool)
    requires id in users && !Text.IsBlank(users[id].name) && Text.IsBlank(name)
    ensures UpdateError(users, id, UserDto(Some(name), None), isEmail) == Some(Internal)
  {
  }

  /** A user may resubmit their own email: it is no conflict with
      themselves. */
  lemma OwnEmailAccepted(users: map<int, User>, id: int, isEmail: string -> bool)
    requires id in users && Persistable(users[id], isEmail)
    requires forall k :: k in users && k != id ==> users[k].email != users[id].email
    ensures UpdateError(users, id, UserDto(None, Some(users[id].email)), isEmail).None?
  {
  }

  class Service {
    /** The users table by id. */
    var users: map<int, User>
    /** The last identity value handed out. */
    var lastId: int
    /** The address grammar of the `@Email` validator. */
    const isEmail: string -> bool

    /** Ids are identity values; every stored user passed the entity
        validation, and no two share an email. */
    ghost predicate Valid()
      reads this
    {
      && lastId >= 0
      && (forall k :: k in users ==> 1 <= k <= lastId && users[k].id == k)
      && (forall k :: k in users ==> Persistable(users[k], isEmail))
      && (forall j, k :: j in users && k in users && users[j].email == users[k].email ==> j == k)
    }

    constructor (isEmail: string -> bool)
      ensures Valid() && users == map[] && lastId == 0 && this.isEmail == isEmail
    {
      users := map[];
      lastId := 0;
      this.isEmail := isEmail;
    }

    /** `createUser`: the checks, then the user is saved under a fresh id.
        An insert the database refuses still uses up its identity value. */
    method CreateUser(dto: UserDto) returns (r: Result<User>)
      requires Valid()
      modifies this
      ensures Valid()
      ensures r.Err? <==> CreateError(old(users), dto, isEmail).Some?
      ensures r.Err? ==> r.error == CreateError(old(users), dto, isEmail).value && users == old(users)
      ensures r.Err? && r.error == Validation ==> lastId == old(lastId)
      ensures r.Err? && r.error == Internal ==> lastId == old(lastId) + 1
      ensures r.Ok? ==> lastId == old(lastId) + 1 && lastId !in old(users)
                        && r.value == User(lastId, dto.name.value, dto.email.value)
                        && users == old(users)[lastId := r.value]
    {
      var error := CreateError(users, dto, isEmail);
      if error.Some? {
        if error.value == Internal {
          lastId := lastId + 1;
        }
        return Err(error.value);
      }
      lastId := lastId + 1;
      var user := User(lastId, dto.name.value, dto.email.value);
      users := users[lastId := user];
      r := Ok(user);
    }

    /** `updateUser`: NotFound for an unknown id, the commit's Internal
        error for a merge the entity or the email column refuses; otherwise
        the merged user replaces the stored one. */
    method UpdateUser(id: int, dto: UserDto) returns (r: Result<User>)
      requires Valid()
      modifies this
      ensures Valid() && lastId == old(lastId)
      ensures r.Err? <==> UpdateError(old(users), id, dto, isEmail).Some?
      ensures r.Err? ==> r.error == UpdateError(old(users), id, dto, isEmail).value && users == old(users)
      ensures r.Ok? ==> id in old(users) && r.value == Merge(old(users)[id], dto)
                        && users == old(users)[id := r.value]
    {
      var found := FindUserById(users, id);
      if found.Err? {
        return Err(found.error);
      }
      // The stored user always carries the id it was found under, so the
      // source's second NotFound check never fires.
      assert found.value.id == id;
      var error := UpdateError(users, id, dto, isEmail);
      if error.Some? {
        return Err(error.value);
      }
      var merged := Merge(found.value, dto);
      forall k | k in users && k != id
        ensures users[k].email != merged.email
      {
        if merged != users[id] {
          assert k in users - {id};
        }
      }
      users := users[id := merged];
      r := Ok(merged);
    }
  }
}
