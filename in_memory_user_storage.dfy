/** `InMemoryUserStorage`: users by id, the same ids mapped to their
    emails, and an id counter. An email identifies at most one user. */
module InMemoryUserStorage {
  import opened Common

  /** A user as this storage keeps it: the email is never null here, the
      name may be. */
  datatype StoredUser = StoredUser(id: int, name: Option<string>, email: string)

  /** The user object handed in by the caller; its id is overwritten. */
  datatype UserInput = UserInput(name: Option<string>, email: Option<string>)

  /** `emails.containsValue(email)`. */
  predicate EmailTaken(emails: map<int, string>, email: string) {
    exists k :: k in emails && emails[k] == email
  }

  /** The checks of `createUser`: a null email is Validation, an email some
      user already has is Conflict. */
  function CreationError(emails: map<int, string>, user: UserInput): (r: Option<Error>)
    ensures r.None? <==> user.email.Some? && forall k :: k in emails ==> emails[k] != user.email.value
    ensures user.email.None? ==> r == Some(Validation)
    ensures user.email.Some? && r.Some? ==> r == Some(Conflict)
  {
    if user.email.None? then Some(Validation)
    else if EmailTaken(emails, user.email.value) then Some(Conflict)
    else None
  }

  /** No two users share an email. */
  predicate EmailsDistinct(emails: map<int, string>) {
    forall k1, k2 :: k1 in emails && k2 in emails && k1 != k2 ==> emails[k1] != emails[k2]
  }

  /** The checks of `updateUser`, on maps that keep the storage's
      invariant: an unknown id is NotFound; an email held by another user
      is Conflict. */
  function UpdateError(userMap: map<int, StoredUser>, emails: map<int, string>, key: int, user: UserInput)
    : (r: Option<Error>)
    requires userMap.Keys == emails.Keys && EmailsDistinct(emails)
    ensures key !in userMap ==> r == Some(NotFound)
    ensures key in userMap ==> (r.None? <==> user.email.None? || forall k :: k in emails && k != key ==> emails[k] != user.email.value)
    ensures key in userMap && r.Some? ==> r == Some(Conflict)
  {
    if key !in userMap then Some(NotFound)
    else if user.email.None? || !EmailTaken(emails, user.email.value) || emails[key] == user.email.value then None
    else Some(Conflict)
  }

  /** The user `updateUser` stores: the stored id, and each null field taken
      from the stored user. */
  function Updated(stored: StoredUser, user: UserInput): (r: StoredUser)
    ensures r.id == stored.id
    ensures r.name == (if user.name.Some? then user.name else stored.name)
    ensures r.email == user.email.GetOr(stored.email)
  {
    StoredUser(stored.id, if user.name.None? then stored.name else user.name, user.email.GetOr(stored.email))
  }

  /** Re-submitting one's own email is never a conflict; submitting another
      user's email always is. */
  lemma OwnEmailIsNoConflict(userMap: map<int, StoredUser>, emails: map<int, string>,
                             key: int, other: int, name: Option<string>)
    requires userMap.Keys == emails.Keys && EmailsDistinct(emails)
    requires key in userMap && other in emails && other != key
    ensures UpdateError(userMap, emails, key, UserInput(name, Some(emails[key]))) == None
    ensures UpdateError(userMap, emails, key, UserInput(name, Some(emails[other]))) == Some(Conflict)
  {
  }

  /** Re-applying an update changes nothing more. */
  lemma UpdatedIdempotent(stored: StoredUser, user: UserInput)
    ensures Updated(Updated(stored, user), user) == Updated(stored, user)
    ensures Updated(stored, UserInput(None, None)) == stored
  {
  }

  class UserStorage {
    var userMap: map<int, StoredUser>
    var emails: map<int, string>
    /** The last id handed out. */
    var id: int

    /** Both maps have the same keys, every key was handed out by the
        counter and is its user's id, `emails` mirrors the users' emails,
        and no two users share one. */
    ghost predicate Valid()
      reads this
    {
      id >= 0 && userMap.Keys == emails.Keys
      && (forall k :: k in userMap ==> 1 <= k <= id && userMap[k].id == k && emails[k] == userMap[k].email)
      && EmailsDistinct(emails)
    }

    constructor ()
      ensures Valid() && userMap == map[] && emails == map[] && id == 0
    {
      userMap := map[];
      emails := map[];
      id := 0;
    }

    /** `findAllUsers`: every stored user, each under its own id. */
    function FindAllUsers(): (r: set<StoredUser>)
      reads this
      requires Valid()
      ensures forall k :: k in userMap ==> userMap[k] in r
      ensures forall u :: u in r ==> u.id in userMap && userMap[u.id] == u
    {
      set k | k in userMap :: userMap[k]
    }

    /** `findUserById`: the user, or null (`None`) for an unknown id. */
    function FindUserById(key: int): (r: Option<StoredUser>)
      reads this
      requires Valid()
      ensures r.Some? <==> key in userMap
      ensures r.Some? ==> r.value == userMap[key] && r.value.id == key
    {
      if key in userMap then Some(userMap[key]) else None
    }

    /** `createUser`: a null or taken email stores nothing; otherwise the
        user gets the next id and enters both maps. */
    method CreateUser(user: UserInput) returns (r: Result<StoredUser>)
      requires Valid()
      modifies this
      ensures Valid()
      ensures r.Err? <==> CreationError(old(emails), user).Some?
      ensures r.Err? ==> r.error == CreationError(old(emails), user).value
                         && userMap == old(userMap) && emails == old(emails) && id == old(id)
      ensures r.Ok? ==> id == old(id) + 1 && r.value == StoredUser(id, user.name, user.email.value)
                        && id !in old(userMap)
                        && userMap == old(userMap)[id := r.value] && emails == old(emails)[id := r.value.email]
    {
      var error := CreationError(emails, user);
      if error.Some? {
        return Err(error.value);
      }
      id := id + 1;
      var stored := StoredUser(id, user.name, user.email.value);
      emails := emails[id := stored.email];
      userMap := userMap[id := stored];
      r := Ok(stored);
    }

    /** `updateUser`: NotFound for an unknown id, Conflict for another
        user's email; otherwise the user is replaced, its null fields taken
        from the stored user, and the email map follows a new email. */
    method UpdateUser(key: int, user: UserInput) returns (r: Result<StoredUser>)
      requires Valid()
      modifies this
      ensures Valid() && id == old(id)
      ensures r.Err? <==> UpdateError(old(userMap), old(emails), key, user).Some?
      ensures r.Err? ==> r.error == UpdateError(old(userMap), old(emails), key, user).value
                         && userMap == old(userMap) && emails == old(emails)
      ensures r.Ok? ==> key in old(userMap) && r.value == Updated(old(userMap)[key], user)
                        && userMap == old(userMap)[key := r.value]
                        && emails == old(emails)[key := r.value.email]
    {
      var error := UpdateError(userMap, emails, key, user);
      if error.Some? {
        return Err(error.value);
      }
      var updated := Updated(userMap[key], user);
      if user.email.Some? {
        emails := emails[key := user.email.value];
      }
      userMap := userMap[key := updated];
      r := Ok(updated);
    }

    /** `deleteUser`: NotFound for an unknown id; otherwise the id leaves
        both maps, freeing its email. */
    method DeleteUser(key: int) returns (error: Option<Error>)
      requires Valid()
      modifies this
      ensures Valid() && id == old(id)
      ensures error.Some? <==> key !in old(userMap)
      ensures error.Some? ==> error.value == NotFound && userMap == old(userMap) && emails == old(emails)
      ensures error.None? ==> userMap == old(userMap) - {key} && emails == old(emails) - {key}
    {
      if key !in userMap {
        return Some(NotFound);
      }
      userMap := userMap - {key};
      emails := emails - {key};
      error := None;
    }
  }
}
