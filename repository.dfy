/**
 * The user repository over an in-memory copy of the database: the `users`, `groups` and
 * `users_groups` tables. A write is checked against the tables' constraints when it is
 * flushed; a refused write raises and leaves the tables as they were.
 */
module Repository {
  import opened Wrappers
  import opened Models

  /**
   * The fields an update body can set: the string fields the registration schema has. Of these
   * only `username`, `email` and `password` are columns of `users`; `password_retry` is not.
   */
  datatype UpdateField = UsernameField | EmailField | PasswordField | PasswordRetryField

  /** One keyword argument of `update_user`: a field and its value, None when the client sent null. */
  datatype Kwarg = Kwarg(field: UpdateField, value: Option<string>)

  /**
   * `setattr(user, field, value)` as the database sees it after the flush: each of the three
   * columns takes the value; `password_retry` is an attribute the mapping does not know, so it
   * is set on the object and no column changes.
   */
  function SetAttr(u: User, field: UpdateField, value: string): (r: User)
    ensures r.username == (if field == UsernameField then value else u.username)
    ensures r.email == (if field == EmailField then Some(value) else u.email)
    ensures r.password == (if field == PasswordField then value else u.password)
    ensures r.(username := u.username, email := u.email, password := u.password) == u
  {
    match field
    case UsernameField => u.(username := value)
    case EmailField => u.(email := Some(value))
    case PasswordField => u.(password := value)
    case PasswordRetryField => u
  }

  /**
   * The user after the update loop has visited every keyword argument, in order, skipping the
   * None values. Only the three columns can differ from the row it started from.
   */
  function Merged(u: User, kwargs: seq<Kwarg>): (r: User)
    ensures r.(username := u.username, email := u.email, password := u.password) == u
  {
    if kwargs == [] then u
    else
      var previous := Merged(u, kwargs[..|kwargs| - 1]);
      var last := kwargs[|kwargs| - 1];
      if last.value.None? then previous else SetAttr(previous, last.field, last.value.value)
  }

  /** The last value that is not None among the arguments for `field`. */
  function LastSupplied(kwargs: seq<Kwarg>, field: UpdateField): (r: Option<string>)
    ensures r.Some? <==> exists i :: 0 <= i < |kwargs| && kwargs[i].field == field && kwargs[i].value.Some?
    ensures r.Some? ==>
              exists i :: 0 <= i < |kwargs| && kwargs[i].field == field && kwargs[i].value == r &&
                forall j :: i < j < |kwargs| ==> kwargs[j].field != field || kwargs[j].value.None?
  {
    if kwargs == [] then None
    else if kwargs[|kwargs| - 1].field == field && kwargs[|kwargs| - 1].value.Some? then kwargs[|kwargs| - 1].value
    else LastSupplied(kwargs[..|kwargs| - 1], field)
  }

  /**
   * What the merge does to each column: it takes the last value supplied for it that is not
   * None; a column with only None values, or not supplied at all, keeps its value.
   */
  lemma {:induction false} MergedFields(u: User, kwargs: seq<Kwarg>)
    ensures Merged(u, kwargs).username == LastSupplied(kwargs, UsernameField).GetOr(u.username)
    ensures Merged(u, kwargs).email ==
            (if LastSupplied(kwargs, EmailField).Some? then LastSupplied(kwargs, EmailField) else u.email)
    ensures Merged(u, kwargs).password == LastSupplied(kwargs, PasswordField).GetOr(u.password)
  {
    if kwargs != [] {
      MergedFields(u, kwargs[..|kwargs| - 1]);
    }
  }

  /** Applying the same update twice gives what applying it once gives. */
  lemma MergedIdempotent(u: User, kwargs: seq<Kwarg>)
    ensures Merged(Merged(u, kwargs), kwargs) == Merged(u, kwargs)
  {
    var once := Merged(u, kwargs);
    MergedFields(u, kwargs);
    MergedFields(once, kwargs);
  }

  class UserRepository {
    var users: map<int, User>
    var groups: map<int, Group>
    var memberships: set<UserGroup>
    /** The next value of the primary-key sequence of `users`. */
    var nextId: int

    ghost predicate Valid()
      reads this
    {
      && UsersTable(users)
      && GroupsTable(groups)
      && MembershipTable(memberships, users, groups)
      && (forall id :: id in users ==> id < nextId)
    }

    /** A repository over the session's database, whatever valid tables it holds. */
    constructor (users: map<int, User>, groups: map<int, Group>, memberships: set<UserGroup>, nextId: int)
      requires UsersTable(users) && GroupsTable(groups) && MembershipTable(memberships, users, groups)
      requires forall id :: id in users ==> id < nextId
      ensures Valid()
      ensures this.users == users && this.groups == groups && this.memberships == memberships && this.nextId == nextId
    {
      this.users := users;
      this.groups := groups;
      this.memberships := memberships;
      this.nextId := nextId;
    }

    /** `get_user`: the row whose id is `userId`; None matches no row. */
    function GetUser(userId: Option<int>): (r: Option<User>)
      reads this
      requires Valid()
      ensures r.Some? <==> userId.Some? && userId.value in users
      ensures r.Some? ==> r.value == users[userId.value] && r.value.id == userId.value
    {
      if userId.Some? && userId.value in users then
        Some(users[userId.value])
      else None
    }

    /** `get_user_by_username`: the row with that username, of which the table holds at most one. */
    function GetUserByUsername(username: string): (r: Option<User>)
      reads this
      requires Valid()
      ensures r.Some? <==> exists id :: id in users && users[id].username == username
      ensures r.Some? ==> r.value.id in users && users[r.value.id] == r.value && r.value.username == username
    {
      if exists id :: id in users && users[id].username == username then
        var id :| id in users && users[id].username == username;
        Some(users[id])
      else None
    }

    /** The groups a user belongs to: the `User.groups` relationship through `users_groups`. */
    function GroupsOf(userId: int): (gs: set<int>)
      reads this
      requires Valid()
      ensures forall g :: g in gs <==> UserGroup(userId, g) in memberships
      ensures gs <= groups.Keys
    {
      set m | m in memberships && m.user == userId :: m.group
    }

    /**
     * `create_user`: insert a row holding exactly this username and password hash, every
     * other column at its default, under a fresh primary key; refused (and nothing stored) when
     * the row breaks a column width or duplicates a username.
     */
    method CreateUser(username: string, password: string) returns (r: Result<User>)
      requires Valid()
      modifies this
      ensures Valid()
      ensures r.Ok? <==> Admissible(old(users), NewUser(old(nextId), username, password))
      ensures r.Ok? ==> r.value == NewUser(r.value.id, username, password)
      ensures r.Ok? ==> r.value.id !in old(users) && users == old(users)[r.value.id := r.value]
      ensures r.Err? ==> r.error.DatabaseError? && users == old(users) && nextId == old(nextId)
      ensures groups == old(groups) && memberships == old(memberships)
    {
      var user := NewUser(nextId, username, password);
      if Admissible(users, user) {
        AdmissibleWriteKeepsTable(users, user);
        users := users[user.id := user];
        nextId := nextId + 1;
        r := Ok(user);
      } else {
        r := Err(DatabaseError("users: constraint violated on insert"));
      }
    }

    /** `deactivate_user`: clear `is_active` on that row, change nothing else, report true. */
    method DeactivateUser(user: User) returns (ok: bool)
      requires Valid() && user.id in users && users[user.id] == user
      modifies this
      ensures Valid() && ok
      ensures users == old(users)[user.id := user.(isActive := false)]
      ensures !user.isActive ==> users == old(users)
      ensures groups == old(groups) && memberships == old(memberships) && nextId == old(nextId)
    {
      var updated := user.(isActive := false);
      assert Admissible(users, updated);
      AdmissibleWriteKeepsTable(users, updated);
      users := users[user.id := updated];
      ok := true;
    }

    /**
     * `update_user`: set every supplied attribute whose value is not None, in argument order,
     * then flush. The flushed row is `Merged(user, kwargs)` and is what is returned, under the
     * same id; a row the constraints refuse leaves the table unchanged.
     */
    method UpdateUser(user: User, kwargs: seq<Kwarg>) returns (r: Result<User>)
      requires Valid() && user.id in users && users[user.id] == user
      modifies this
      ensures Valid()
      ensures r.Ok? <==> Admissible(old(users), Merged(user, kwargs))
      ensures r.Ok? ==> r.value == Merged(user, kwargs) && r.value.id == user.id
      ensures r.Ok? ==> users == old(users)[user.id := r.value]
      ensures r.Err? ==> r.error.DatabaseError? && users == old(users)
      ensures groups == old(groups) && memberships == old(memberships) && nextId == old(nextId)
    {
      var current := user;
      var i := 0;
      while i < |kwargs|
        invariant 0 <= i <= |kwargs|
        invariant current == Merged(user, kwargs[..i])
      {
        assert kwargs[..i + 1][..i] == kwargs[..i];
        var Kwarg(field, value) := kwargs[i];
        if value.Some? {
          current := SetAttr(current, field, value.value);
        }
        i := i + 1;
      }
      assert kwargs[..i] == kwargs;
      MergedFields(user, kwargs);
      if Admissible(users, current) {
        AdmissibleWriteKeepsTable(users, current);
        users := users[current.id := current];
        r := Ok(current);
      } else {
        r := Err(DatabaseError("users: constraint violated on update"));
      }
    }
  }
}
