/**
 * The tables of the authentication database: users, groups and the users_groups association,
 * with the column widths, uniqueness and foreign-key constraints the database enforces.
 */
module Models {
  import opened Wrappers

  datatype Role = UserRole | AdminRole

  const DefaultRole := UserRole

  const UsernameLength := 40
  const EmailLength := 100
  const PasswordLength := 100
  const GroupNameLength := 200

  /** A row of `users`. Timestamps are seconds; `password` holds the hash. */
  datatype User = User(
    id: int,
    username: string,
    email: Option<string>,
    password: string,
    role: Role,
    latestLogin: Option<int>,
    latestPasswordChange: Option<int>,
    isActive: bool)

  /** A row of `groups`. */
  datatype Group = Group(id: int, name: string)

  /** A row of `users_groups`: the pair (user, group) is the primary key. */
  datatype UserGroup = UserGroup(user: int, group: int)

  /**
   * The row the database stores for `User(username=..., password=...)` under primary key `id`:
   * every other column takes its default (role User, active, no email, no timestamps).
   */
  function NewUser(id: int, username: string, password: string): (u: User)
    ensures u.id == id && u.username == username && u.password == password
    ensures u.role == DefaultRole && u.isActive
    ensures u.email.None? && u.latestLogin.None? && u.latestPasswordChange.None?
  {
    User(id, username, None, password, DefaultRole, None, None, true)
  }

  /** The row fits its String(n) columns. */
  predicate RowFits(u: User) {
    && |u.username| <= UsernameLength
    && (u.email.Some? ==> |u.email.value| <= EmailLength)
    && |u.password| <= PasswordLength
  }

  /**
   * Writing row `u` under its own primary key keeps the table's constraints: the row fits its
   * columns, and no OTHER row has its username, or its email when it has one.
   */
  predicate Admissible(users: map<int, User>, u: User) {
    && RowFits(u)
    && (forall id :: id in users && id != u.id ==> users[id].username != u.username)
    && (forall id :: id in users && id != u.id && u.email.Some? ==> users[id].email != u.email)
  }

  /** The users table: keyed by primary key, every row fits, usernames unique, emails unique when present. */
  ghost predicate UsersTable(users: map<int, User>) {
    && (forall id :: id in users ==> users[id].id == id && RowFits(users[id]))
    && (forall i, j :: i in users && j in users && users[i].username == users[j].username ==> i == j)
    && (forall i, j :: i in users && j in users && users[i].email.Some? && users[i].email == users[j].email ==> i == j)
  }

  ghost predicate GroupsTable(groups: map<int, Group>) {
    forall id :: id in groups ==> groups[id].id == id && |groups[id].name| <= GroupNameLength
  }

  /** Both halves of every association refer to existing rows. */
  ghost predicate MembershipTable(memberships: set<UserGroup>, users: map<int, User>, groups: map<int, Group>) {
    forall m :: m in memberships ==> m.user in users && m.group in groups
  }

  /**
   * What the database's constraint check at flush buys: an admissible row written under its
   * key leaves a valid users table valid.
   */
  lemma AdmissibleWriteKeepsTable(users: map<int, User>, u: User)
    requires UsersTable(users) && Admissible(users, u)
    ensures UsersTable(users[u.id := u])
  {
  }

  /** In a valid table a username identifies at most one row. */
  lemma UsernameIsKey(users: map<int, User>, a: int, b: int)
    requires UsersTable(users) && a in users && b in users
    requires users[a].username == users[b].username
    ensures users[a] == users[b]
  {
  }
}
