/**
 * The records the server keeps (users and orders), the error kinds its
 * handlers answer with, the `find` lookups they perform, and the
 * invariant the user collection keeps from the seeded master admin on.
 */
module Records {
  import opened Wrappers
  import opened Text

  /** The one e-mail address that makes an account master admin. */
  const ADMIN_EMAIL: string := "rohanwest20@gmail.com"
  const ADMIN_PASSWORD: string := "Ewanandlam100"

  /** The status every new order starts in. */
  const PENDING: string := "pending"

  datatype User = User(id: string, email: string, password: string, isAdmin: bool, token: string)

  /** A user as the handlers reply with it: every field but the password. */
  datatype PublicUser = PublicUser(id: string, email: string, isAdmin: bool, token: string)

  /**
   * An order; `items` and `total` are the caller's payload, passed through
   * untouched, and `createdAt` is the clock reading taken at creation.
   */
  datatype Order<I, T> = Order(
    id: string, userId: string, userEmail: string,
    items: I, total: T, status: string, createdAt: int)

  datatype Error =
    | InvalidInput        // "Email and password required"
    | AlreadyExists       // "User already exists"
    | InvalidCredentials  // "Invalid credentials"
    | Unauthorized        // "Unauthorized. Admin access required."
    | Forbidden           // "Only the master admin can promote others."
    | NotFound            // "Order not found" / "User not found"

  /**
   * The HTTP status each error kind is answered with: every error is a
   * client error, and the codes separate bad input, bad credentials,
   * refused access and a missing record.
   */
  function HttpStatus(e: Error): (code: int)
    ensures code == 400 <==> e == InvalidInput || e == AlreadyExists
    ensures code == 401 <==> e == InvalidCredentials
    ensures code == 403 <==> e == Unauthorized || e == Forbidden
    ensures code == 404 <==> e == NotFound
  {
    match e
    case InvalidInput => 400
    case AlreadyExists => 400
    case InvalidCredentials => 401
    case Unauthorized => 403
    case Forbidden => 403
    case NotFound => 404
  }

  datatype Result<T> = Ok(value: T) | Err(error: Error)

  /** The object destructuring `{ password, ...rest }`. */
  function WithoutPassword(u: User): PublicUser {
    PublicUser(u.id, u.email, u.isAdmin, u.token)
  }

  // ---------------------------------------------------------------------
  // Lookups

  /** The predicates the handlers pass to `users.find`. */
  datatype UserQuery =
    | LowerEmailIs(email: string)                 // signup: u.email.toLowerCase() === e
    | Credentials(email: string, password: string) // login: u.email === e && u.password === p
    | AdminToken(token: string)                   // order status: u.token === t && u.isAdmin
    | MasterToken(token: string)                  // promote: u.token === t && u.email === ADMIN_EMAIL
    | IdIs(id: string)                            // promote target: u.id === id

  predicate Matches(u: User, q: UserQuery) {
    match q
    case LowerEmailIs(e) => Lower(u.email) == e
    case Credentials(e, p) => u.email == e && u.password == p
    case AdminToken(t) => u.token == t && u.isAdmin
    case MasterToken(t) => u.token == t && u.email == ADMIN_EMAIL
    case IdIs(id) => u.id == id
  }

  /** The index of the user `users.find` returns for `q`, if any. */
  function FirstMatch(users: seq<User>, q: UserQuery): (r: Option<nat>)
    ensures r.Some? ==> r.value < |users| && Matches(users[r.value], q)
    ensures r.Some? ==> forall j | 0 <= j < r.value :: !Matches(users[j], q)
    ensures r.None? <==> forall j | 0 <= j < |users| :: !Matches(users[j], q)
  {
    if |users| == 0 then None
    else if Matches(users[0], q) then Some(0)
    else match FirstMatch(users[1..], q)
      case None => None
      case Some(k) => Some(k + 1)
  }

  /** The index of the order `orders.find(o => o.id === id)` returns, if any. */
  function FirstOrder<I, T>(orders: seq<Order<I, T>>, id: string): (r: Option<nat>)
    ensures r.Some? ==> r.value < |orders| && orders[r.value].id == id
    ensures r.Some? ==> forall j | 0 <= j < r.value :: orders[j].id != id
    ensures r.None? <==> forall j | 0 <= j < |orders| :: orders[j].id != id
  {
    if |orders| == 0 then None
    else if orders[0].id == id then Some(0)
    else match FirstOrder(orders[1..], id)
      case None => None
      case Some(k) => Some(k + 1)
  }

  /** `users.find(...)` as the linear scan it is. */
  method FindUser(users: seq<User>, q: UserQuery) returns (r: Option<nat>)
    ensures r == FirstMatch(users, q)
  {
    var i := 0;
    while i < |users|
      invariant 0 <= i <= |users|
      invariant forall j | 0 <= j < i :: !Matches(users[j], q)
    {
      if Matches(users[i], q) {
        return Some(i);
      }
      i := i + 1;
    }
    return None;
  }

  /** `orders.find(o => o.id === id)` as the linear scan it is. */
  method FindOrder<I, T>(orders: seq<Order<I, T>>, id: string) returns (r: Option<nat>)
    ensures r == FirstOrder(orders, id)
  {
    var i := 0;
    while i < |orders|
      invariant 0 <= i <= |orders|
      invariant forall j | 0 <= j < i :: orders[j].id != id
    {
      if orders[i].id == id {
        return Some(i);
      }
      i := i + 1;
    }
    return None;
  }

  // ---------------------------------------------------------------------
  // The user invariant

  /** Some user's lower-cased e-mail is `e`: the duplicate test of signup. */
  ghost predicate EmailTaken(users: seq<User>, e: string) {
    exists i | 0 <= i < |users| :: Lower(users[i].email) == e
  }

  /** Some user has exactly this e-mail and password: the login test. */
  ghost predicate HasCredentials(users: seq<User>, e: string, p: string) {
    exists i | 0 <= i < |users| :: users[i].email == e && users[i].password == p
  }

  /** A presented token belongs to a user with `isAdmin`. */
  ghost predicate IsAdminToken(users: seq<User>, token: Option<string>) {
    token.Some? && exists i | 0 <= i < |users| :: users[i].token == token.value && users[i].isAdmin
  }

  /** A presented token belongs to the user whose e-mail is `ADMIN_EMAIL`. */
  ghost predicate IsMasterToken(users: seq<User>, token: Option<string>) {
    token.Some? && exists i | 0 <= i < |users| :: users[i].token == token.value && users[i].email == ADMIN_EMAIL
  }

  ghost predicate IdUnused(users: seq<User>, id: string) {
    forall i | 0 <= i < |users| :: users[i].id != id
  }

  ghost predicate TokenUnused(users: seq<User>, token: string) {
    forall i | 0 <= i < |users| :: users[i].token != token
  }

  ghost predicate OrderIdUnused<I, T>(orders: seq<Order<I, T>>, id: string) {
    forall i | 0 <= i < |orders| :: orders[i].id != id
  }

  ghost predicate LowerEmailsDistinct(users: seq<User>) {
    forall i, j | 0 <= i < j < |users| :: Lower(users[i].email) != Lower(users[j].email)
  }

  ghost predicate IdsDistinct(users: seq<User>) {
    forall i, j | 0 <= i < j < |users| :: users[i].id != users[j].id
  }

  ghost predicate TokensDistinct(users: seq<User>) {
    forall i, j | 0 <= i < j < |users| :: users[i].token != users[j].token
  }

  ghost predicate OrderIdsDistinct<I, T>(orders: seq<Order<I, T>>) {
    forall i, j | 0 <= i < j < |orders| :: orders[i].id != orders[j].id
  }

  /** The seeded master admin is still first, with its e-mail, password and `isAdmin`. */
  ghost predicate Seeded(users: seq<User>) {
    |users| >= 1 && users[0].email == ADMIN_EMAIL && users[0].password == ADMIN_PASSWORD
    && users[0].isAdmin
  }

  /**
   * What every reachable user collection satisfies: the seed is in place
   * and lower-cased e-mails, ids and tokens are pairwise distinct.
   */
  ghost predicate UsersInvariant(users: seq<User>) {
    Seeded(users) && LowerEmailsDistinct(users) && IdsDistinct(users) && TokensDistinct(users)
  }

  /** `user.token = t` on the user at index `k`. */
  function SetToken(users: seq<User>, k: nat, t: string): (r: seq<User>)
    requires k < |users|
    ensures |r| == |users|
    ensures forall i | 0 <= i < |users| && i != k :: r[i] == users[i]
    ensures r[k].token == t && r[k].(token := users[k].token) == users[k]
  {
    users[k := users[k].(token := t)]
  }

  /** `user.isAdmin = true` on the user at index `k`. */
  function Promote(users: seq<User>, k: nat): (r: seq<User>)
    requires k < |users|
    ensures |r| == |users|
    ensures forall i | 0 <= i < |users| && i != k :: r[i] == users[i]
    ensures r[k].isAdmin && r[k].(isAdmin := users[k].isAdmin) == users[k]
  {
    users[k := users[k].(isAdmin := true)]
  }

  /** `order.status = s` on the order at index `k`. */
  function SetStatus<I, T>(orders: seq<Order<I, T>>, k: nat, s: string): (r: seq<Order<I, T>>)
    requires k < |orders|
    ensures |r| == |orders|
    ensures forall i | 0 <= i < |orders| && i != k :: r[i] == orders[i]
    ensures r[k].status == s && r[k].(status := orders[k].status) == orders[k]
  {
    orders[k := orders[k].(status := s)]
  }

  // ---------------------------------------------------------------------
  // Lemmas

  /** The master e-mail is already in lower case, so lower-casing keeps it. */
  lemma AdminEmailIsLower()
    ensures NoUpper(ADMIN_EMAIL)
    ensures Lower(ADMIN_EMAIL) == ADMIN_EMAIL
  {
    assert ADMIN_EMAIL == ['r', 'o', 'h', 'a', 'n', 'w', 'e', 's', 't', '2', '0', '@',
                           'g', 'm', 'a', 'i', 'l', '.', 'c', 'o', 'm'];
  }

  /** Normalising the master e-mail gives it back unchanged. */
  lemma AdminEmailIsNormal()
    ensures Normalise(ADMIN_EMAIL) == ADMIN_EMAIL
  {
    AdminEmailIsLower();
    TrimOfTrimmed(ADMIN_EMAIL);
  }

  /** In every reachable state, signup's duplicate test finds the seed for the master e-mail. */
  lemma AdminEmailAlwaysTaken(users: seq<User>)
    requires Seeded(users)
    ensures FirstMatch(users, LowerEmailIs(ADMIN_EMAIL)) == Some(0)
  {
    AdminEmailIsLower();
  }

  /** Only the seeded account carries the master e-mail. */
  lemma OnlySeedHasAdminEmail(users: seq<User>, i: nat)
    requires UsersInvariant(users)
    requires i < |users| && users[i].email == ADMIN_EMAIL
    ensures i == 0
  {
  }

  /** Only the seeded account can pass the promote check, and it passes with its current token. */
  lemma OnlySeedCanPromote(users: seq<User>, t: string)
    requires UsersInvariant(users)
    ensures FirstMatch(users, MasterToken(t)) == (if users[0].token == t then Some(0) else None)
  {
  }

  /** The seeded account can always log in with the configured credentials. */
  lemma SeedCanLogIn(users: seq<User>)
    requires Seeded(users)
    ensures FirstMatch(users, Credentials(Normalise(ADMIN_EMAIL), ADMIN_PASSWORD)) == Some(0)
  {
    AdminEmailIsNormal();
  }

  /** Login's search succeeds exactly when some user has the credentials. */
  lemma CredentialsFound(users: seq<User>, e: string, p: string)
    ensures FirstMatch(users, Credentials(e, p)).Some? <==> HasCredentials(users, e, p)
  {
  }

  /** Stored e-mails are normalised, so at most one user can have given credentials. */
  lemma CredentialsOwnerUnique(users: seq<User>, e: string, p: string, i: nat, j: nat)
    requires LowerEmailsDistinct(users)
    requires i < |users| && j < |users|
    requires Matches(users[i], Credentials(e, p)) && Matches(users[j], Credentials(e, p))
    ensures i == j
  {
  }

  /** Appending a fresh account under an unused normalised e-mail keeps the invariant. */
  lemma AppendKeepsInvariant(users: seq<User>, u: User)
    requires UsersInvariant(users)
    requires Lower(u.email) == u.email && !EmailTaken(users, u.email)
    requires IdUnused(users, u.id) && TokenUnused(users, u.token)
    ensures UsersInvariant(users + [u])
  {
  }

  /** Rotating one user's token to an unused value keeps the invariant. */
  lemma SetTokenKeepsInvariant(users: seq<User>, k: nat, t: string)
    requires UsersInvariant(users) && k < |users|
    requires TokenUnused(users, t)
    ensures UsersInvariant(SetToken(users, k, t))
  {
  }

  /** After a rotation no user holds the previous token any more. */
  lemma RotatedTokenRevoked(users: seq<User>, k: nat, t: string, i: nat)
    requires TokensDistinct(users) && k < |users| && i < |users|
    requires TokenUnused(users, t)
    ensures SetToken(users, k, t)[i].token != users[k].token
  {
  }

  /** Promoting keeps the invariant. */
  lemma PromoteKeepsInvariant(users: seq<User>, k: nat)
    requires UsersInvariant(users) && k < |users|
    ensures UsersInvariant(Promote(users, k))
  {
  }

  /** Promoting an account that is already admin changes nothing. */
  lemma PromoteIdempotent(users: seq<User>, k: nat)
    requires k < |users|
    ensures Promote(Promote(users, k), k) == Promote(users, k)
    ensures users[k].isAdmin ==> Promote(users, k) == users
  {
  }
}
