/**
 * The server's in-memory database and its route handlers, without the
 * HTTP layer: each handler is a method on the store that mutates `users`
 * and `orders` in place and answers with a `Result`.  Fresh ids and tokens
 * (`crypto.randomUUID`, `generateToken`) and the clock (`new Date()`) are
 * passed in by the caller.
 */
module Server {
  import opened Wrappers
  import opened Text
  import opened Records

  class Store<I, T> {
    var users: seq<User>
    var orders: seq<Order<I, T>>

    ghost predicate Valid()
      reads this
    {
      UsersInvariant(users) && OrderIdsDistinct(orders)
    }

    /** The database as the server starts it: the master admin account and no orders. */
    constructor (adminId: string, adminToken: string)
      ensures Valid()
      ensures users == [User(adminId, ADMIN_EMAIL, ADMIN_PASSWORD, true, adminToken)]
      ensures orders == []
    {
      users := [User(adminId, ADMIN_EMAIL, ADMIN_PASSWORD, true, adminToken)];
      orders := [];
    }

    /**
     * POST /signup.  Empty e-mail or password: InvalidInput.  A user whose
     * lower-cased e-mail equals the normalised one: AlreadyExists.
     * Otherwise a new user is appended and returned without its password.
     * Because the seed holds the master e-mail, signup never creates an admin.
     */
    method Signup(email: string, password: string, freshId: string, freshToken: string)
      returns (r: Result<PublicUser>)
      requires Valid()
      requires IdUnused(users, freshId) && TokenUnused(users, freshToken)
      modifies this
      ensures Valid() && orders == old(orders)
      ensures email == "" || password == "" ==> r == Err(InvalidInput) && users == old(users)
      ensures email != "" && password != "" && EmailTaken(old(users), Normalise(email)) ==>
        r == Err(AlreadyExists) && users == old(users)
      ensures email != "" && password != "" && !EmailTaken(old(users), Normalise(email)) ==>
        var u := User(freshId, Normalise(email), password, Normalise(email) == ADMIN_EMAIL, freshToken);
        users == old(users) + [u] && r == Ok(WithoutPassword(u))
      ensures r.Ok? ==> !r.value.isAdmin
    {
      if email == "" || password == "" {
        return Err(InvalidInput);
      }
      var normalised := Normalise(email);
      NormalisedIsNormal(email);
      var existing := FindUser(users, LowerEmailIs(normalised));
      if existing.Some? {
        return Err(AlreadyExists);
      }
      AdminEmailAlwaysTaken(users);
      var u := User(freshId, normalised, password, normalised == ADMIN_EMAIL, freshToken);
      AppendKeepsInvariant(users, u);
      users := users + [u];
      return Ok(WithoutPassword(u));
    }

    /**
     * POST /login.  Succeeds exactly when the search finds a user with the
     * normalised e-mail (compared as stored) and the password, which by
     * `CredentialsFound` is when some user has them; that user's token is
     * rotated to the fresh one and nothing else changes.
     */
    method Login(email: string, password: string, freshToken: string)
      returns (r: Result<PublicUser>)
      requires Valid()
      requires TokenUnused(users, freshToken)
      modifies this
      ensures Valid() && orders == old(orders)
      ensures match FirstMatch(old(users), Credentials(Normalise(email), password))
        case None => r == Err(InvalidCredentials) && users == old(users)
        case Some(k) =>
          users == SetToken(old(users), k, freshToken)
          && r == Ok(WithoutPassword(users[k])) && r.value.token == freshToken
    {
      var normalised := Normalise(email);
      var found := FindUser(users, Credentials(normalised, password));
      if found.None? {
        return Err(InvalidCredentials);
      }
      var k := found.value;
      SetTokenKeepsInvariant(users, k, freshToken);
      users := SetToken(users, k, freshToken);
      r := Ok(WithoutPassword(users[k]));
    }

    /** POST /orders.  Always appends one pending order carrying the caller's payload. */
    method CreateOrder(userId: string, userEmail: string, items: I, total: T,
                       freshId: string, createdAt: int)
      returns (o: Order<I, T>)
      requires Valid()
      requires OrderIdUnused(orders, freshId)
      modifies this
      ensures Valid() && users == old(users)
      ensures o == Order(freshId, userId, userEmail, items, total, PENDING, createdAt)
      ensures orders == old(orders) + [o]
    {
      o := Order(freshId, userId, userEmail, items, total, PENDING, createdAt);
      orders := orders + [o];
    }

    /**
     * PATCH /orders/:id.  The token taken from the Authorization header
     * must belong to a user with `isAdmin` (Unauthorized otherwise); the
     * order must exist (NotFound otherwise); then its status, and nothing
     * else, is overwritten.
     */
    method SetOrderStatus(authorization: Option<string>, id: string, status: string)
      returns (r: Result<Order<I, T>>)
      requires Valid()
      modifies this
      ensures Valid() && users == old(users)
      ensures !IsAdminToken(old(users), BearerToken(authorization)) ==>
        r == Err(Unauthorized) && orders == old(orders)
      ensures IsAdminToken(old(users), BearerToken(authorization)) ==>
        match FirstOrder(old(orders), id)
        case None => r == Err(NotFound) && orders == old(orders)
        case Some(k) =>
          orders == SetStatus(old(orders), k, status) && r == Ok(orders[k])
          && r.value.status == status
    {
      var token := BearerToken(authorization);
      if token.None? {
        return Err(Unauthorized);
      }
      var admin := FindUser(users, AdminToken(token.value));
      if admin.None? {
        return Err(Unauthorized);
      }
      var found := FindOrder(orders, id);
      if found.None? {
        return Err(NotFound);
      }
      var k := found.value;
      orders := SetStatus(orders, k, status);
      return Ok(orders[k]);
    }

    /** GET /admin/orders: every order, in creation order. */
    method ListOrders() returns (os: seq<Order<I, T>>)
      ensures os == orders
    {
      os := orders;
    }

    /** GET /admin/users: every user, in creation order, with the password removed. */
    method ListUsers() returns (us: seq<PublicUser>)
      ensures |us| == |users|
      ensures forall i | 0 <= i < |us| :: us[i] == WithoutPassword(users[i])
    {
      us := seq(|users|, i requires 0 <= i < |users| reads this => WithoutPassword(users[i]));
    }

    /**
     * POST /admin/users/:id/promote.  The token must belong to the user
     * whose e-mail is the master e-mail (Forbidden otherwise, however many
     * admins exist); the target must exist (NotFound otherwise); then its
     * `isAdmin` becomes true and nothing else changes.
     */
    method PromoteUser(authorization: Option<string>, id: string) returns (r: Result<()>)
      requires Valid()
      modifies this
      ensures Valid() && orders == old(orders)
      ensures !IsMasterToken(old(users), BearerToken(authorization)) ==>
        r == Err(Forbidden) && users == old(users)
      ensures IsMasterToken(old(users), BearerToken(authorization)) ==>
        match FirstMatch(old(users), IdIs(id))
        case None => r == Err(NotFound) && users == old(users)
        case Some(k) => r == Ok(()) && users == Promote(old(users), k) && users[k].isAdmin
      ensures IsMasterToken(old(users), BearerToken(authorization)) <==>
        BearerToken(authorization) == Some(old(users)[0].token)
    {
      var token := BearerToken(authorization);
      if token.Some? {
        OnlySeedCanPromote(users, token.value);
      }
      if token.None? {
        return Err(Forbidden);
      }
      var master := FindUser(users, MasterToken(token.value));
      if master.None? {
        return Err(Forbidden);
      }
      var target := FindUser(users, IdIs(id));
      if target.None? {
        return Err(NotFound);
      }
      PromoteKeepsInvariant(users, target.value);
      users := Promote(users, target.value);
      return Ok(());
    }
  }
}
