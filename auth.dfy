/**
 * The authentication context: the provider's state (`user`, `isLoading`)
 * over the browser storage, its transitions `checkAuth`, `login` and
 * `logout`, and the permission queries built on the current user.
 */
module Auth {
  import opened Wrappers
  import opened Types
  import Jwt
  import Client

  // ---------------------------------------------------------------------
  // From decoded claims to a user

  /** ADMIN when the claim is exactly the string of the ADMIN role, USER otherwise (a missing claim included). */
  function RoleFromClaim(claim: Option<Jwt.Json>): UserRole
  {
    if claim == Some(Jwt.JString(RoleName(ADMIN))) then ADMIN else USER
  }

  /** The claim under `key` when the decoded value is an object that has it. */
  function Claim(members: map<string, Jwt.Json>, key: string): Option<Jwt.Json>
  {
    if key in members then Some(members[key]) else None
  }

  predicate IsStringClaim(claim: Option<Jwt.Json>)
  {
    claim.Some? && claim.value.JString?
  }

  /**
   * The user the provider builds from `decodeJWT`'s result. Only an object can
   * carry string `userId` and `userLogin` properties: `null` and the other
   * falsy values fail the first test, and reading a property of a number, a
   * string, a boolean or an array yields `undefined`.
   */
  function UserFromClaims(decoded: Option<Jwt.Json>): Option<User>
  {
    match decoded
    case Some(JObject(m)) =>
      if IsStringClaim(Claim(m, "userId")) && IsStringClaim(Claim(m, "userLogin")) then
        var email := Claim(m, "userEmail");
        Some(User(
          Claim(m, "userId").value.s,
          Claim(m, "userLogin").value.s,
          if IsStringClaim(email) then email.value.s else "",
          RoleFromClaim(Claim(m, "userRole"))))
      else None
    case _ => None
  }

  /** A user is built exactly from the claims named in the source, with the stated defaults. */
  lemma UserFromClaimsFields(m: map<string, Jwt.Json>)
    ensures UserFromClaims(Some(Jwt.JObject(m))).Some? <==>
      ("userId" in m && m["userId"].JString? && "userLogin" in m && m["userLogin"].JString?)
    ensures UserFromClaims(Some(Jwt.JObject(m))).Some? ==>
      var u := UserFromClaims(Some(Jwt.JObject(m))).value;
      u.id == m["userId"].s &&
      u.login == m["userLogin"].s &&
      u.email == (if "userEmail" in m && m["userEmail"].JString? then m["userEmail"].s else "") &&
      (u.role == ADMIN <==> "userRole" in m && m["userRole"] == Jwt.JString("ADMIN"))
  {
  }

  /** No value that is not a JSON object yields a user. */
  lemma NonObjectYieldsNoUser(decoded: Option<Jwt.Json>)
    requires decoded.None? || !decoded.value.JObject?
    ensures UserFromClaims(decoded) == None
  {
  }

  /** The claims a token for `u` carries. */
  function ClaimsOf(u: User): map<string, Jwt.Json>
  {
    map["userId" := Jwt.JString(u.id), "userLogin" := Jwt.JString(u.login),
        "userEmail" := Jwt.JString(u.email), "userRole" := Jwt.JString(RoleName(u.role))]
  }

  /** Reading the claims of a user gives back that user. */
  lemma ClaimsRoundTrip(u: User)
    ensures UserFromClaims(Some(Jwt.JObject(ClaimsOf(u)))) == Some(u)
  {
    var m := ClaimsOf(u);
    assert Claim(m, "userRole") == Some(Jwt.JString(RoleName(u.role)));
    match u.role
    case USER => assert RoleName(u.role) == "USER" != "ADMIN";
    case ADMIN =>
  }

  /** Claims other than the four read are ignored. */
  lemma OtherClaimsIgnored(m1: map<string, Jwt.Json>, m2: map<string, Jwt.Json>)
    requires forall k :: k in {"userId", "userLogin", "userEmail", "userRole"} ==> Claim(m1, k) == Claim(m2, k)
    ensures UserFromClaims(Some(Jwt.JObject(m1))) == UserFromClaims(Some(Jwt.JObject(m2)))
  {
    assert Claim(m1, "userId") == Claim(m2, "userId");
    assert Claim(m1, "userLogin") == Claim(m2, "userLogin");
    assert Claim(m1, "userEmail") == Claim(m2, "userEmail");
    assert Claim(m1, "userRole") == Claim(m2, "userRole");
  }

  // ---------------------------------------------------------------------
  // The provider's state and its transitions, as functions

  /** The provider state together with the browser storage it works over. */
  datatype Session = Session(user: Option<User>, isLoading: bool, items: map<string, string>)

  function Initial(items: map<string, string>): Session
  {
    Session(None, true, items)
  }

  /**
   * `checkAuth`: read the stored token; if it is truthy, write it back, decode
   * it and either adopt the user or remove the token (twice: `removeItem` and
   * `setAuthToken()`); in every case clear `isLoading`.
   */
  function CheckAuthStep(p: Jwt.Primitives, s: Session): Session
  {
    var token := Client.StoredToken(s.items);
    if !Client.Truthy(token) then s.(isLoading := false)
    else
      var items := Client.StoreToken(s.items, token);
      match UserFromClaims(Jwt.DecodeJwt(p, token.value))
      case Some(u) => Session(Some(u), false, items)
      case None => Session(s.user, false, Client.StoreToken(items - {Client.AccessTokenKey}, None))
  }

  /** `login(token)`: `setAuthToken(token)`, then `checkAuth`. */
  function LoginStep(p: Jwt.Primitives, s: Session, token: string): Session
  {
    CheckAuthStep(p, s.(items := Client.StoreToken(s.items, Some(token))))
  }

  /** `logout`: remove the stored token, then set the user to absent. */
  function LogoutStep(s: Session): Session
  {
    Session(None, s.isLoading, Client.StoreToken(s.items, None))
  }

  /** The user a stored token stands for, if it is truthy and its claims are complete. */
  function TokenUser(p: Jwt.Primitives, items: map<string, string>): Option<User>
  {
    var token := Client.StoredToken(items);
    if Client.Truthy(token) then UserFromClaims(Jwt.DecodeJwt(p, token.value)) else None
  }

  /** Whatever happens, `checkAuth` ends with loading finished. */
  lemma CheckAuthFinishesLoading(p: Jwt.Primitives, s: Session)
    ensures !CheckAuthStep(p, s).isLoading
  {
  }

  /** A token whose claims yield a user: that user is adopted and the storage is kept. */
  lemma CheckAuthAdoptsUser(p: Jwt.Primitives, s: Session, u: User)
    requires TokenUser(p, s.items) == Some(u)
    ensures CheckAuthStep(p, s) == Session(Some(u), false, s.items)
  {
    Client.RewriteStoredToken(s.items);
  }

  /**
   * A truthy token that does not decode to a user is removed, and the previous
   * user, if any, is kept.
   */
  lemma CheckAuthDropsBadToken(p: Jwt.Primitives, s: Session)
    requires Client.Truthy(Client.StoredToken(s.items))
    requires TokenUser(p, s.items) == None
    ensures CheckAuthStep(p, s) == Session(s.user, false, s.items - {Client.AccessTokenKey})
  {
    Client.RewriteStoredToken(s.items);
  }

  /** Without a truthy token, neither the user nor the storage changes. */
  lemma CheckAuthWithoutToken(p: Jwt.Primitives, s: Session)
    requires !Client.Truthy(Client.StoredToken(s.items))
    ensures CheckAuthStep(p, s) == s.(isLoading := false)
  {
  }

  /** A user is set only from a token whose claims yield exactly that user. */
  lemma CheckAuthUserSource(p: Jwt.Primitives, s: Session)
    ensures CheckAuthStep(p, s).user == s.user || CheckAuthStep(p, s).user == TokenUser(p, s.items)
    ensures CheckAuthStep(p, s).user != s.user ==> TokenUser(p, s.items).Some?
  {
  }

  /** `checkAuth` only ever touches the `accessToken` entry. */
  lemma CheckAuthOtherKeys(p: Jwt.Primitives, s: Session, key: string)
    requires key != Client.AccessTokenKey
    ensures Client.Lookup(CheckAuthStep(p, s).items, key) == Client.Lookup(s.items, key)
  {
  }

  /** Running `checkAuth` a second time changes nothing. */
  lemma CheckAuthIdempotent(p: Jwt.Primitives, s: Session)
    ensures CheckAuthStep(p, CheckAuthStep(p, s)) == CheckAuthStep(p, s)
  {
    var token := Client.StoredToken(s.items);
    if Client.Truthy(token) {
      match TokenUser(p, s.items)
      case Some(u) =>
        CheckAuthAdoptsUser(p, s, u);
        CheckAuthAdoptsUser(p, CheckAuthStep(p, s), u);
      case None =>
        CheckAuthDropsBadToken(p, s);
    }
  }

  /** `login("")` removes the token and keeps the user. */
  lemma LoginEmptyToken(p: Jwt.Primitives, s: Session)
    ensures LoginStep(p, s, "") == Session(s.user, false, s.items - {Client.AccessTokenKey})
  {
  }

  /** `login(t)` with a token whose claims are complete stores `t` and adopts its user. */
  lemma LoginValidToken(p: Jwt.Primitives, s: Session, token: string, u: User)
    requires token != ""
    requires UserFromClaims(Jwt.DecodeJwt(p, token)) == Some(u)
    ensures LoginStep(p, s, token) == Session(Some(u), false, s.items[Client.AccessTokenKey := token])
  {
    var s1 := s.(items := Client.StoreToken(s.items, Some(token)));
    assert TokenUser(p, s1.items) == Some(u);
    CheckAuthAdoptsUser(p, s1, u);
  }

  /** `login(t)` with a token that yields no user leaves no token and keeps the previous user. */
  lemma LoginInvalidToken(p: Jwt.Primitives, s: Session, token: string)
    requires UserFromClaims(Jwt.DecodeJwt(p, token)) == None
    ensures LoginStep(p, s, token) == Session(s.user, false, s.items - {Client.AccessTokenKey})
  {
    var s1 := s.(items := Client.StoreToken(s.items, Some(token)));
    if token != "" {
      CheckAuthDropsBadToken(p, s1);
      assert s1.items - {Client.AccessTokenKey} == s.items - {Client.AccessTokenKey};
    }
  }

  /**
   * From an anonymous session, `login(t)` authenticates exactly when `t` is
   * non-empty and its claims yield a user.
   */
  lemma LoginFromAnonymous(p: Jwt.Primitives, s: Session, token: string)
    requires s.user == None
    ensures LoginStep(p, s, token).user.Some? <==>
      token != "" && UserFromClaims(Jwt.DecodeJwt(p, token)).Some?
  {
    if token == "" {
      LoginEmptyToken(p, s);
    } else {
      match UserFromClaims(Jwt.DecodeJwt(p, token))
      case Some(u) => LoginValidToken(p, s, token, u);
      case None => LoginInvalidToken(p, s, token);
    }
  }

  /** `logout` leaves no user and no token, keeps `isLoading`, and is idempotent. */
  lemma LogoutClears(s: Session)
    ensures LogoutStep(s).user == None
    ensures Client.StoredToken(LogoutStep(s).items) == None
    ensures LogoutStep(s).items == s.items - {Client.AccessTokenKey}
    ensures LogoutStep(s).isLoading == s.isLoading
    ensures LogoutStep(LogoutStep(s)) == LogoutStep(s)
  {
  }

  /**
   * A user kept through a failed revalidation outlives its token: after
   * `checkAuth` on a token without any `.`, the user is present while the
   * storage holds no token.
   */
  lemma StaleUserAfterFailedCheck(p: Jwt.Primitives, u: User, items: map<string, string>, token: string)
    requires token != "" && '.' !in token
    ensures var s' := CheckAuthStep(p, Session(Some(u), false, items[Client.AccessTokenKey := token]));
      s'.user == Some(u) && Client.StoredToken(s'.items) == None
  {
    var s := Session(Some(u), false, items[Client.AccessTokenKey := token]);
    Jwt.NoSeparatorYieldsNull(p, token);
    CheckAuthDropsBadToken(p, s);
  }

  // ---------------------------------------------------------------------
  // Queries over the current user

  predicate IsAuthenticated(user: Option<User>)
  {
    user.Some?
  }

  /** A user is present and holds `role`. */
  predicate HasRole(user: Option<User>, role: UserRole)
  {
    user.Some? && user.value.role == role
  }

  /** A user is present and their login is the literal `admin`. */
  predicate IsAdmin(user: Option<User>)
  {
    user.Some? && user.value.login == "admin"
  }

  predicate CanCreateBlog(user: Option<User>)
  {
    IsAdmin(user)
  }

  predicate CanCreatePost(user: Option<User>)
  {
    IsAdmin(user)
  }

  /** The queries on an absent user are all false. */
  lemma AnonymousHasNoRights(role: UserRole)
    ensures !IsAuthenticated(None) && !HasRole(None, role) && !IsAdmin(None)
    ensures !CanCreateBlog(None) && !CanCreatePost(None)
  {
  }

  /** Holding a role, or being the administrator, implies being authenticated. */
  lemma RightsNeedAuthentication(user: Option<User>, role: UserRole)
    ensures HasRole(user, role) ==> IsAuthenticated(user)
    ensures IsAdmin(user) ==> IsAuthenticated(user)
    ensures CanCreateBlog(user) == IsAdmin(user) && CanCreatePost(user) == IsAdmin(user)
  {
  }

  /** An authenticated user has exactly one of the two roles. */
  lemma ExactlyOneRole(u: User)
    ensures HasRole(Some(u), USER) != HasRole(Some(u), ADMIN)
  {
  }

  /** Administrator status depends on the login only, never on the role. */
  lemma AdminIgnoresRole(u: User, role: UserRole)
    ensures IsAdmin(Some(u.(role := role))) == IsAdmin(Some(u))
  {
  }

  /** The role claim and administrator status are independent of each other. */
  lemma AdminAndRoleDisagree()
    ensures IsAdmin(Some(User("u1", "admin", "", USER))) && !HasRole(Some(User("u1", "admin", "", USER)), ADMIN)
    ensures !IsAdmin(Some(User("u2", "root", "", ADMIN))) && HasRole(Some(User("u2", "root", "", ADMIN)), ADMIN)
  {
  }

  /**
   * A token whose claims are `userId` "u1", `userLogin` "admin" and `userRole`
   * "ADMIN" is restored as that administrator, with an empty email.
   */
  lemma AdminTokenScenario(p: Jwt.Primitives, s: Session)
    requires Client.Truthy(Client.StoredToken(s.items))
    requires Jwt.DecodeJwt(p, Client.StoredToken(s.items).value) ==
      Some(Jwt.JObject(map["userId" := Jwt.JString("u1"), "userLogin" := Jwt.JString("admin"),
                           "userRole" := Jwt.JString("ADMIN")]))
    ensures CheckAuthStep(p, s).user == Some(User("u1", "admin", "", ADMIN))
    ensures IsAdmin(CheckAuthStep(p, s).user)
  {
    var u := User("u1", "admin", "", ADMIN);
    assert TokenUser(p, s.items) == Some(u);
    CheckAuthAdoptsUser(p, s, u);
  }

  // ---------------------------------------------------------------------
  // The provider itself

  /** `AuthProvider`: the React state `user` and `isLoading` over the browser storage. */
  class AuthProvider {
    var user: Option<User>
    var isLoading: bool
    const storage: Client.Storage
    const primitives: Jwt.Primitives

    function State(): Session
      reads this, storage
    {
      Session(user, isLoading, storage.items)
    }

    /** Mounting the provider: no user yet, loading. */
    constructor (storage: Client.Storage, primitives: Jwt.Primitives)
      ensures this.storage == storage && this.primitives == primitives
      ensures State() == Initial(storage.items)
    {
      this.storage := storage;
      this.primitives := primitives;
      user := None;
      isLoading := true;
    }

    method CheckAuth()
      modifies this, storage
      ensures State() == CheckAuthStep(primitives, old(State()))
    {
      var token := storage.GetItem(Client.AccessTokenKey);
      if Client.Truthy(token) {
        Client.SetAuthToken(storage, token);
        var decoded := Jwt.DecodeJwt(primitives, token.value);
        var claims := UserFromClaims(decoded);
        if claims.Some? {
          user := claims;
        } else {
          storage.RemoveItem(Client.AccessTokenKey);
          Client.SetAuthToken(storage, None);
        }
      }
      isLoading := false;
    }

    method Login(token: string)
      modifies this, storage
      ensures State() == LoginStep(primitives, old(State()), token)
    {
      Client.SetAuthToken(storage, Some(token));
      CheckAuth();
    }

    method Logout()
      modifies this, storage
      ensures State() == LogoutStep(old(State()))
    {
      Client.SetAuthToken(storage, None);
      user := None;
    }
  }
}
