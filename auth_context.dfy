/** The frontend's authentication state (frontend/src/contexts/AuthContext.tsx): the
    signed-in user and token, their copies in the browser's storage, and the page the
    provider navigates to. The provider is an object whose fields its methods set; the
    storage is a map from key to text, the navigations are the list of pushed routes,
    and the HTTP calls and the JSON codec are parameters. */
module AuthContext {
  import opened Common

  const TOKEN_KEY: string := "token"
  const USER_KEY: string := "user"
  const LOGIN_ROUTE: string := "/auth/login"

  datatype User = User(id: int, email: string, role: string)

  /** The answer of the login or register endpoint: the token and user, or the failure
      with the server's `error` text ('' when it has none). */
  datatype Answer = Accepted(token: string, user: User) | Refused(serverError: string)

  /** Where login and register send a user of each role (lines 92-107). */
  function RouteFor(role: string): (r: string)
    ensures role == ADMIN ==> r == "/admin"
    ensures role == HR ==> r == "/hr"
    ensures role == MANAGER ==> r == "/manager"
    ensures role !in {ADMIN, HR, MANAGER} ==> r == "/employee"
  {
    if role == ADMIN then "/admin"
    else if role == HR then "/hr"
    else if role == MANAGER then "/manager"
    else "/employee"
  }

  class AuthProvider {
    var storage: map<string, string>
    var user: Option<User>
    var token: Option<string>
    var isLoading: bool
    var routes: seq<string>

    /** A provider on a page whose storage holds `stored`. */
    constructor (stored: map<string, string>)
      ensures storage == stored && user.None? && token.None? && isLoading && routes == []
    {
      storage := stored;
      user := None;
      token := None;
      isLoading := true;
      routes := [];
    }

    /** `!!user && !!token` (line 183): an empty token does not count. */
    predicate IsAuthenticated()
      reads this
    {
      user.Some? && token.Some? && token.value != ""
    }

    /** `hasRole` (lines 168-172), with a single role passed as a one-element list. */
    function HasRole(roles: seq<string>): (r: bool)
      reads this
      ensures user.None? ==> !r
      ensures user.Some? ==> (r <==> user.value.role in roles)
    {
      user.Some? && user.value.role in roles
    }

    /** The mount effect (lines 49-64): with both stored values non-empty the token is
        taken and the user parsed; a user that does not parse (`parse` gives None) makes
        both keys leave the storage, after the token has already been set. */
    method Restore(parse: string -> Option<User>)
      modifies this
      ensures !isLoading && routes == old(routes)
      ensures var stored := TOKEN_KEY in old(storage) && old(storage)[TOKEN_KEY] != ""
                            && USER_KEY in old(storage) && old(storage)[USER_KEY] != "";
        && (!stored ==> storage == old(storage) && user == old(user) && token == old(token))
        && (stored ==> token == Some(old(storage)[TOKEN_KEY]))
        && (stored && parse(old(storage)[USER_KEY]).Some? ==>
              user == parse(old(storage)[USER_KEY]) && storage == old(storage))
        && (stored && parse(old(storage)[USER_KEY]).None? ==>
              user == old(user) && storage == old(storage) - {TOKEN_KEY, USER_KEY})
    {
      if TOKEN_KEY in storage && storage[TOKEN_KEY] != "" && USER_KEY in storage && storage[USER_KEY] != "" {
        token := Some(storage[TOKEN_KEY]);
        var parsed := parse(storage[USER_KEY]);
        if parsed.Some? {
          user := parsed;
        } else {
          storage := storage - {TOKEN_KEY, USER_KEY};
        }
      }
      isLoading := false;
    }

    /** The common end of `login` and `register` (lines 84-107 and 131-154): both values
        are stored, both fields set and the user's home route pushed. */
    method SignIn(t: string, u: User, stringify: User -> string)
      modifies this
      ensures storage == old(storage)[TOKEN_KEY := t][USER_KEY := stringify(u)]
      ensures token == Some(t) && user == Some(u)
      ensures routes == old(routes) + [RouteFor(u.role)]
      ensures isLoading == old(isLoading)
    {
      storage := storage[TOKEN_KEY := t][USER_KEY := stringify(u)];
      token := Some(t);
      user := Some(u);
      routes := routes + [RouteFor(u.role)];
    }

    /** `login` (lines 66-111): a refusal throws with the server's error or 'Login failed'
        and changes nothing; an acceptance signs in. */
    method Login(answer: Answer, stringify: User -> string) returns (error: Option<string>)
      modifies this
      ensures answer.Refused? ==>
                error == Some(if answer.serverError != "" then answer.serverError else "Login failed")
                && storage == old(storage) && user == old(user) && token == old(token) && routes == old(routes)
      ensures answer.Accepted? ==>
                error.None? && storage == old(storage)[TOKEN_KEY := answer.token][USER_KEY := stringify(answer.user)]
                && token == Some(answer.token) && user == Some(answer.user)
                && routes == old(routes) + [RouteFor(answer.user.role)]
      ensures isLoading == old(isLoading)
    {
      match answer {
        case Refused(serverError) =>
          error := Some(if serverError != "" then serverError else "Login failed");
        case Accepted(t, u) =>
          SignIn(t, u, stringify);
          error := None;
      }
    }

    /** `register` (lines 113-158): as `login`, with 'Registration failed'. */
    method Register(answer: Answer, stringify: User -> string) returns (error: Option<string>)
      modifies this
      ensures answer.Refused? ==>
                error == Some(if answer.serverError != "" then answer.serverError else "Registration failed")
                && storage == old(storage) && user == old(user) && token == old(token) && routes == old(routes)
      ensures answer.Accepted? ==>
                error.None? && storage == old(storage)[TOKEN_KEY := answer.token][USER_KEY := stringify(answer.user)]
                && token == Some(answer.token) && user == Some(answer.user)
                && routes == old(routes) + [RouteFor(answer.user.role)]
      ensures isLoading == old(isLoading)
    {
      match answer {
        case Refused(serverError) =>
          error := Some(if serverError != "" then serverError else "Registration failed");
        case Accepted(t, u) =>
          SignIn(t, u, stringify);
          error := None;
      }
    }

    /** `logout` (lines 160-166). */
    method Logout()
      modifies this
      ensures storage == old(storage) - {TOKEN_KEY, USER_KEY}
      ensures user.None? && token.None? && !IsAuthenticated()
      ensures routes == old(routes) + [LOGIN_ROUTE]
      ensures isLoading == old(isLoading)
    {
      storage := storage - {TOKEN_KEY, USER_KEY};
      token := None;
      user := None;
      routes := routes + [LOGIN_ROUTE];
    }
  }

  /** A sign-in survives a reload: a new provider restored from the storage the login left
      holds the same user and token, provided the codec reads back what it wrote and the
      token is not empty. */
  method LoginSurvivesReload(p: AuthProvider, t: string, u: User, stringify: User -> string, parse: string -> Option<User>)
    returns (q: AuthProvider)
    requires t != "" && stringify(u) != "" && parse(stringify(u)) == Some(u)
    modifies p
    ensures q.user == p.user == Some(u) && q.token == p.token == Some(t)
    ensures q.IsAuthenticated() && p.IsAuthenticated()
  {
    var error := p.Login(Accepted(t, u), stringify);
    q := new AuthProvider(p.storage);
    q.Restore(parse);
  }

  /** After a logout a reload restores no one. */
  method LogoutSurvivesReload(p: AuthProvider, parse: string -> Option<User>) returns (q: AuthProvider)
    modifies p
    ensures q.user.None? && q.token.None? && !q.IsAuthenticated()
  {
    p.Logout();
    q := new AuthProvider(p.storage);
    q.Restore(parse);
  }
}
