/**
 * The session provider (`AuthContext`): the signed-in user, the token, the flags the pages read,
 * and the token kept in the browser's storage. The network calls (`fetchUserProfile`,
 * `loginUser`, `registerUser`) are outside the model: each operation receives the call's
 * outcome as a parameter, an error carrying the thrown message.
 */
module AuthContext {
  import opened Wrappers

  /** `User` as the frontend receives it. */
  datatype User = User(id: int, email: string, name: string, createdAt: string)

  /** What `loginUser` and `registerUser` resolve to: the user and a token. */
  datatype AuthReply = AuthReply(user: User, token: string)

  /** The provider's state hooks together with the stored token. */
  datatype AuthState = AuthState(
    user: Option<User>,
    token: Option<string>,
    isAuthenticated: bool,
    isLoading: bool,
    error: Option<string>,
    stored: Option<string>)

  /** `if (token)`: a token is there and is not the empty string. */
  predicate HasToken(s: AuthState) {
    s.token.Some? && s.token.value != ""
  }

  /** The state on mount: no user, the stored token read back, loading until validated. */
  function Mounted(stored: Option<string>): AuthState {
    AuthState(None, stored, false, true, None, stored)
  }

  /**
   * `validateToken`: with a token, a profile makes the session authenticated and stores the
   * token again, and a failure forgets the token, the stored copy and the user; with or
   * without a token, loading ends.
   */
  function Validated(s: AuthState, profile: Result<User>): AuthState {
    var t := if !HasToken(s) then s
      else if profile.Ok? then s.(user := Some(profile.value), isAuthenticated := true, stored := s.token)
      else s.(stored := None, token := None, user := None, isAuthenticated := false);
    t.(isLoading := false)
  }

  /** The start of `login` and `register`: loading, and the previous error cleared. */
  function Started(s: AuthState): AuthState {
    s.(isLoading := true, error := None)
  }

  /**
   * The end of `login` and `register`: a reply signs the user in and stores its token; a
   * failure records the message and clears the flag, leaving user and token as they were;
   * either way loading ends.
   */
  function Settled(s: AuthState, reply: Result<AuthReply>): AuthState {
    var t := if reply.Ok? then
        s.(user := Some(reply.value.user), token := Some(reply.value.token), isAuthenticated := true,
           stored := Some(reply.value.token))
      else s.(error := Some(reply.error), isAuthenticated := false);
    t.(isLoading := false)
  }

  /** `logout`: no user, no token, not authenticated, no error, nothing stored. */
  function LoggedOut(s: AuthState): AuthState {
    s.(user := None, token := None, isAuthenticated := false, stored := None, error := None)
  }

  /** A signed-in session has a user and a token, and the token is the stored one. */
  predicate Coherent(s: AuthState) {
    s.isAuthenticated ==> s.user.Some? && s.token.Some? && s.stored == s.token
  }

  /** Every operation of the provider keeps the session coherent. */
  lemma CoherentKept(s: AuthState, profile: Result<User>, reply: Result<AuthReply>, stored: Option<string>)
    requires Coherent(s)
    ensures Coherent(Mounted(stored))
    ensures Coherent(Validated(s, profile))
    ensures Coherent(Started(s))
    ensures Coherent(Settled(s, reply))
    ensures Coherent(LoggedOut(s))
  {
  }

  /**
   * A call through `login` or `register`: its error is the failure's message or nothing, loading
   * has ended, and the session is signed in exactly when the call succeeded, with the reply's
   * user and token; a failure leaves user, token and stored token as they were.
   */
  lemma CallOutcome(s: AuthState, reply: Result<AuthReply>)
    ensures var t := Settled(Started(s), reply);
      && !t.isLoading
      && (t.isAuthenticated <==> reply.Ok?)
      && (t.error.Some? <==> reply.Err?)
      && (reply.Ok? ==> t.user == Some(reply.value.user) && t.token == Some(reply.value.token) && t.stored == t.token)
      && (reply.Err? ==> t.error == Some(reply.error) && t.user == s.user && t.token == s.token && t.stored == s.stored)
  {
  }

  /**
   * After validation loading has ended, whether or not a token existed; a failed validation
   * leaves nothing to validate next time, and without a token nothing but the flag changes.
   */
  lemma ValidationOutcome(s: AuthState, profile: Result<User>)
    ensures var t := Validated(s, profile);
      && !t.isLoading
      && (HasToken(s) && profile.Err? ==> !HasToken(t) && t.stored.None? && !t.isAuthenticated)
      && (HasToken(s) && profile.Ok? ==> t.isAuthenticated && t.user == Some(profile.value) && t.stored == s.token)
      && (!HasToken(s) ==> t == s.(isLoading := false))
  {
  }

  /** Logging out forgets the session whatever it was, so a second logout changes nothing. */
  lemma LogoutForgets(s: AuthState)
    ensures var t := LoggedOut(s);
      !t.isAuthenticated && t.user.None? && !HasToken(t) && t.stored.None? && t.error.None?
    ensures LoggedOut(LoggedOut(s)) == LoggedOut(s)
  {
  }

  class Provider {
    var user: Option<User>
    var token: Option<string>
    var isAuthenticated: bool
    var isLoading: bool
    var error: Option<string>
    /** The `'token'` entry of `localStorage`. */
    var stored: Option<string>

    function State(): AuthState
      reads this
    {
      AuthState(user, token, isAuthenticated, isLoading, error, stored)
    }

    /** The `useState` initial values: the token is read from storage. */
    constructor (storedToken: Option<string>)
      ensures State() == Mounted(storedToken)
    {
      user, token, isAuthenticated, isLoading, error, stored := None, storedToken, false, true, None, storedToken;
    }

    /** `validateToken`, with `profile` the outcome of `fetchUserProfile(token)`. */
    method ValidateToken(profile: Result<User>)
      modifies this
      ensures State() == Validated(old(State()), profile)
    {
      if token.Some? && token.value != "" {
        if profile.Ok? {
          user := Some(profile.value);
          isAuthenticated := true;
          stored := token;
        } else {
          stored := None;
          token := None;
          user := None;
          isAuthenticated := false;
        }
      }
      isLoading := false;
    }

    /** What `login` and `register` do before awaiting the call. */
    method Start()
      modifies this
      ensures State() == Started(old(State()))
    {
      isLoading := true;
      error := None;
    }

    /** What `login` and `register` do once the call has resolved or thrown. */
    method Settle(reply: Result<AuthReply>)
      modifies this
      ensures State() == Settled(old(State()), reply)
    {
      if reply.Ok? {
        user := Some(reply.value.user);
        token := Some(reply.value.token);
        isAuthenticated := true;
        stored := Some(reply.value.token);
      } else {
        error := Some(reply.error);
        isAuthenticated := false;
      }
      isLoading := false;
    }

    /** `login`, with `reply` the outcome of `loginUser(credentials)`. */
    method Login(reply: Result<AuthReply>)
      modifies this
      ensures State() == Settled(Started(old(State())), reply)
    {
      Start();
      Settle(reply);
    }

    /** `register`, with `reply` the outcome of `registerUser(credentials)`. */
    method Register(reply: Result<AuthReply>)
      modifies this
      ensures State() == Settled(Started(old(State())), reply)
    {
      Start();
      Settle(reply);
    }

    /** `logout`. */
    method Logout()
      modifies this
      ensures State() == LoggedOut(old(State()))
    {
      user := None;
      token := None;
      isAuthenticated := false;
      stored := None;
      error := None;
    }
  }
}
