/** The authentication context: the signed-in user, a loading flag, and `login`/`logout`
    over the same storage the interceptor reads. Navigations are recorded as an event log. */
module AuthContext {
  import opened Base
  import opened Storage
  import Interceptor

  datatype User = User(id: string, username: string, firstName: string, lastName: string)

  /** What `JSON.parse` makes of a stored text. */
  datatype Parsed = SyntaxError | Falsy | Truthy(user: User)

  /** The JSON text codec used for the stored user: `JSON.stringify` and `JSON.parse`. */
  datatype Codec = Codec(stringify: User -> string, parse: string -> Parsed)

  /** The provider's state. */
  datatype Auth = Auth(store: Store, user: Option<User>, loading: bool, navigations: seq<string>)

  const HomePath := "/"
  const SignInPath := "/auth/sign-in"
  const OutsideProvider := "useAuth must be used within an AuthProvider"

  /** A codec whose texts read back as the user written: stringify never yields the empty
      text or "null", and parse inverts it. */
  ghost predicate Faithful(codec: Codec)
  {
    forall u :: codec.stringify(u) != "" && codec.stringify(u) != "null"
                && codec.parse(codec.stringify(u)) == Truthy(u)
  }

  /** The provider as first rendered over a store. */
  function Mounted(store: Store): (a: Auth)
    ensures a.store == store && a.user.None? && a.loading && a.navigations == []
  {
    Auth(store, None, true, [])
  }

  /** `JSON.parse(localStorage.getItem(USER_KEY) || "null")`. */
  function StoredUser(store: Store, codec: Codec): Parsed
  {
    if Holds(store, UserKey) && store[UserKey] != "null" then codec.parse(store[UserKey]) else Falsy
  }

  /** The mount-time effect. When parsing throws, the effect stops before `setLoading(false)`. */
  function Restore(a: Auth, codec: Codec): (r: Auth)
    ensures r.store == a.store && r.navigations == a.navigations
    // the user is restored only with an access token and a truthy parsed user
    ensures r.user != a.user ==>
      Holds(a.store, AccessKey) && StoredUser(a.store, codec).Truthy? && r.user == Some(StoredUser(a.store, codec).user)
    ensures Holds(a.store, AccessKey) && StoredUser(a.store, codec).Truthy? ==> r.user == Some(StoredUser(a.store, codec).user)
    // loading ends on every path except a parse failure
    ensures !r.loading <==> !a.loading || !Holds(a.store, AccessKey) || !StoredUser(a.store, codec).SyntaxError?
  {
    if Holds(a.store, AccessKey) then
      match StoredUser(a.store, codec)
      case SyntaxError => a
      case Falsy => a.(loading := false)
      case Truthy(u) => a.(user := Some(u), loading := false)
    else
      a.(loading := false)
  }

  function Login(a: Auth, u: User, accessToken: string, refreshToken: string, codec: Codec): (r: Auth)
    ensures AccessKey in r.store && r.store[AccessKey] == accessToken
    ensures RefreshKey in r.store && r.store[RefreshKey] == refreshToken
    ensures UserKey in r.store && r.store[UserKey] == codec.stringify(u)
    ensures forall k :: k in a.store && k !in {AccessKey, RefreshKey, UserKey} ==> k in r.store && r.store[k] == a.store[k]
    ensures r.user == Some(u) && r.loading == a.loading
    ensures r.navigations == a.navigations + [HomePath]
  {
    Auth(a.store[AccessKey := accessToken][RefreshKey := refreshToken][UserKey := codec.stringify(u)],
         Some(u), a.loading, a.navigations + [HomePath])
  }

  function Logout(a: Auth): (r: Auth)
    ensures AccessKey !in r.store && RefreshKey !in r.store && UserKey !in r.store
    ensures forall k :: k in a.store && k !in {AccessKey, RefreshKey, UserKey} ==> k in r.store && r.store[k] == a.store[k]
    ensures forall k :: k in r.store ==> k in a.store
    ensures r.user.None? && r.loading == a.loading
    ensures r.navigations == a.navigations + [SignInPath]
  {
    Auth(a.store - {AccessKey, RefreshKey, UserKey}, None, a.loading, a.navigations + [SignInPath])
  }

  /** `useAuth`: the context value, or the error thrown outside a provider. */
  function UseAuth(context: Option<Auth>): (r: Result<Auth>)
    ensures r.Ok? <==> context.Some?
    ensures r.Ok? ==> r.value == context.value
    ensures r.Err? ==> r.error == OutsideProvider
  {
    match context
    case Some(a) => Ok(a)
    case None => Err(OutsideProvider)
  }

  /** The first render shows nobody and a loading provider over the store as it is; the
      mount effect then restores a user exactly when an access token is stored and the
      stored user parses to a truthy value, and stays loading exactly when parsing throws. */
  lemma MountThenRestore(store: Store, codec: Codec)
    ensures Mounted(store).store == store && Mounted(store).user.None? && Mounted(store).loading
    ensures var r := Restore(Mounted(store), codec);
      && (r.user.Some? <==> Holds(store, AccessKey) && StoredUser(store, codec).Truthy?)
      && (r.loading <==> Holds(store, AccessKey) && StoredUser(store, codec).SyntaxError?)
      && r.store == store && r.navigations == []
  {
  }

  /** Inside a provider `useAuth` hands a component the provider's current state: after
      `login` the signed-in user, after `logout` nobody; outside any provider it throws. */
  lemma UseAuthSeesSession(a: Auth, u: User, access: string, refresh: string, codec: Codec)
    ensures UseAuth(Some(Login(a, u, access, refresh, codec))).Ok?
    ensures UseAuth(Some(Login(a, u, access, refresh, codec))).value.user == Some(u)
    ensures UseAuth(Some(Logout(a))).Ok? && UseAuth(Some(Logout(a))).value.user.None?
    ensures UseAuth(None) == Err(OutsideProvider)
  {
  }

  /** Logging out twice leaves the same store and user as logging out once, whatever the state. */
  lemma LogoutIdempotent(a: Auth)
    ensures Logout(Logout(a)).store == Logout(a).store
    ensures Logout(Logout(a)).user == Logout(a).user
  {
  }

  /** A session written by `login` is restored by the next mount when the access token is
      non-empty and the codec reads its own output back. */
  lemma {:induction false} LoginThenRemount(a: Auth, u: User, access: string, refresh: string, codec: Codec)
    requires Faithful(codec) && access != ""
    ensures var r := Restore(Mounted(Login(a, u, access, refresh, codec).store), codec);
      r.user == Some(u) && !r.loading
  {
    var s := Login(a, u, access, refresh, codec).store;
    assert codec.stringify(u) != "" && codec.stringify(u) != "null";
    assert StoredUser(s, codec) == Truthy(u);
  }

  /** After logout, the next mount restores nobody and finishes loading. */
  lemma LogoutThenRemount(a: Auth, codec: Codec)
    ensures var r := Restore(Mounted(Logout(a).store), codec);
      r.user.None? && !r.loading
  {
  }

  /** After login, every request through `api` carries the new access token. */
  lemma LoginThenRequestCarriesBearer(a: Auth, u: User, access: string, refresh: string, codec: Codec, config: Interceptor.Config)
    requires access != ""
    ensures var c := Interceptor.AttachBearer(Login(a, u, access, refresh, codec).store, config);
      c.headers[Interceptor.AuthorizationHeader] == Interceptor.Bearer(access)
  {
  }

  /** A refresh call that gets no reply (a network failure) leaves nothing readable: the
      tokens are removed but not the stored user; still, the next mount restores nobody,
      because restoring requires the access token. */
  lemma {:induction false} RefreshFailureThenRemount(store: Store, config: Interceptor.Config,
                                                     server: Interceptor.Config -> Interceptor.Reply,
                                                     fuel: nat, codec: Codec)
    requires !config.retry && Holds(store, RefreshKey) && fuel >= 1
    requires server(Interceptor.AttachBearer(store, config)).Rejected?
    requires server(Interceptor.AttachBearer(store, config)).failure.Some?
    requires server(Interceptor.AttachBearer(store, config)).failure.value.status == Interceptor.Unauthorized
    requires server(Interceptor.AttachBearer(store, Interceptor.RefreshRequest(store[RefreshKey]))) == Interceptor.Rejected(None)
    ensures var o := Interceptor.Dispatch(store, config, server, fuel);
      && o.Outcome? && o.result == Interceptor.Rejects(Interceptor.ReadError) && o.refreshes == 1
      && (UserKey in o.store <==> UserKey in store)
      && Restore(Mounted(o.store), codec).user.None?
  {
    var inner := Interceptor.Dispatch(store, Interceptor.RefreshRequest(store[RefreshKey]), server, fuel - 1);
    assert inner.result == Interceptor.Resolves(None);
    assert inner.store == store;
  }
}
