/** The three authentication views as transitions on a store of accounts and API tokens.
    Each account has at most one token (`get_or_create`); a token is found by its key.
    Password hashing and `authenticate` are reduced to an exact match on the stored
    credentials; new token keys and the username normalisation `create_user` applies
    (Unicode NFKC) are supplied by the caller. */
module AuthViews {
  import opened Base

  datatype Account = Account(id: int, username: string, password: string)

  /** Accounts in creation order, each account's token key, and the next account id. */
  datatype Accounts = Accounts(users: seq<Account>, tokens: map<int, string>, nextId: int)

  datatype Answer = Answer(status: int, body: Json)

  const Success := 200
  const Created := 201
  const BadRequest := 400
  const Unauthorized := 401
  const ServerError := 500

  const MissingFields := "Username and password are required"
  const UsernameTaken := "Username already taken"
  const InvalidCredentials := "Invalid credentials"
  const InvalidToken := "Invalid token."
  const LoggedOut := "Logged out successfully"

  function AccountKey(a: Account): int { a.id }
  function UsernameOf(a: Account): string { a.username }

  function ErrorBody(text: string): Json { JObj(map["error" := JStr(text)]) }
  function TokenBody(key: string): Json { JObj(map["token" := JStr(key)]) }

  /** `if not value` on a request field: missing or empty. */
  predicate Present(v: Option<string>)
  {
    v.Some? && v.value != ""
  }

  predicate Taken(s: Accounts, username: string)
  {
    exists a :: a in s.users && a.username == username
  }

  predicate KeyInUse(s: Accounts, key: string)
  {
    exists u :: u in s.tokens && s.tokens[u] == key
  }

  /** Ids and usernames are unique, ids are below the sequence, every token belongs to an
      account, and no two accounts share a token key. */
  predicate Valid(s: Accounts)
  {
    && DistinctBy(s.users, AccountKey)
    && DistinctBy(s.users, UsernameOf)
    && (forall a :: a in s.users ==> a.id < s.nextId)
    && (forall u :: u in s.tokens ==> exists a :: a in s.users && a.id == u)
    && (forall u, v :: u in s.tokens && v in s.tokens && s.tokens[u] == s.tokens[v] ==> u == v)
  }

  /** `Token.objects.get_or_create(user=user)`: the account's token, created with `freshKey` when it has none. */
  function GetOrCreateToken(s: Accounts, user: int, freshKey: string): (r: (Accounts, string))
    ensures user in r.0.tokens && r.0.tokens[user] == r.1
    ensures user in s.tokens ==> r.0 == s
    ensures user !in s.tokens ==> r.1 == freshKey
    ensures r.0.users == s.users && r.0.nextId == s.nextId
    ensures forall u :: u != user ==> (u in r.0.tokens <==> u in s.tokens) && (u in s.tokens ==> r.0.tokens[u] == s.tokens[u])
  {
    if user in s.tokens then (s, s.tokens[user])
    else (s.(tokens := s.tokens[user := freshKey]), freshKey)
  }

  /** `RegisterUserView.post`. The duplicate check compares the username as sent, while
      `create_user` stores `normalize(username)`; when only the normalised name is taken,
      the unique constraint on usernames raises and the request fails with a server error. */
  function Register(s: Accounts, username: Option<string>, password: Option<string>, freshKey: string,
                    normalize: string -> string): (r: (Accounts, Answer))
    // the missing-field check comes first
    ensures !Present(username) || !Present(password) ==> r == (s, Answer(BadRequest, ErrorBody(MissingFields)))
    ensures Present(username) && Present(password) && Taken(s, username.value) ==>
      r == (s, Answer(BadRequest, ErrorBody(UsernameTaken)))
    ensures Present(username) && Present(password) && !Taken(s, username.value) && Taken(s, normalize(username.value)) ==>
      r == (s, Answer(ServerError, JNull))
    ensures r.1.status == Created <==>
      Present(username) && Present(password) && !Taken(s, username.value) && !Taken(s, normalize(username.value))
    ensures r.1.status != Created ==> r.0 == s
    ensures r.1.status == Created ==>
      && r.0.users == s.users + [Account(s.nextId, normalize(username.value), password.value)]
      && r.0.nextId == s.nextId + 1
      && s.nextId in r.0.tokens
      && r.1.body == TokenBody(r.0.tokens[s.nextId])
      && (s.nextId !in s.tokens ==> r.0.tokens[s.nextId] == freshKey)
    // no other account's token is touched
    ensures forall u :: u != s.nextId ==>
      (u in r.0.tokens <==> u in s.tokens) && (u in s.tokens ==> r.0.tokens[u] == s.tokens[u])
  {
    if !Present(username) || !Present(password) then
      (s, Answer(BadRequest, ErrorBody(MissingFields)))
    else if Taken(s, username.value) then
      (s, Answer(BadRequest, ErrorBody(UsernameTaken)))
    else if Taken(s, normalize(username.value)) then
      (s, Answer(ServerError, JNull))
    else
      var user := Account(s.nextId, normalize(username.value), password.value);
      var created := s.(users := s.users + [user], nextId := s.nextId + 1);
      var (t, key) := GetOrCreateToken(created, user.id, freshKey);
      (t, Answer(Created, TokenBody(key)))
  }

  /** `authenticate(username=..., password=...)`: the account holding exactly these credentials. */
  function Authenticate(users: seq<Account>, username: Option<string>, password: Option<string>): (r: Option<Account>)
    ensures r.Some? ==> r.value in users && username == Some(r.value.username) && password == Some(r.value.password)
    ensures r.None? ==> forall a :: a in users ==> username != Some(a.username) || password != Some(a.password)
  {
    if username.None? || password.None? || |users| == 0 then None
    else if users[0].username == username.value && users[0].password == password.value then Some(users[0])
    else Authenticate(users[1..], username, password)
  }

  /** `LoginUserView.post`. */
  function Login(s: Accounts, username: Option<string>, password: Option<string>, freshKey: string): (r: (Accounts, Answer))
    ensures Authenticate(s.users, username, password).None? ==>
      r == (s, Answer(Unauthorized, ErrorBody(InvalidCredentials)))
    ensures r.1.status == Success <==> Authenticate(s.users, username, password).Some?
    ensures r.1.status == Success ==>
      var a := Authenticate(s.users, username, password).value;
      && r.0.users == s.users && r.0.nextId == s.nextId
      && a.id in r.0.tokens && r.1.body == TokenBody(r.0.tokens[a.id])
      && (a.id in s.tokens ==> r.0 == s)
      && (a.id !in s.tokens ==> r.0.tokens[a.id] == freshKey)
      // no other account's token is touched
      && (forall u :: u != a.id ==> (u in r.0.tokens <==> u in s.tokens) && (u in s.tokens ==> r.0.tokens[u] == s.tokens[u]))
  {
    match Authenticate(s.users, username, password)
    case None => (s, Answer(Unauthorized, ErrorBody(InvalidCredentials)))
    case Some(a) =>
      var (t, key) := GetOrCreateToken(s, a.id, freshKey);
      (t, Answer(Success, TokenBody(key)))
  }

  /** `LogoutUserView.post`: `presented` is the key of the `Authorization: Token <key>` header.
      Without a header `request.auth` is None and `.delete()` raises; an unknown key is
      refused by the authentication class before the view runs. */
  function Logout(s: Accounts, presented: Option<string>): (r: (Accounts, Answer))
    ensures presented.None? ==> r == (s, Answer(ServerError, JNull))
    ensures presented.Some? && !KeyInUse(s, presented.value) ==>
      r == (s, Answer(Unauthorized, JObj(map["detail" := JStr(InvalidToken)])))
    ensures r.1.status == Success <==> presented.Some? && KeyInUse(s, presented.value)
    ensures r.1.status == Success ==>
      && r.1.body == JObj(map["message" := JStr(LoggedOut)])
      && r.0.users == s.users && r.0.nextId == s.nextId
      && !KeyInUse(r.0, presented.value)
      && (forall u :: u in s.tokens && s.tokens[u] != presented.value ==> u in r.0.tokens && r.0.tokens[u] == s.tokens[u])
      && (forall u :: u in r.0.tokens ==> u in s.tokens)
  {
    match presented
    case None => (s, Answer(ServerError, JNull))
    case Some(key) =>
      if !KeyInUse(s, key) then (s, Answer(Unauthorized, JObj(map["detail" := JStr(InvalidToken)])))
      else
        var kept := map u | u in s.tokens && s.tokens[u] != key :: s.tokens[u];
        (s.(tokens := kept), Answer(Success, JObj(map["message" := JStr(LoggedOut)])))
  }

  /** A run of register calls, each with its own credentials and fresh key. */
  datatype Registration = Registration(username: Option<string>, password: Option<string>, freshKey: string)

  function RegisterAll(s: Accounts, calls: seq<Registration>, normalize: string -> string): (r: Accounts)
    ensures |s.users| <= |r.users| <= |s.users| + |calls|
    ensures r.users[..|s.users|] == s.users
    decreases |calls|
  {
    if |calls| == 0 then s
    else
      var next := Register(s, calls[0].username, calls[0].password, calls[0].freshKey, normalize).0;
      var rest := RegisterAll(next, calls[1..], normalize);
      assert next.users[..|s.users|] == s.users;
      assert rest.users[..|s.users|] == rest.users[..|next.users|][..|s.users|];
      rest
  }

  /** A successful registration keeps the store valid, given a key not already in use. */
  lemma RegisterKeepsValid(s: Accounts, username: Option<string>, password: Option<string>, freshKey: string,
                           normalize: string -> string)
    requires Valid(s) && !KeyInUse(s, freshKey)
    ensures Valid(Register(s, username, password, freshKey, normalize).0)
  {
    var r := Register(s, username, password, freshKey, normalize);
    if r.1.status == Created {
      var t := r.0;
      var user := Account(s.nextId, normalize(username.value), password.value);
      assert s.nextId !in s.tokens;
      forall i, j | 0 <= i < j < |t.users| ensures t.users[i].username != t.users[j].username {
        if j == |s.users| {
          assert t.users[i] in s.users;
        }
      }
      forall u | u in t.tokens ensures exists a :: a in t.users && a.id == u {
        if u == s.nextId {
          assert t.users[|s.users|] == user;
        } else {
          var a :| a in s.users && a.id == u;
          assert a in t.users;
        }
      }
    }
  }

  /** Usernames stay unique through any sequence of register calls. The lemma carries the
      whole `Valid` invariant, of which unique usernames are one part, because each step
      rests on `RegisterKeepsValid`; keeping token keys unique is what needs the keys to be
      non-empty, distinct and unused. */
  lemma {:induction false} RegistrationsKeepUsernamesUnique(s: Accounts, calls: seq<Registration>, normalize: string -> string)
    requires Valid(s)
    requires forall i :: 0 <= i < |calls| ==> calls[i].freshKey != "" && forall j :: 0 <= j < i ==> calls[j].freshKey != calls[i].freshKey
    requires forall i :: 0 <= i < |calls| ==> !KeyInUse(s, calls[i].freshKey)
    ensures Valid(RegisterAll(s, calls, normalize))
    ensures DistinctBy(RegisterAll(s, calls, normalize).users, UsernameOf)
    decreases |calls|
  {
    if |calls| > 0 {
      var c := calls[0];
      var r := Register(s, c.username, c.password, c.freshKey, normalize).0;
      RegisterKeepsValid(s, c.username, c.password, c.freshKey, normalize);
      forall i | 0 <= i < |calls[1..]| ensures !KeyInUse(r, calls[1..][i].freshKey) {
        var k := calls[1..][i].freshKey;
        assert k == calls[i + 1].freshKey;
        assert k != c.freshKey;
      }
      RegistrationsKeepUsernamesUnique(r, calls[1..], normalize);
    }
  }

  /** Logging in again before logging out returns the same token and changes nothing. */
  lemma LoginIsStable(s: Accounts, username: Option<string>, password: Option<string>, key1: string, key2: string)
    requires Login(s, username, password, key1).1.status == Success
    ensures var (t, first) := Login(s, username, password, key1);
      Login(t, username, password, key2) == (t, first)
  {
  }

  /** Logout revokes the token a login returned: it no longer authenticates, and the next
      login issues the new key it is given. */
  lemma {:induction false} LogoutRevokesLogin(s: Accounts, username: Option<string>, password: Option<string>, key1: string, key2: string)
    requires Login(s, username, password, key1).1.status == Success
    ensures var (t, first) := Login(s, username, password, key1);
      var key := t.tokens[Authenticate(s.users, username, password).value.id];
      var (u, bye) := Logout(t, Some(key));
      && bye.status == Success
      && Logout(u, Some(key)).1.status == Unauthorized
      && Login(u, username, password, key2).1 == Answer(Success, TokenBody(key2))
  {
    var (t, first) := Login(s, username, password, key1);
    var a := Authenticate(s.users, username, password).value;
    var key := t.tokens[a.id];
    var (u, bye) := Logout(t, Some(key));
    assert KeyInUse(t, key);
    assert a.id !in u.tokens;
    assert Authenticate(u.users, username, password) == Some(a);
  }
}
