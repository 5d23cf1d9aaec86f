/**
 * lib/auth.ts: the two NextAuth callbacks. `jwt` copies a fresh Google
 * account's tokens into the session token and upserts the user row keyed by
 * email; `session` copies the token's claims onto `session.user`, keeping a
 * claim only when it has the expected JavaScript type.
 */
module Auth {
  import opened Common
  import opened Store

  /** A claim of the NextAuth token: absent (`undefined`), `null`, a string or a number. */
  datatype Claim = Absent | Null | Str(s: string) | Num(n: int)

  /** The token claims the callbacks read or write. */
  datatype Token = Token(sub: Claim, email: Claim, accessToken: Claim, refreshToken: Claim, expiryDate: Claim)

  /** The OAuth account NextAuth passes on sign-in; `expiresAt` is in seconds. */
  datatype Account = Account(accessToken: Option<string>, refreshToken: Option<string>, expiresAt: Option<int>)

  /** `session.user` as extended by the application. */
  datatype SessionUser = SessionUser(
    id: Option<string>,
    accessToken: Option<string>,
    refreshToken: Option<string>,
    expiryDate: Option<int>,
    name: Option<string>,
    email: Option<string>,
    image: Option<string>)

  datatype Session = Session(user: Option<SessionUser>)

  /** An optional string as a claim: `undefined` when absent. */
  function ClaimOf(s: Option<string>): (c: Claim)
    ensures s.None? <==> c == Absent
    ensures s.Some? ==> c == Str(s.value)
  {
    if s.Some? then Str(s.value) else Absent
  }

  /** `account.expires_at ? account.expires_at * 1000 : null`. */
  function ExpiryClaim(expiresAt: Option<int>): (c: Claim)
    ensures expiresAt.Some? && expiresAt.value != 0 ==> c == Num(1000 * expiresAt.value)
    ensures expiresAt.None? || expiresAt.value == 0 ==> c == Null
  {
    if expiresAt.Some? && expiresAt.value != 0 then Num(expiresAt.value * 1000) else Null
  }

  /** The token after the three assignments of the `jwt` callback. */
  function WithAccount(token: Token, account: Account): (t: Token)
    ensures t.sub == token.sub && t.email == token.email
    ensures t.accessToken == ClaimOf(account.accessToken) && t.refreshToken == ClaimOf(account.refreshToken)
    ensures t.expiryDate == ExpiryClaim(account.expiresAt)
  {
    token.(accessToken := ClaimOf(account.accessToken), refreshToken := ClaimOf(account.refreshToken),
           expiryDate := ExpiryClaim(account.expiresAt))
  }

  /** A Prisma field value that may be `undefined`: `undefined` leaves the stored value alone. */
  function Assign(stored: Option<string>, value: Option<string>): (r: Option<string>)
    ensures value.Some? ==> r == value
    ensures value.None? ==> r == stored
  {
    if value.Some? then value else stored
  }

  /** `prisma.user.upsert` keyed by email: the user store after it, or `None`
      when the insert is refused because another row already has id `sub`. */
  function Upsert(users: seq<User>, sub: string, email: string, account: Account, now: int): (r: Option<seq<User>>)
    ensures FindByEmail(users, email).Some? ==>
      var i := FindByEmail(users, email).value;
      r == Some(users[i := users[i].(accessToken := Assign(users[i].accessToken, account.accessToken),
                                      refreshToken := Assign(users[i].refreshToken, account.refreshToken),
                                      updatedAt := now)])
    ensures FindByEmail(users, email).None? && FindById(users, sub).Some? ==> r.None?
    ensures FindByEmail(users, email).None? && FindById(users, sub).None? ==>
      r == Some(users + [User(sub, email, account.accessToken, account.refreshToken, None, now, now)])
  {
    match FindByEmail(users, email)
    case Some(i) =>
      var u := users[i];
      Some(users[i := u.(accessToken := Assign(u.accessToken, account.accessToken),
                         refreshToken := Assign(u.refreshToken, account.refreshToken),
                         updatedAt := now)])
    case None =>
      if FindById(users, sub).Some? then None
      else Some(users + [User(sub, email, account.accessToken, account.refreshToken, None, now, now)])
  }

  /** The `jwt` callback: the token it returns (`None` when it throws) and the
      world after it. `token.email!` and `token.sub!` make a string email and
      subject a precondition of a sign-in. */
  function JwtSpec(w: World, token: Token, account: Option<Account>, now: int): (s: Step<Option<Token>>)
    requires account.Some? ==> token.email.Str? && token.sub.Str?
    ensures account.None? ==> s == Step(Some(token), w)
    ensures account.Some? && s.result.Some? ==> s.result.value == WithAccount(token, account.value)
    ensures s.result.None? ==> s.world == w
    ensures s.world.videos == w.videos && s.world.files == w.files && s.world.credentials == w.credentials
  {
    if account.None? then Step(Some(token), w)
    else
      var a := account.value;
      match Upsert(w.users, token.sub.s, token.email.s, a, now)
      case None => Step(None, w)
      case Some(users) =>
        var event := if FindByEmail(w.users, token.email.s).Some?
                     then UserUpdated(w.users[FindByEmail(w.users, token.email.s).value].id)
                     else UserCreated(token.sub.s);
        Step(Some(WithAccount(token, a)), w.(users := users, log := w.log + [event]))
  }

  /** After a sign-in the user with that email has the account's tokens
      (where the account has them), and the ids and emails stay unique;
      a refused insert changes nothing. */
  lemma {:induction false} JwtStoresTokens(w: World, token: Token, account: Account, now: int)
    requires token.email.Str? && token.sub.Str?
    requires UniqueKeys(w.users)
    ensures var s := JwtSpec(w, token, Some(account), now);
      && UniqueKeys(s.world.users)
      && (s.result.Some? ==>
            && FindByEmail(s.world.users, token.email.s).Some?
            && var u := s.world.users[FindByEmail(s.world.users, token.email.s).value];
            && (account.accessToken.Some? ==> u.accessToken == account.accessToken)
            && (account.refreshToken.Some? ==> u.refreshToken == account.refreshToken)
            && u.updatedAt == now)
      && (s.result.None? <==> FindByEmail(w.users, token.email.s).None? && FindById(w.users, token.sub.s).Some?)
  {
    var email := token.email.s;
    var sub := token.sub.s;
    var s := JwtSpec(w, token, Some(account), now);
    match FindByEmail(w.users, email)
    case Some(i) =>
      var u := w.users[i];
      var u' := u.(accessToken := Assign(u.accessToken, account.accessToken),
                   refreshToken := Assign(u.refreshToken, account.refreshToken), updatedAt := now);
      UpdateKeepsUniqueKeys(w.users, i, u');
      assert s.world.users == w.users[i := u'];
      UniqueFind(s.world.users, email, i);
    case None =>
      if FindById(w.users, sub).None? {
        var u' := User(sub, email, account.accessToken, account.refreshToken, None, now, now);
        AppendKeepsUniqueKeys(w.users, u');
        assert s.world.users == w.users + [u'];
        UniqueFind(s.world.users, email, |w.users|);
      }
  }

  /** Under unique emails, a lookup by email finds the one row with it. */
  lemma UniqueFind(users: seq<User>, email: string, k: nat)
    requires UniqueKeys(users) && k < |users| && users[k].email == email
    ensures FindByEmail(users, email) == Some(k)
  {
    var r := FindByEmail(users, email).value;
    assert users[r].email == users[k].email;
  }

  /** A sign-in never changes a stored expiry date: the token carries it, the row does not. */
  lemma JwtKeepsExpiry(w: World, token: Token, account: Option<Account>, now: int, k: nat)
    requires account.Some? ==> token.email.Str? && token.sub.Str?
    requires k < |w.users|
    ensures var s := JwtSpec(w, token, account, now);
      k < |s.world.users| && s.world.users[k].expiryDate == w.users[k].expiryDate
  {
  }

  /** The `session` callback. */
  function SessionSpec(session: Session, token: Token): (r: Session)
    ensures session.user.None? ==> r == session
    ensures session.user.Some? ==> r.user.Some?
    ensures session.user.Some? ==>
      var u := r.user.value;
      && (u.id.Some? <==> token.sub.Str?) && (token.sub.Str? ==> u.id.value == token.sub.s)
      && (u.accessToken.Some? <==> token.accessToken.Str?)
      && (token.accessToken.Str? ==> u.accessToken.value == token.accessToken.s)
      && (u.refreshToken.Some? <==> token.refreshToken.Str?)
      && (token.refreshToken.Str? ==> u.refreshToken.value == token.refreshToken.s)
      && (u.expiryDate.Some? <==> token.expiryDate.Num?)
      && (token.expiryDate.Num? ==> u.expiryDate.value == token.expiryDate.n)
      && u.name == session.user.value.name && u.email == session.user.value.email
      && u.image == session.user.value.image
  {
    match session.user
    case None => session
    case Some(u) =>
      Session(Some(u.(
        id := if token.sub.Str? then Some(token.sub.s) else None,
        accessToken := if token.accessToken.Str? then Some(token.accessToken.s) else None,
        refreshToken := if token.refreshToken.Str? then Some(token.refreshToken.s) else None,
        expiryDate := if token.expiryDate.Num? then Some(token.expiryDate.n) else None)))
  }

  /** Signing in and then reading the session: the session shows the account's
      tokens (or none where the account had none) and an expiry in
      milliseconds exactly when the account's `expires_at` was truthy. */
  lemma {:induction false} SignInThenSession(w: World, token: Token, account: Account, now: int, user: SessionUser)
    requires token.email.Str? && token.sub.Str?
    requires JwtSpec(w, token, Some(account), now).result.Some?
    ensures var t := JwtSpec(w, token, Some(account), now).result.value;
      var u := SessionSpec(Session(Some(user)), t).user.value;
      && u.id == Some(token.sub.s)
      && u.accessToken == account.accessToken
      && u.refreshToken == account.refreshToken
      && u.expiryDate == (if account.expiresAt.Some? && account.expiresAt.value != 0
                          then Some(1000 * account.expiresAt.value) else None)
  {
    var t := JwtSpec(w, token, Some(account), now).result.value;
    assert t == WithAccount(token, account);
  }

  /** The `jwt` callback on the store. */
  method Jwt(b: Backend, token: Token, account: Option<Account>, now: int) returns (r: Option<Token>)
    requires account.Some? ==> token.email.Str? && token.sub.Str?
    modifies b
    ensures Step(r, b.State()) == JwtSpec(old(b.State()), token, account, now)
  {
    if account.None? {
      return Some(token);
    }
    var a := account.value;
    var t := token;
    t := t.(accessToken := ClaimOf(a.accessToken));
    t := t.(refreshToken := ClaimOf(a.refreshToken));
    t := t.(expiryDate := ExpiryClaim(a.expiresAt));
    var email := token.email.s;
    var found := FindByEmail(b.users, email);
    if found.Some? {
      var i := found.value;
      var u := b.users[i];
      b.users := b.users[i := u.(accessToken := Assign(u.accessToken, a.accessToken),
                                 refreshToken := Assign(u.refreshToken, a.refreshToken),
                                 updatedAt := now)];
      b.log := b.log + [UserUpdated(u.id)];
    } else if FindById(b.users, token.sub.s).Some? {
      return None;
    } else {
      b.users := b.users + [User(token.sub.s, email, a.accessToken, a.refreshToken, None, now, now)];
      b.log := b.log + [UserCreated(token.sub.s)];
    }
    r := Some(t);
  }
}
