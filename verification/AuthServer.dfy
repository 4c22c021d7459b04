/**
  The token methods of `AuthService` run one at a time over the tables they change
  (src/modules/auth/auth.service.ts), and the proof that each does what the machine of `Sessions`
  does when one call is scheduled alone.
 */
module AuthServer {
  import opened Prelude
  import opened Sessions
  import opened SessionSafety

  /** What `refreshTokens` makes of the table, and whether it returns a pair. */
  ghost function Refreshed(refresh: map<nat, RefreshRow>, nextId: nat, token: string, signatureOk: bool, now: int,
                           newToken: string, expiresAt: int): (map<nat, RefreshRow>, bool)
  {
    var found := FindRefresh(refresh, token);
    if !signatureOk || found.None? then (refresh, false)
    else
      var row, rest := refresh[found.value], refresh - {found.value};
      if now > row.expiresAt || TokenStored(rest, newToken) then (rest, false)
      else (rest[nextId := RefreshRow(newToken, row.userId, expiresAt, row.chain)], true)
  }

  /** What `forgotPassword` makes of the table, and its answer. */
  function Forgotten(users: map<string, User>, resets: map<nat, ResetRow>, nextId: nat, userId: string, token: string,
                     expiresAt: int, mailed: bool): (map<nat, ResetRow>, Reply)
  {
    if !(userId in users && users[userId].password.Some? && users[userId].isAdmin) then (resets, Neutral)
    else
      var rest := ResetsWithoutUser(resets, userId);
      if ResetStored(rest, token) then (rest, Refused)
      else (rest[nextId := ResetRow(token, userId, expiresAt)], if mailed then MailSent(token) else Refused)
  }

  /** The three tables `resetPassword` may change. */
  datatype ResetTables = ResetTables(users: map<string, User>, resets: map<nat, ResetRow>, refresh: map<nat, RefreshRow>)

  /** What `resetPassword` makes of them, and whether it changed the password. */
  ghost function PasswordReset(t: ResetTables, token: string, now: int, hash: string): (ResetTables, bool) {
    var found := FindReset(t.resets, token);
    if found.None? then (t, false)
    else
      var id, row := found.value, t.resets[found.value];
      var u := row.userId;
      if now > row.expiresAt then (t.(resets := t.resets - {id}), false)
      else if u !in t.users || !t.users[u].isAdmin || !t.users[u].isActive then (t, false)
      else
        (ResetTables(t.users[u := t.users[u].(password := Some(hash))], t.resets - {id}, WithoutUser(t.refresh, u)), true)
  }

  /**
    The token a failed mail leaves behind is good: presented to `resetPassword` it changes the password
    exactly as long as it has not expired and the account is active, just as if the mail had gone out.
   */
  lemma UnmailedTokenWorksIff(t: ResetTables, nextId: nat, u: string, token: string, expiresAt: int, mailed: bool,
                              now: int, hash: string)
    requires u in t.users && t.users[u].password.Some? && t.users[u].isAdmin
    requires !ResetStored(ResetsWithoutUser(t.resets, u), token)
    ensures var (resets, reply) := Forgotten(t.users, t.resets, nextId, u, token, expiresAt, mailed);
            var (after, ok) := PasswordReset(t.(resets := resets), token, now, hash);
            && (reply == Refused <==> !mailed)
            && (ok <==> now <= expiresAt && t.users[u].isActive)
            && (ok ==> after.users == t.users[u := t.users[u].(password := Some(hash))])
  {
    var resets := Forgotten(t.users, t.resets, nextId, u, token, expiresAt, mailed).0;
    assert nextId in resets && resets[nextId].token == token;
    assert FindReset(resets, token) == Some(nextId);
  }

  // ---------- one call of the machine, scheduled alone ----------

  lemma RunFour(s: State, a: Action, t: State, b: Action, u: State, c: Action, v: State, d: Action, w: State)
    requires Next(s, a) == t && Next(t, b) == u && Next(u, c) == v && Next(v, d) == w
    ensures Run(s, [a, b, c, d]) == w
  {
    FoldThree(Next, s, a, t, b, u, c, v);
    FoldSnoc(Next, s, [a, b, c], d);
    assert [a, b, c] + [d] == [a, b, c, d];
  }

  /** From the point where the row is found and live. */
  lemma RedeemThenStore(s: State, c: nat, row: nat, stored: RefreshRow, newToken: string, expiresAt: int)
    requires c in s.calls && s.calls[c] == Redeeming(row, stored, newToken) && row in s.refresh
    ensures var s' := Next(Next(Next(s, DropExpired(c)), Redeem(c)), StoreFresh(c, expiresAt));
            var rest := s.refresh - {row};
            && s'.users == s.users && s'.resets == s.resets && c in s'.calls
            && if TokenStored(rest, newToken) then s'.refresh == rest && s'.calls[c] == Replied(Refused)
               else
                 && s'.refresh == rest[s.nextId := RefreshRow(newToken, stored.userId, expiresAt, stored.chain)]
                 && s'.calls[c] == Replied(NewPair(row, stored.token, newToken))
  {
    assert Next(s, DropExpired(c)) == s;
    StepRedeem(s, c, row, stored, newToken);
    StepStoreFresh(DoRedeem(s, c, row, stored, newToken), c, row, stored, newToken, expiresAt);
  }

  lemma RefreshFollowsProtocol(s: State, c: nat, token: string, signatureOk: bool, now: int, newToken: string, expiresAt: int)
    requires Idle(s, c)
    ensures var s' := Run(s, [BeginRefresh(c, token, signatureOk, now, newToken), DropExpired(c), Redeem(c),
                              StoreFresh(c, expiresAt)]);
            var (refresh, ok) := Refreshed(s.refresh, s.nextId, token, signatureOk, now, newToken, expiresAt);
            && s'.refresh == refresh && s'.users == s.users && s'.resets == s.resets
            && c in s'.calls && s'.calls[c].Replied? && (s'.calls[c].reply.NewPair? <==> ok)
  {
    var t := DoBeginRefresh(s, c, token, signatureOk, now, newToken);
    var begin, drop, redeem, store :=
      BeginRefresh(c, token, signatureOk, now, newToken), DropExpired(c), Redeem(c), StoreFresh(c, expiresAt);
    match t.calls[c]
    case Replied(_) => RunFour(s, begin, t, drop, t, redeem, t, store, t);
    case DroppingExpired(row) =>
      var u := DoDropExpired(t, c, row);
      RunFour(s, begin, t, drop, u, redeem, u, store, u);
    case Redeeming(row, stored, _) =>
      RedeemThenStore(t, c, row, stored, newToken, expiresAt);
      var u := Next(t, drop);
      RunFour(s, begin, t, drop, u, redeem, Next(u, redeem), store, Next(Next(u, redeem), store));
  }

  /** From the point where the user is found. */
  lemma ClearThenCreate(s: State, c: nat, u: string, token: string, expiresAt: int, mailed: bool)
    requires c in s.calls && s.calls[c] == ClearingResets(u)
    ensures var s' := Next(Next(s, ClearResets(c)), CreateReset(c, token, expiresAt, mailed));
            var rest := ResetsWithoutUser(s.resets, u);
            && s'.users == s.users && s'.refresh == s.refresh && c in s'.calls
            && if ResetStored(rest, token) then s'.resets == rest && s'.calls[c] == Replied(Refused)
               else
                 && s'.resets == rest[s.nextId := ResetRow(token, u, expiresAt)]
                 && s'.calls[c] == Replied(if mailed then MailSent(token) else Refused)
  {
    StepClearResets(s, c, u);
    var t := DoClearResets(s, c, u);
    assert Next(t, CreateReset(c, token, expiresAt, mailed)) == DoCreateReset(t, c, u, token, expiresAt, mailed);
  }

  lemma ForgotFollowsProtocol(s: State, c: nat, userId: string, token: string, expiresAt: int, mailed: bool)
    requires Idle(s, c)
    ensures var s' := Run(s, [BeginForgot(c, userId), ClearResets(c), CreateReset(c, token, expiresAt, mailed)]);
            var (resets, reply) := Forgotten(s.users, s.resets, s.nextId, userId, token, expiresAt, mailed);
            && s'.resets == resets && s'.users == s.users && s'.refresh == s.refresh
            && c in s'.calls && s'.calls[c] == Replied(reply)
  {
    var t := DoBeginForgot(s, c, userId);
    var begin, clear, create := BeginForgot(c, userId), ClearResets(c), CreateReset(c, token, expiresAt, mailed);
    match t.calls[c]
    case Replied(_) => FoldThree(Next, s, begin, t, clear, t, create, t);
    case ClearingResets(u) =>
      StepBeginForgot(s, c, u);
      ClearThenCreate(t, c, u, token, expiresAt, mailed);
      FoldThree(Next, s, begin, t, clear, Next(t, clear), create, Next(Next(t, clear), create));
  }

  lemma ResetFollowsProtocol(s: State, c: nat, token: string, now: int, hash: string)
    requires Idle(s, c)
    ensures var s' := Run(s, [BeginReset(c, token, now, hash), DropExpiredReset(c), CommitReset(c)]);
            var (tables, ok) := PasswordReset(ResetTables(s.users, s.resets, s.refresh), token, now, hash);
            && ResetTables(s'.users, s'.resets, s'.refresh) == tables
            && c in s'.calls && s'.calls[c].Replied? && (s'.calls[c].reply.PasswordChanged? <==> ok)
  {
    var t := DoBeginReset(s, c, token, now, hash);
    var begin, drop, commit := BeginReset(c, token, now, hash), DropExpiredReset(c), CommitReset(c);
    match t.calls[c]
    case Replied(_) => FoldThree(Next, s, begin, t, drop, t, commit, t);
    case DroppingExpiredReset(row) =>
      var u := DoDropExpiredReset(t, c, row);
      FoldThree(Next, s, begin, t, drop, u, commit, u);
    case Resetting(row, stored, _) =>
      FoldThree(Next, s, begin, t, drop, t, commit, DoCommitReset(t, c, row, stored.userId, hash));
  }

  // ---------- outcomes, row by row ----------

  /** Row `id` leaves the table, all others stay as they are. */
  ghost predicate OnlyGone<R>(rows: map<nat, R>, rows': map<nat, R>, id: nat) {
    && id !in rows'
    && (forall i :: i in rows' ==> i in rows && rows'[i] == rows[i])
    && (forall i :: i in rows && i != id ==> i in rows')
  }

  /** Rows `gone` leave, row `added` comes, all others stay as they are. */
  ghost predicate Exchanged(rows: map<nat, RefreshRow>, rows': map<nat, RefreshRow>, gone: nat, added: nat, row: RefreshRow)
  {
    && gone !in rows' && added in rows' && rows'[added] == row
    && (forall i :: i in rows' && i != added ==> i in rows && rows'[i] == rows[i])
    && (forall i :: i in rows && i != gone ==> i in rows')
  }

  /**
    `refreshTokens`: an unknown or badly signed token changes nothing; an expired row goes; a live one is
    exchanged for a row of the same user and chain with the new token, or just goes when that is taken.
   */
  ghost predicate RefreshOutcome(rows: map<nat, RefreshRow>, nextId: nat, token: string, signatureOk: bool, now: int,
                                 newToken: string, expiresAt: int, rows': map<nat, RefreshRow>, ok: bool)
  {
    if signatureOk && exists id :: id in rows && rows[id].token == token then
      forall id :: id in rows && rows[id].token == token ==>
        var taken := exists i :: i in rows && i != id && rows[i].token == newToken;
        && (ok <==> now <= rows[id].expiresAt && !taken)
        && (ok ==> Exchanged(rows, rows', id, nextId, RefreshRow(newToken, rows[id].userId, expiresAt, rows[id].chain)))
        && (!ok ==> OnlyGone(rows, rows', id))
    else !ok && rows' == rows
  }

  lemma RefreshMeaning(rows: map<nat, RefreshRow>, nextId: nat, token: string, signatureOk: bool, now: int,
                       newToken: string, expiresAt: int)
    requires RefreshUnique(rows) && nextId !in rows
    ensures var (rows', ok) := Refreshed(rows, nextId, token, signatureOk, now, newToken, expiresAt);
            RefreshOutcome(rows, nextId, token, signatureOk, now, newToken, expiresAt, rows', ok)
  {
    var (rows', ok) := Refreshed(rows, nextId, token, signatureOk, now, newToken, expiresAt);
    forall id | signatureOk && id in rows && rows[id].token == token
      ensures var taken := exists i :: i in rows && i != id && rows[i].token == newToken;
              && (ok <==> now <= rows[id].expiresAt && !taken)
              && (ok ==> Exchanged(rows, rows', id, nextId, RefreshRow(newToken, rows[id].userId, expiresAt, rows[id].chain)))
              && (!ok ==> OnlyGone(rows, rows', id))
    {
      assert FindRefresh(rows, token) == Some(id);
      assert TokenStored(rows - {id}, newToken) <==> exists i :: i in rows && i != id && rows[i].token == newToken by {
        if i :| i in rows && i != id && rows[i].token == newToken { assert i in rows - {id}; }
        if i :| i in rows - {id} && (rows - {id})[i].token == newToken { assert i in rows && i != id; }
      }
    }
  }

  /** What a login stores: a row that begins a chain of its own, unless the token is taken. */
  ghost predicate LoginOutcome(rows: map<nat, RefreshRow>, nextId: nat, userId: string, token: string, expiresAt: int,
                               rows': map<nat, RefreshRow>, stored: bool)
  {
    && (stored <==> forall id :: id in rows ==> rows[id].token != token)
    && (!stored ==> rows' == rows)
    && (stored ==> rows' == rows[nextId := RefreshRow(token, userId, expiresAt, nextId)])
  }

  lemma StepLogin(s: State, c: nat, userId: string, token: string, expiresAt: int)
    requires Idle(s, c)
    ensures Next(s, Login(c, userId, token, expiresAt)) == DoLogin(s, c, userId, token, expiresAt)
  {
  }

  lemma LoginFollowsProtocol(s: State, c: nat, userId: string, token: string, expiresAt: int)
    returns (s': State, stored: bool)
    requires Idle(s, c)
    ensures s' == Next(s, Login(c, userId, token, expiresAt)) && c in s'.calls
    ensures s'.calls[c] == Replied(if stored then LoggedIn(s.nextId) else Refused)
    ensures if userId in s.users then LoginOutcome(s.refresh, s.nextId, userId, token, expiresAt, s'.refresh, stored)
            else !stored && s'.refresh == s.refresh
    ensures s'.users == s.users && s'.resets == s.resets
  {
    StepLogin(s, c, userId, token, expiresAt);
    s' := DoLogin(s, c, userId, token, expiresAt);
    stored := userId in s.users && !TokenStored(s.refresh, token);
  }

  /** A logout ends exactly the sessions with that user and token. */
  ghost predicate LogoutOutcome(rows: map<nat, RefreshRow>, userId: string, token: string, rows': map<nat, RefreshRow>) {
    && (forall id :: id in rows' <==> id in rows && !(rows[id].userId == userId && rows[id].token == token))
    && (forall id :: id in rows' ==> rows'[id] == rows[id])
  }

  lemma LogoutFollowsProtocol(s: State, userId: string, token: string)
    ensures var s' := Next(s, Logout(userId, token));
            LogoutOutcome(s.refresh, userId, token, s'.refresh) && s' == s.(refresh := s'.refresh)
  {
  }

  /** The account may reset its password by mail: an administrator's with a password. */
  predicate MayReset(users: map<string, User>, userId: string) {
    userId in users && users[userId].isAdmin && users[userId].password.Some?
  }

  /**
    `forgotPassword`: for any other account nothing happens and the answer is neutral; else every token of the
    user but the new one goes, and nobody else's.
   */
  ghost predicate ForgotOutcome(users: map<string, User>, resets: map<nat, ResetRow>, nextId: nat, userId: string,
                                token: string, expiresAt: int, mailed: bool, resets': map<nat, ResetRow>, r: Reply)
  {
    var taken := exists id :: id in resets && resets[id].userId != userId && resets[id].token == token;
    && (r == Neutral <==> !MayReset(users, userId))
    && (!MayReset(users, userId) ==> resets' == resets)
    && (MayReset(users, userId) ==>
          && r == (if taken || !mailed then Refused else MailSent(token))
          && (forall id :: id in resets' && resets'[id].userId == userId <==> !taken && id == nextId)
          && (!taken ==> nextId in resets' && resets'[nextId] == ResetRow(token, userId, expiresAt)))
    && (forall id :: id in resets && resets[id].userId != userId ==> id in resets' && resets'[id] == resets[id])
    && (forall id :: id in resets' && resets'[id].userId != userId ==> id in resets)
  }

  lemma ForgotMeaning(users: map<string, User>, resets: map<nat, ResetRow>, nextId: nat, userId: string, token: string,
                      expiresAt: int, mailed: bool)
    requires nextId !in resets
    ensures var (resets', r) := Forgotten(users, resets, nextId, userId, token, expiresAt, mailed);
            ForgotOutcome(users, resets, nextId, userId, token, expiresAt, mailed, resets', r)
  {
    var rest := ResetsWithoutUser(resets, userId);
    assert ResetStored(rest, token) <==> exists id :: id in resets && resets[id].userId != userId && resets[id].token == token by {
      if id :| id in resets && resets[id].userId != userId && resets[id].token == token { assert id in rest; }
      if id :| id in rest && rest[id].token == token { assert id in resets && resets[id].userId != userId; }
    }
  }

  /** The account may have its password changed: an active administrator's. */
  predicate MayChange(users: map<string, User>, userId: string) {
    userId in users && users[userId].isAdmin && users[userId].isActive
  }

  /** A password is set, its user's sessions end, and nobody else's account or session is touched. */
  ghost predicate PasswordSet(t: ResetTables, u: string, hash: string, t': ResetTables)
    requires u in t.users
  {
    && t'.users.Keys == t.users.Keys && t'.users[u] == t.users[u].(password := Some(hash))
    && (forall v :: v in t.users && v != u ==> t'.users[v] == t.users[v])
    && (forall id :: id in t'.refresh <==> id in t.refresh && t.refresh[id].userId != u)
    && (forall id :: id in t'.refresh ==> t'.refresh[id] == t.refresh[id])
  }

  /**
    `resetPassword`: an unknown token changes nothing; an expired row goes; for an account that may not,
    nothing changes; else the row goes and the password is set.
   */
  ghost predicate ResetOutcome(t: ResetTables, token: string, now: int, hash: string, t': ResetTables, ok: bool) {
    if exists id :: id in t.resets && t.resets[id].token == token then
      forall id :: id in t.resets && t.resets[id].token == token ==>
        var row := t.resets[id];
        && (ok <==> now <= row.expiresAt && MayChange(t.users, row.userId))
        && (ok ==> OnlyGone(t.resets, t'.resets, id) && PasswordSet(t, row.userId, hash, t'))
        && (!ok ==> t'.users == t.users && t'.refresh == t.refresh)
        && (now > row.expiresAt ==> OnlyGone(t.resets, t'.resets, id))
        && (now <= row.expiresAt && !ok ==> t'.resets == t.resets)
    else !ok && t' == t
  }

  lemma ResetMeaning(t: ResetTables, token: string, now: int, hash: string)
    requires ResetsUnique(t.resets)
    ensures var (t', ok) := PasswordReset(t, token, now, hash); ResetOutcome(t, token, now, hash, t', ok)
  {
    forall id | id in t.resets && t.resets[id].token == token ensures FindReset(t.resets, token) == Some(id) {}
  }

  // ---------- the service in place ----------

  ghost predicate IdsBelow<R>(rows: map<nat, R>, nextId: nat) {
    forall i :: i in rows ==> i < nextId
  }

  ghost predicate OnePerUser(resets: map<nat, ResetRow>) {
    forall i, j :: i in resets && j in resets && i != j ==> resets[i].userId != resets[j].userId
  }

  /** Clearing a user's tokens and adding one keeps the reset table in order. */
  lemma ReplacedReset(resets: map<nat, ResetRow>, nextId: nat, row: ResetRow)
    requires ResetsUnique(resets) && OnePerUser(resets) && IdsBelow(resets, nextId)
    ensures var rest := ResetsWithoutUser(resets, row.userId);
            && ResetsUnique(rest) && OnePerUser(rest) && IdsBelow(rest, nextId)
            && (!ResetStored(rest, row.token) ==>
                ResetsUnique(rest[nextId := row]) && OnePerUser(rest[nextId := row]) && IdsBelow(rest[nextId := row], nextId + 1))
  {
  }

  class AuthService {
    var users: map<string, User>
    var refresh: map<nat, RefreshRow>
    var resets: map<nat, ResetRow>
    var nextId: nat

    /** The unique keys of the two token tables, ids that were never used, and one reset token per user. */
    ghost predicate Valid()
      reads this
    {
      && RefreshUnique(refresh) && ResetsUnique(resets) && OnePerUser(resets)
      && IdsBelow(refresh, nextId) && IdsBelow(resets, nextId)
    }

    constructor (users: map<string, User>)
      ensures Valid() && this.users == users && refresh == map[] && resets == map[]
    {
      this.users, refresh, resets, nextId := users, map[], map[], 0;
    }

    /** `storeRefreshToken`, at the end of a login: a fresh chain. */
    method StoreLogin(userId: string, token: string, expiresAt: int) returns (stored: bool)
      requires Valid()
      modifies this`refresh, this`nextId
      ensures Valid()
      ensures LoginOutcome(old(refresh), old(nextId), userId, token, expiresAt, refresh, stored)
    {
      stored := true;
      if id :| id in refresh && refresh[id].token == token {
        stored := false;
      } else {
        refresh, nextId := refresh[nextId := RefreshRow(token, userId, expiresAt, nextId)], nextId + 1;
      }
    }

    /**
      `refreshTokens`: exactly one row is exchanged for one new row of the same user and chain. An
      expired row is deleted and nothing issued; and when the new token is already taken, the old row
      is gone all the same, since the delete comes first.
     */
    method RefreshTokens(token: string, signatureOk: bool, now: int, newToken: string, expiresAt: int) returns (ok: bool)
      requires Valid()
      modifies this`refresh, this`nextId
      ensures Valid()
      ensures (refresh, ok) == Refreshed(old(refresh), old(nextId), token, signatureOk, now, newToken, expiresAt)
      ensures RefreshOutcome(old(refresh), old(nextId), token, signatureOk, now, newToken, expiresAt, refresh, ok)
    {
      RefreshMeaning(refresh, nextId, token, signatureOk, now, newToken, expiresAt);
      ok := false;
      if !signatureOk {
        return;
      }
      if id :| id in refresh && refresh[id].token == token {
        assert FindRefresh(refresh, token) == Some(id);
        var storedToken := refresh[id];
        refresh := refresh - {id};
        if now > storedToken.expiresAt {
          return;
        }
        if other :| other in refresh && refresh[other].token == newToken {
          assert TokenStored(refresh, newToken);
          return;
        }
        refresh := refresh[nextId := RefreshRow(newToken, storedToken.userId, expiresAt, storedToken.chain)];
        nextId := nextId + 1;
        ok := true;
      }
    }

    /** `logout`. */
    method Logout(userId: string, token: string)
      requires Valid()
      modifies this`refresh
      ensures Valid()
      ensures LogoutOutcome(old(refresh), userId, token, refresh)
    {
      refresh := map id | id in refresh && !(refresh[id].userId == userId && refresh[id].token == token) :: refresh[id];
    }

    /**
      `forgotPassword`: all earlier reset tokens of the user die and one new one lives; those of others
      are untouched. Should the new token be taken, the earlier ones are dead all the same; should the mail
      fail, the new one lives although the answer is an error.
     */
    method ForgotPassword(userId: string, token: string, expiresAt: int, mailed: bool) returns (r: Reply)
      requires Valid()
      modifies this`resets, this`nextId
      ensures Valid()
      ensures (resets, r) == Forgotten(users, old(resets), old(nextId), userId, token, expiresAt, mailed)
      ensures ForgotOutcome(users, old(resets), old(nextId), userId, token, expiresAt, mailed, resets, r)
    {
      ForgotMeaning(users, resets, nextId, userId, token, expiresAt, mailed);
      if userId !in users || users[userId].password.None? || !users[userId].isAdmin {
        return Neutral;
      }
      ReplacedReset(resets, nextId, ResetRow(token, userId, expiresAt));
      resets := ResetsWithoutUser(resets, userId);
      if id :| id in resets && resets[id].token == token {
        assert ResetStored(resets, token);
        return Refused;
      }
      resets, nextId := resets[nextId := ResetRow(token, userId, expiresAt)], nextId + 1;
      r := if mailed then MailSent(token) else Refused;
    }

    /** `resetPassword`: the password is set, the token used up and every session of the user ended, or nothing is. */
    method ResetPassword(token: string, now: int, hash: string) returns (ok: bool)
      requires Valid()
      modifies this`users, this`resets, this`refresh
      ensures Valid()
      ensures (ResetTables(users, resets, refresh), ok) ==
              PasswordReset(ResetTables(old(users), old(resets), old(refresh)), token, now, hash)
      ensures ResetOutcome(ResetTables(old(users), old(resets), old(refresh)), token, now, hash,
                           ResetTables(users, resets, refresh), ok)
    {
      ResetMeaning(ResetTables(users, resets, refresh), token, now, hash);
      ok := false;
      if id :| id in resets && resets[id].token == token {
        assert FindReset(resets, token) == Some(id);
        var resetToken := resets[id];
        if now > resetToken.expiresAt {
          resets := resets - {id};
          return;
        }
        if resetToken.userId !in users || !users[resetToken.userId].isAdmin || !users[resetToken.userId].isActive {
          return;
        }
        users := users[resetToken.userId := users[resetToken.userId].(password := Some(hash))];
        resets := resets - {id};
        refresh := WithoutUser(refresh, resetToken.userId);
        ok := true;
      }
    }
  }
}
