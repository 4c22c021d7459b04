/**
  Refresh-token rotation and password reset as a state machine over the atomic steps between two
  awaits (src/modules/auth/auth.service.ts). Any number of calls are in flight; token strings,
  hashes and the clock are inputs of the steps.

  The database refuses a second row with a token already stored, and `delete` by id fails when the
  row is gone; that failure is what decides between two calls presenting the same token.
 */
module Sessions {
  import opened Prelude

  datatype User = User(isAdmin: bool, isActive: bool, password: Option<string>)

  /** A row of `refresh_tokens`. `chain` is history: the id of the row its login stored. */
  datatype RefreshRow = RefreshRow(token: string, userId: string, expiresAt: int, chain: nat)

  /** A row of `password_reset_tokens`. */
  datatype ResetRow = ResetRow(token: string, userId: string, expiresAt: int)

  datatype Reply =
    | LoggedIn(row: nat)
    | NewPair(row: nat, presented: string, newToken: string)
    | PasswordChanged(row: nat, userId: string)
    | MailSent(token: string)
    | Neutral
    | Refused

  /** What a call will do when it is scheduled next. */
  datatype Call =
    | DroppingExpired(row: nat)
    | Redeeming(row: nat, stored: RefreshRow, newToken: string)
    | StoringFresh(row: nat, stored: RefreshRow, newToken: string)
    | ClearingResets(userId: string)
    | CreatingReset(userId: string)
    | DroppingExpiredReset(row: nat)
    | Resetting(row: nat, storedReset: ResetRow, hash: string)
    | Replied(reply: Reply)

  /** The tables, the calls, and as history every row that was ever stored. */
  datatype State = State(
    users: map<string, User>,
    refresh: map<nat, RefreshRow>,
    resets: map<nat, ResetRow>,
    nextId: nat,
    calls: map<nat, Call>,
    issued: map<nat, RefreshRow>,
    issuedResets: map<nat, ResetRow>)

  datatype Action =
    | Login(call: nat, userId: string, token: string, expiresAt: int)
    | BeginRefresh(call: nat, token: string, signatureOk: bool, now: int, newToken: string)
    | DropExpired(call: nat)
    | Redeem(call: nat)
    | StoreFresh(call: nat, expiresAt: int)
    | Logout(userId: string, token: string)
    | BeginForgot(call: nat, userId: string)
    | ClearResets(call: nat)
    | CreateReset(call: nat, token: string, expiresAt: int, mailed: bool)
    | BeginReset(call: nat, token: string, now: int, hash: string)
    | DropExpiredReset(call: nat)
    | CommitReset(call: nat)

  // ---------- table operations ----------

  predicate TokenStored(refresh: map<nat, RefreshRow>, token: string) {
    exists id :: id in refresh && refresh[id].token == token
  }

  predicate ResetStored(resets: map<nat, ResetRow>, token: string) {
    exists id :: id in resets && resets[id].token == token
  }

  /** `findUnique` by token; uniqueness of the column makes the answer unique (`FindIsUnique`). */
  ghost function FindRefresh(refresh: map<nat, RefreshRow>, token: string): (r: Option<nat>)
    ensures r.Some? ==> r.value in refresh && refresh[r.value].token == token
    ensures r.None? <==> !TokenStored(refresh, token)
  {
    if TokenStored(refresh, token) then
      var id :| id in refresh && refresh[id].token == token;
      Some(id)
    else None
  }

  ghost function FindReset(resets: map<nat, ResetRow>, token: string): (r: Option<nat>)
    ensures r.Some? ==> r.value in resets && resets[r.value].token == token
    ensures r.None? <==> !ResetStored(resets, token)
  {
    if ResetStored(resets, token) then
      var id :| id in resets && resets[id].token == token;
      Some(id)
    else None
  }

  function Resume(s: State, c: nat, call: Call): State {
    s.(calls := s.calls[c := call])
  }

  function AddRefresh(s: State, row: RefreshRow): State {
    s.(refresh := s.refresh[s.nextId := row], issued := s.issued[s.nextId := row], nextId := s.nextId + 1)
  }

  function AddReset(s: State, row: ResetRow): State {
    s.(resets := s.resets[s.nextId := row], issuedResets := s.issuedResets[s.nextId := row], nextId := s.nextId + 1)
  }

  function WithoutUser(refresh: map<nat, RefreshRow>, userId: string): map<nat, RefreshRow> {
    map id | id in refresh && refresh[id].userId != userId :: refresh[id]
  }

  function ResetsWithoutUser(resets: map<nat, ResetRow>, userId: string): map<nat, ResetRow> {
    map id | id in resets && resets[id].userId != userId :: resets[id]
  }

  // ---------- the steps ----------

  function DoLogin(s: State, c: nat, userId: string, token: string, expiresAt: int): State {
    if userId !in s.users || TokenStored(s.refresh, token) then Resume(s, c, Replied(Refused))
    else Resume(AddRefresh(s, RefreshRow(token, userId, expiresAt, s.nextId)), c, Replied(LoggedIn(s.nextId)))
  }

  ghost function DoBeginRefresh(s: State, c: nat, token: string, signatureOk: bool, now: int, newToken: string): State {
    var found := FindRefresh(s.refresh, token);
    Resume(s, c,
           if !signatureOk || found.None? then Replied(Refused)
           else if now > s.refresh[found.value].expiresAt then DroppingExpired(found.value)
           else Redeeming(found.value, s.refresh[found.value], newToken))
  }

  function DoDropExpired(s: State, c: nat, row: nat): State {
    Resume(s.(refresh := s.refresh - {row}), c, Replied(Refused))
  }

  function DoClearResets(s: State, c: nat, userId: string): State {
    Resume(s.(resets := ResetsWithoutUser(s.resets, userId)), c, CreatingReset(userId))
  }

  function DoDropExpiredReset(s: State, c: nat, row: nat): State {
    Resume(s.(resets := s.resets - {row}), c, Replied(Refused))
  }

  /** `delete` by id: it throws when the row is gone, and the call ends there. */
  function DoRedeem(s: State, c: nat, row: nat, stored: RefreshRow, newToken: string): State {
    if row in s.refresh then Resume(s.(refresh := s.refresh - {row}), c, StoringFresh(row, stored, newToken))
    else Resume(s, c, Replied(Refused))
  }

  function DoStoreFresh(s: State, c: nat, row: nat, stored: RefreshRow, newToken: string, expiresAt: int): State {
    if TokenStored(s.refresh, newToken) then Resume(s, c, Replied(Refused))
    else
      AddRefresh(Resume(s, c, Replied(NewPair(row, stored.token, newToken))),
                 RefreshRow(newToken, stored.userId, expiresAt, stored.chain))
  }

  function DoLogout(s: State, userId: string, token: string): State {
    s.(refresh := map id | id in s.refresh && !(s.refresh[id].userId == userId && s.refresh[id].token == token) :: s.refresh[id])
  }

  /** Unknown users, users without a password and customers all get the same neutral answer. */
  function DoBeginForgot(s: State, c: nat, userId: string): State {
    Resume(s, c,
           if userId in s.users && s.users[userId].password.Some? && s.users[userId].isAdmin
           then ClearingResets(userId) else Replied(Neutral))
  }

  /** The row is stored before the mail goes out, and stays when sending throws. */
  function DoCreateReset(s: State, c: nat, userId: string, token: string, expiresAt: int, mailed: bool): State {
    if ResetStored(s.resets, token) then Resume(s, c, Replied(Refused))
    else
      Resume(AddReset(s, ResetRow(token, userId, expiresAt)), c, Replied(if mailed then MailSent(token) else Refused))
  }

  ghost function DoBeginReset(s: State, c: nat, token: string, now: int, hash: string): State {
    var found := FindReset(s.resets, token);
    Resume(s, c,
           if found.None? then Replied(Refused)
           else
             var row := s.resets[found.value];
             if now > row.expiresAt then DroppingExpiredReset(found.value)
             else if row.userId !in s.users || !s.users[row.userId].isAdmin || !s.users[row.userId].isActive then Replied(Refused)
             else Resetting(found.value, row, hash))
  }

  /** The transaction of `resetPassword`: the token delete fails for the loser and rolls all back. */
  function DoCommitReset(s: State, c: nat, row: nat, userId: string, hash: string): State {
    if row !in s.resets || userId !in s.users then Resume(s, c, Replied(Refused))
    else
      Resume(s.(users := s.users[userId := s.users[userId].(password := Some(hash))],
                resets := s.resets - {row},
                refresh := WithoutUser(s.refresh, userId)), c, Replied(PasswordChanged(row, userId)))
  }

  predicate Idle(s: State, c: nat) { c !in s.calls }

  predicate OfRefresh(a: Action) {
    a.Login? || a.BeginRefresh? || a.DropExpired? || a.Redeem? || a.StoreFresh? || a.Logout?
  }

  ghost function NextOfRefresh(s: State, a: Action): State
    requires OfRefresh(a)
  {
    match a
    case Login(c, userId, token, expiresAt) => if Idle(s, c) then DoLogin(s, c, userId, token, expiresAt) else s
    case BeginRefresh(c, token, signatureOk, now, newToken) =>
      if Idle(s, c) then DoBeginRefresh(s, c, token, signatureOk, now, newToken) else s
    case DropExpired(c) =>
      if c in s.calls && s.calls[c].DroppingExpired? then DoDropExpired(s, c, s.calls[c].row) else s
    case Redeem(c) =>
      if c in s.calls && s.calls[c].Redeeming?
      then DoRedeem(s, c, s.calls[c].row, s.calls[c].stored, s.calls[c].newToken) else s
    case StoreFresh(c, expiresAt) =>
      if c in s.calls && s.calls[c].StoringFresh?
      then DoStoreFresh(s, c, s.calls[c].row, s.calls[c].stored, s.calls[c].newToken, expiresAt) else s
    case Logout(userId, token) => DoLogout(s, userId, token)
  }

  ghost function NextOfReset(s: State, a: Action): State
    requires !OfRefresh(a)
  {
    match a
    case BeginForgot(c, userId) => if Idle(s, c) then DoBeginForgot(s, c, userId) else s
    case ClearResets(c) =>
      if c in s.calls && s.calls[c].ClearingResets? then DoClearResets(s, c, s.calls[c].userId) else s
    case CreateReset(c, token, expiresAt, mailed) =>
      if c in s.calls && s.calls[c].CreatingReset?
      then DoCreateReset(s, c, s.calls[c].userId, token, expiresAt, mailed) else s
    case BeginReset(c, token, now, hash) => if Idle(s, c) then DoBeginReset(s, c, token, now, hash) else s
    case DropExpiredReset(c) =>
      if c in s.calls && s.calls[c].DroppingExpiredReset? then DoDropExpiredReset(s, c, s.calls[c].row) else s
    case CommitReset(c) =>
      if c in s.calls && s.calls[c].Resetting?
      then DoCommitReset(s, c, s.calls[c].row, s.calls[c].storedReset.userId, s.calls[c].hash) else s
  }

  /** One scheduling decision; an action that is not enabled changes nothing. */
  ghost function Next(s: State, a: Action): State {
    if OfRefresh(a) then NextOfRefresh(s, a) else NextOfReset(s, a)
  }

  ghost function Run(s: State, actions: seq<Action>): State {
    Fold(Next, s, actions)
  }

  ghost predicate Initial(s: State) {
    && s.refresh == map[] && s.resets == map[] && s.calls == map[]
    && s.issued == map[] && s.issuedResets == map[]
  }

  // ---------- the invariant ----------

  /** The row a call has taken out of the table, if any. */
  function Claim(k: Call): Option<nat> {
    if k.StoringFresh? then Some(k.row)
    else if k.Replied? && k.reply.NewPair? then Some(k.reply.row) else None
  }

  /** The reset row a call has used up, if any. */
  function ResetClaim(k: Call): Option<nat> {
    if k.Replied? && k.reply.PasswordChanged? then Some(k.reply.row) else None
  }

  /** The rotation chain whose next row a call is about to store, if any. */
  function ChainHeld(k: Call): Option<nat> {
    if k.StoringFresh? then Some(k.stored.chain) else None
  }

  /** Every row was issued, and ids are handed out in order. */
  ghost predicate RowsIssued<R>(rows: map<nat, R>, issued: map<nat, R>, nextId: nat) {
    && (forall id :: id in issued ==> id < nextId)
    && (forall id :: id in rows ==> id in issued && issued[id] == rows[id])
  }

  ghost predicate TablesOk(s: State) {
    RowsIssued(s.refresh, s.issued, s.nextId) && RowsIssued(s.resets, s.issuedResets, s.nextId)
  }

  ghost predicate RefreshUnique(refresh: map<nat, RefreshRow>) {
    forall i, j :: i in refresh && j in refresh && i != j ==> refresh[i].token != refresh[j].token
  }

  ghost predicate ResetsUnique(resets: map<nat, ResetRow>) {
    forall i, j :: i in resets && j in resets && i != j ==> resets[i].token != resets[j].token
  }

  /** The unique keys. */
  ghost predicate TokensUnique(s: State) {
    RefreshUnique(s.refresh) && ResetsUnique(s.resets)
  }

  ghost predicate CallOk(k: Call, s: State) {
    match k
    case Redeeming(row, stored, _) => row in s.issued && s.issued[row] == stored
    case StoringFresh(row, stored, _) => row in s.issued && s.issued[row] == stored && row !in s.refresh
    case Resetting(row, stored, _) => row in s.issuedResets && s.issuedResets[row] == stored
    case Replied(reply) =>
      (match reply
       case NewPair(row, presented, _) => row in s.issued && row !in s.refresh && s.issued[row].token == presented
       case PasswordChanged(row, u) => row in s.issuedResets && row !in s.resets && s.issuedResets[row].userId == u
       case _ => true)
    case _ => true
  }

  ghost predicate ClaimsApart(calls: map<nat, Call>) {
    forall c, d :: c in calls && d in calls && c != d && Claim(calls[c]).Some? ==> Claim(calls[c]) != Claim(calls[d])
  }

  ghost predicate ResetClaimsApart(calls: map<nat, Call>) {
    forall c, d :: c in calls && d in calls && c != d && ResetClaim(calls[c]).Some? ==>
      ResetClaim(calls[c]) != ResetClaim(calls[d])
  }

  /** A row is redeemed by one call only, a reset row used by one call only. */
  ghost predicate UsedOnce(calls: map<nat, Call>) {
    ClaimsApart(calls) && ResetClaimsApart(calls)
  }

  ghost predicate OneRowPerChain(refresh: map<nat, RefreshRow>) {
    forall i, j :: i in refresh && j in refresh && i != j ==> refresh[i].chain != refresh[j].chain
  }

  ghost predicate RowsAndCallsApart(refresh: map<nat, RefreshRow>, calls: map<nat, Call>) {
    forall c, i :: c in calls && i in refresh ==> ChainHeld(calls[c]) != Some(refresh[i].chain)
  }

  ghost predicate OneCallPerChain(calls: map<nat, Call>) {
    forall c, d :: c in calls && d in calls && c != d && ChainHeld(calls[c]).Some? ==>
      ChainHeld(calls[c]) != ChainHeld(calls[d])
  }

  ghost predicate ChainsOld(issued: map<nat, RefreshRow>, nextId: nat) {
    forall id :: id in issued ==> issued[id].chain < nextId
  }

  /** One holder per chain: a live row, or a call about to store the chain's next row. */
  ghost predicate OneHolderPerChain(s: State) {
    && OneRowPerChain(s.refresh) && RowsAndCallsApart(s.refresh, s.calls)
    && OneCallPerChain(s.calls) && ChainsOld(s.issued, s.nextId)
  }

  ghost predicate Inv(s: State) {
    && TablesOk(s) && TokensUnique(s) && UsedOnce(s.calls) && OneHolderPerChain(s)
    && forall c :: c in s.calls ==> CallOk(s.calls[c], s)
  }

  ghost predicate Grows<R>(rows: map<nat, R>, rows': map<nat, R>) {
    forall id :: id in rows ==> id in rows' && rows'[id] == rows[id]
  }

  ghost predicate CallsGoOn(calls: map<nat, Call>, calls': map<nat, Call>) {
    forall c :: c in calls ==> c in calls' && (calls[c].Replied? ==> calls'[c] == calls[c])
  }

  /** What was issued and is gone does not come back. */
  ghost predicate GoneForGood<R>(issued: map<nat, R>, rows: map<nat, R>, rows': map<nat, R>) {
    forall id :: id in issued && id !in rows ==> id !in rows'
  }

  /** How a later state relates to an earlier one. */
  ghost predicate Evolves(s: State, s': State) {
    && s.nextId <= s'.nextId && s'.users.Keys == s.users.Keys
    && Grows(s.issued, s'.issued) && Grows(s.issuedResets, s'.issuedResets)
    && CallsGoOn(s.calls, s'.calls)
    && GoneForGood(s.issued, s.refresh, s'.refresh) && GoneForGood(s.issuedResets, s.resets, s'.resets)
  }

  lemma EvolvesTransitive(s: State, t: State, u: State)
    requires Evolves(s, t) && Evolves(t, u)
    ensures Evolves(s, u)
  {
  }

  /** What call `c` may become without disturbing the others. */
  ghost predicate Exclusive(s: State, c: nat, k: Call) {
    && (forall d :: d in s.calls && d != c ==>
          (Claim(k).None? || Claim(s.calls[d]) != Claim(k)) && (ResetClaim(k).None? || ResetClaim(s.calls[d]) != ResetClaim(k)))
    && (ChainHeld(k).Some? ==> ChainFree(s, c, ChainHeld(k).value))
  }

  ghost predicate ChainFree(s: State, c: nat, chain: nat) {
    && (forall id :: id in s.refresh ==> s.refresh[id].chain != chain)
    && (forall d :: d in s.calls && d != c ==> ChainHeld(s.calls[d]) != Some(chain))
  }

  lemma CallsStayOk(s: State, s': State)
    requires Inv(s) && Evolves(s, s')
    ensures forall d :: d in s.calls ==> CallOk(s.calls[d], s')
  {
    forall d | d in s.calls ensures CallOk(s.calls[d], s') {
      assert CallOk(s.calls[d], s);
    }
  }

  lemma ResumeUsedOnce(s: State, c: nat, k: Call)
    requires UsedOnce(s.calls) && Exclusive(s, c, k)
    ensures UsedOnce(s.calls[c := k])
  {
  }

  lemma ResumeOneHolder(s: State, c: nat, k: Call)
    requires OneHolderPerChain(s) && Exclusive(s, c, k)
    ensures OneHolderPerChain(Resume(s, c, k))
  {
  }

  /** A step that only moves one call. */
  lemma ResumeKeepsInv(s: State, c: nat, k: Call)
    requires Inv(s) && CallOk(k, s) && Exclusive(s, c, k)
    requires c in s.calls ==> !s.calls[c].Replied?
    ensures Inv(Resume(s, c, k)) && Evolves(s, Resume(s, c, k))
  {
    var s' := Resume(s, c, k);
    ResumeUsedOnce(s, c, k);
    ResumeOneHolder(s, c, k);
    assert Evolves(s, s');
    CallsStayOk(s, s');
    assert CallOk(k, s');
  }

  /** A call that holds no claim disturbs nobody. */
  predicate Unclaiming(k: Call) { Claim(k).None? && ResetClaim(k).None? && ChainHeld(k).None? }

  lemma UnclaimingKeepsInv(s: State, c: nat, k: Call)
    requires Inv(s) && CallOk(k, s) && Unclaiming(k)
    requires c in s.calls ==> !s.calls[c].Replied?
    ensures Inv(Resume(s, c, k)) && Evolves(s, Resume(s, c, k))
  {
    assert Exclusive(s, c, k);
    ResumeKeepsInv(s, c, k);
  }

  /** After a change of the tables that keeps the invariant, the call that made it moves on. */
  lemma ThenResume(s: State, mid: State, c: nat, k: Call)
    requires Inv(mid) && Evolves(s, mid) && CallOk(k, mid)
    requires Unclaiming(k) || Exclusive(mid, c, k)
    requires c in mid.calls ==> !mid.calls[c].Replied?
    ensures Inv(Resume(mid, c, k)) && Evolves(s, Resume(mid, c, k))
  {
    ResumeKeepsInv(mid, c, k);
    EvolvesTransitive(s, mid, Resume(mid, c, k));
  }

  /** A step that only deletes rows, and perhaps sets a password. */
  lemma ShrinkKeepsInv(s: State, users: map<string, User>, refresh: map<nat, RefreshRow>, resets: map<nat, ResetRow>)
    requires Inv(s) && users.Keys == s.users.Keys
    requires forall id :: id in refresh ==> id in s.refresh && refresh[id] == s.refresh[id]
    requires forall id :: id in resets ==> id in s.resets && resets[id] == s.resets[id]
    ensures var s' := s.(users := users, refresh := refresh, resets := resets); Inv(s') && Evolves(s, s')
  {
    var s' := s.(users := users, refresh := refresh, resets := resets);
    assert Evolves(s, s');
    CallsStayOk(s, s');
  }

  lemma AddRefreshTables(s: State, row: RefreshRow)
    requires TablesOk(s) && TokensUnique(s) && !TokenStored(s.refresh, row.token)
    ensures TablesOk(AddRefresh(s, row)) && TokensUnique(AddRefresh(s, row)) && Evolves(s, AddRefresh(s, row))
  {
  }

  lemma AddRefreshOneHolder(s: State, row: RefreshRow)
    requires OneHolderPerChain(s) && row.chain <= s.nextId
    requires forall id :: id in s.refresh ==> s.refresh[id].chain != row.chain
    requires forall d :: d in s.calls ==> ChainHeld(s.calls[d]) != Some(row.chain)
    ensures OneHolderPerChain(AddRefresh(s, row))
  {
  }

  lemma AddRefreshKeepsInv(s: State, row: RefreshRow)
    requires Inv(s) && !TokenStored(s.refresh, row.token) && row.chain <= s.nextId
    requires forall id :: id in s.refresh ==> s.refresh[id].chain != row.chain
    requires forall d :: d in s.calls ==> ChainHeld(s.calls[d]) != Some(row.chain)
    ensures Inv(AddRefresh(s, row)) && Evolves(s, AddRefresh(s, row))
  {
    AddRefreshTables(s, row);
    AddRefreshOneHolder(s, row);
    CallsStayOk(s, AddRefresh(s, row));
  }

  /** A login starts a chain that no row and no call can hold yet. */
  lemma FreshChainKeepsInv(s: State, row: RefreshRow)
    requires Inv(s) && !TokenStored(s.refresh, row.token) && row.chain == s.nextId
    ensures Inv(AddRefresh(s, row)) && Evolves(s, AddRefresh(s, row))
  {
    forall d | d in s.calls ensures ChainHeld(s.calls[d]) != Some(row.chain) {
      assert CallOk(s.calls[d], s);
    }
    AddRefreshKeepsInv(s, row);
  }

  lemma AddResetKeepsInv(s: State, row: ResetRow)
    requires Inv(s) && !ResetStored(s.resets, row.token)
    ensures Inv(AddReset(s, row)) && Evolves(s, AddReset(s, row))
  {
    var s' := AddReset(s, row);
    assert TablesOk(s') && Evolves(s, s');
    assert TokensUnique(s');
    assert OneHolderPerChain(s');
    CallsStayOk(s, s');
  }

  // ---------- one lemma per action ----------

  lemma LoginKeepsInv(s: State, a: Action)
    requires Inv(s) && a.Login?
    ensures Inv(Next(s, a)) && Evolves(s, Next(s, a))
  {
    if Idle(s, a.call) {
      if a.userId !in s.users || TokenStored(s.refresh, a.token) {
        UnclaimingKeepsInv(s, a.call, Replied(Refused));
      } else {
        var row, k := RefreshRow(a.token, a.userId, a.expiresAt, s.nextId), Replied(LoggedIn(s.nextId));
        var mid := AddRefresh(s, row);
        assert Next(s, a) == Resume(mid, a.call, k);
        FreshChainKeepsInv(s, row);
        ThenResume(s, mid, a.call, k);
      }
    }
  }

  lemma BeginRefreshKeepsInv(s: State, a: Action)
    requires Inv(s) && a.BeginRefresh?
    ensures Inv(Next(s, a)) && Evolves(s, Next(s, a))
  {
    if Idle(s, a.call) {
      var k := DoBeginRefresh(s, a.call, a.token, a.signatureOk, a.now, a.newToken).calls[a.call];
      assert Next(s, a) == Resume(s, a.call, k);
      UnclaimingKeepsInv(s, a.call, k);
    }
  }

  /** Deleting rows and ending the call. */
  lemma DropKeepsInv(s: State, c: nat, refresh: map<nat, RefreshRow>, resets: map<nat, ResetRow>, k: Call)
    requires Inv(s) && c in s.calls && !s.calls[c].Replied? && (k == Replied(Refused) || k.CreatingReset?)
    requires forall id :: id in refresh ==> id in s.refresh && refresh[id] == s.refresh[id]
    requires forall id :: id in resets ==> id in s.resets && resets[id] == s.resets[id]
    ensures var s' := Resume(s.(refresh := refresh, resets := resets), c, k); Inv(s') && Evolves(s, s')
  {
    ShrinkKeepsInv(s, s.users, refresh, resets);
    ThenResume(s, s.(refresh := refresh, resets := resets), c, k);
  }

  lemma DropExpiredKeepsInv(s: State, a: Action)
    requires Inv(s) && a.DropExpired?
    ensures Inv(Next(s, a)) && Evolves(s, Next(s, a))
  {
    if a.call in s.calls && s.calls[a.call].DroppingExpired? {
      DropKeepsInv(s, a.call, s.refresh - {s.calls[a.call].row}, s.resets, Replied(Refused));
    }
  }

  /** While a row is live no call has claimed it, and no call holds its chain. */
  lemma WinnerIsAlone(s: State, mid: State, c: nat, k: Call)
    requires Inv(s) && k.StoringFresh? && k.row in s.refresh && s.refresh[k.row] == k.stored
    requires mid == s.(refresh := s.refresh - {k.row})
    ensures Exclusive(mid, c, k)
  {
    forall d | d in s.calls ensures Claim(s.calls[d]) != Some(k.row) {
      assert CallOk(s.calls[d], s);
    }
  }

  /** The winner's delete: the row goes, and with it every other claim on the row and its chain. */
  lemma RedeemKeepsInv(s: State, a: Action)
    requires Inv(s) && a.Redeem?
    ensures Inv(Next(s, a)) && Evolves(s, Next(s, a))
  {
    var c := a.call;
    if c in s.calls && s.calls[c].Redeeming? {
      assert CallOk(s.calls[c], s);
      var row, k := s.calls[c].row, StoringFresh(s.calls[c].row, s.calls[c].stored, s.calls[c].newToken);
      if row in s.refresh {
        var mid := s.(refresh := s.refresh - {row});
        ShrinkKeepsInv(s, s.users, s.refresh - {row}, s.resets);
        WinnerIsAlone(s, mid, c, k);
        ThenResume(s, mid, c, k);
      } else {
        UnclaimingKeepsInv(s, c, Replied(Refused));
      }
    }
  }

  /** The storing call ends; its claim on the redeemed row stays, its hold on the chain goes. */
  lemma StoredReplyKeepsInv(s: State, c: nat, k: Call)
    requires Inv(s) && c in s.calls && s.calls[c].StoringFresh?
    requires k == Replied(NewPair(s.calls[c].row, s.calls[c].stored.token, s.calls[c].newToken))
    ensures Inv(Resume(s, c, k)) && Evolves(s, Resume(s, c, k))
    ensures ChainFree(Resume(s, c, k), c, s.calls[c].stored.chain) && s.calls[c].stored.chain < s.nextId
  {
    assert CallOk(s.calls[c], s);
    assert Claim(s.calls[c]) == Some(s.calls[c].row) && ChainHeld(s.calls[c]) == Some(s.calls[c].stored.chain);
    ResumeKeepsInv(s, c, k);
  }

  lemma StoreFreshKeepsInv(s: State, a: Action)
    requires Inv(s) && a.StoreFresh?
    ensures Inv(Next(s, a)) && Evolves(s, Next(s, a))
  {
    var c := a.call;
    if c in s.calls && s.calls[c].StoringFresh? {
      var stored, newToken := s.calls[c].stored, s.calls[c].newToken;
      if TokenStored(s.refresh, newToken) {
        UnclaimingKeepsInv(s, c, Replied(Refused));
      } else {
        var k := Replied(NewPair(s.calls[c].row, stored.token, newToken));
        var mid := Resume(s, c, k);
        StoredReplyKeepsInv(s, c, k);
        var added := RefreshRow(newToken, stored.userId, a.expiresAt, stored.chain);
        assert Next(s, a) == AddRefresh(mid, added);
        AddRefreshKeepsInv(mid, added);
        EvolvesTransitive(s, mid, AddRefresh(mid, added));
      }
    }
  }

  lemma LogoutKeepsInv(s: State, a: Action)
    requires Inv(s) && a.Logout?
    ensures Inv(Next(s, a)) && Evolves(s, Next(s, a))
  {
    ShrinkKeepsInv(s, s.users, DoLogout(s, a.userId, a.token).refresh, s.resets);
  }

  lemma BeginForgotKeepsInv(s: State, a: Action)
    requires Inv(s) && a.BeginForgot?
    ensures Inv(Next(s, a)) && Evolves(s, Next(s, a))
  {
    if Idle(s, a.call) {
      var k := DoBeginForgot(s, a.call, a.userId).calls[a.call];
      assert Next(s, a) == Resume(s, a.call, k);
      UnclaimingKeepsInv(s, a.call, k);
    }
  }

  lemma ClearResetsKeepsInv(s: State, a: Action)
    requires Inv(s) && a.ClearResets?
    ensures Inv(Next(s, a)) && Evolves(s, Next(s, a))
  {
    if a.call in s.calls && s.calls[a.call].ClearingResets? {
      var u := s.calls[a.call].userId;
      DropKeepsInv(s, a.call, s.refresh, ResetsWithoutUser(s.resets, u), CreatingReset(u));
    }
  }

  lemma AddResetThenReply(s: State, c: nat, row: ResetRow, mailed: bool)
    requires Inv(s) && c in s.calls && !s.calls[c].Replied? && !ResetStored(s.resets, row.token)
    ensures var s' := Resume(AddReset(s, row), c, Replied(if mailed then MailSent(row.token) else Refused));
            Inv(s') && Evolves(s, s')
  {
    AddResetKeepsInv(s, row);
    ThenResume(s, AddReset(s, row), c, Replied(if mailed then MailSent(row.token) else Refused));
  }

  lemma CreateResetKeepsInv(s: State, a: Action)
    requires Inv(s) && a.CreateReset?
    ensures Inv(Next(s, a)) && Evolves(s, Next(s, a))
  {
    var c := a.call;
    if c in s.calls && s.calls[c].CreatingReset? {
      if ResetStored(s.resets, a.token) {
        UnclaimingKeepsInv(s, c, Replied(Refused));
      } else {
        AddResetThenReply(s, c, ResetRow(a.token, s.calls[c].userId, a.expiresAt), a.mailed);
      }
    }
  }

  lemma BeginResetKeepsInv(s: State, a: Action)
    requires Inv(s) && a.BeginReset?
    ensures Inv(Next(s, a)) && Evolves(s, Next(s, a))
  {
    if Idle(s, a.call) {
      var k := DoBeginReset(s, a.call, a.token, a.now, a.hash).calls[a.call];
      assert Next(s, a) == Resume(s, a.call, k);
      UnclaimingKeepsInv(s, a.call, k);
    }
  }

  lemma DropExpiredResetKeepsInv(s: State, a: Action)
    requires Inv(s) && a.DropExpiredReset?
    ensures Inv(Next(s, a)) && Evolves(s, Next(s, a))
  {
    if a.call in s.calls && s.calls[a.call].DroppingExpiredReset? {
      DropKeepsInv(s, a.call, s.refresh, s.resets - {s.calls[a.call].row}, Replied(Refused));
    }
  }

  lemma ResetterIsAlone(s: State, c: nat, row: nat, u: string)
    requires Inv(s) && row in s.resets
    ensures Exclusive(s, c, Replied(PasswordChanged(row, u)))
  {
    forall d | d in s.calls ensures ResetClaim(s.calls[d]) != Some(row) {
      assert CallOk(s.calls[d], s);
    }
  }

  lemma CommitThenReply(s: State, c: nat, row: nat, u: string, users: map<string, User>)
    requires Inv(s) && c in s.calls && !s.calls[c].Replied? && users.Keys == s.users.Keys
    requires row in s.resets && s.resets[row].userId == u
    ensures var s' := Resume(s.(users := users, refresh := WithoutUser(s.refresh, u), resets := s.resets - {row}),
                             c, Replied(PasswordChanged(row, u)));
            Inv(s') && Evolves(s, s')
  {
    ShrinkKeepsInv(s, users, WithoutUser(s.refresh, u), s.resets - {row});
    ResetterIsAlone(s, c, row, u);
    ThenResume(s, s.(users := users, refresh := WithoutUser(s.refresh, u), resets := s.resets - {row}),
               c, Replied(PasswordChanged(row, u)));
  }

  lemma CommitResetKeepsInv(s: State, a: Action)
    requires Inv(s) && a.CommitReset?
    ensures Inv(Next(s, a)) && Evolves(s, Next(s, a))
  {
    var c := a.call;
    if c in s.calls && s.calls[c].Resetting? {
      assert CallOk(s.calls[c], s);
      var row, u, hash := s.calls[c].row, s.calls[c].storedReset.userId, s.calls[c].hash;
      if row !in s.resets || u !in s.users {
        UnclaimingKeepsInv(s, c, Replied(Refused));
      } else {
        CommitThenReply(s, c, row, u, s.users[u := s.users[u].(password := Some(hash))]);
      }
    }
  }

  /** Every step of every call keeps the invariant and lets the state only evolve. */
  lemma StepKeepsInv(s: State, a: Action)
    requires Inv(s)
    ensures Inv(Next(s, a)) && Evolves(s, Next(s, a))
  {
    match a
    case Login(_, _, _, _) => LoginKeepsInv(s, a);
    case BeginRefresh(_, _, _, _, _) => BeginRefreshKeepsInv(s, a);
    case DropExpired(_) => DropExpiredKeepsInv(s, a);
    case Redeem(_) => RedeemKeepsInv(s, a);
    case StoreFresh(_, _) => StoreFreshKeepsInv(s, a);
    case Logout(_, _) => LogoutKeepsInv(s, a);
    case BeginForgot(_, _) => BeginForgotKeepsInv(s, a);
    case ClearResets(_) => ClearResetsKeepsInv(s, a);
    case CreateReset(_, _, _, _) => CreateResetKeepsInv(s, a);
    case BeginReset(_, _, _, _) => BeginResetKeepsInv(s, a);
    case DropExpiredReset(_) => DropExpiredResetKeepsInv(s, a);
    case CommitReset(_) => CommitResetKeepsInv(s, a);
  }

  lemma RunKeepsInv(s: State, actions: seq<Action>)
    requires Inv(s)
    ensures Inv(Run(s, actions)) && Evolves(s, Run(s, actions))
  {
    var holds := (t: State) => Inv(t) && Evolves(s, t);
    forall t, a | holds(t) ensures holds(Next(t, a)) {
      StepKeepsInv(t, a);
      EvolvesTransitive(s, t, Next(t, a));
    }
    FoldKeeps(Next, holds, s, actions);
  }
}
