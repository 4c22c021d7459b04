/**
  What every interleaving of logins, refreshes, logouts and password resets keeps
  (src/modules/auth/auth.service.ts), and exactly how far the guarantees reach.
 */
module SessionSafety {
  import opened Prelude
  import opened Sessions

  lemma InitialInv(s: State)
    requires Initial(s)
    ensures Inv(s)
  {
  }

  lemma RunCons(s: State, a: Action, rest: seq<Action>)
    ensures Run(s, [a] + rest) == Run(Next(s, a), rest)
  {
    FoldAppend(Next, s, [a], rest);
    FoldTwo(Next, s, a, a);
  }

  // ---------- the single steps, one by one ----------

  lemma StepBeginRefresh(s: State, c: nat, id: nat, now: int, newToken: string)
    requires Idle(s, c) && id in s.refresh && now <= s.refresh[id].expiresAt
    requires FindRefresh(s.refresh, s.refresh[id].token) == Some(id)
    ensures Next(s, BeginRefresh(c, s.refresh[id].token, true, now, newToken)) ==
            Resume(s, c, Redeeming(id, s.refresh[id], newToken))
  {
  }

  lemma StepRedeem(s: State, c: nat, id: nat, stored: RefreshRow, newToken: string)
    requires c in s.calls && s.calls[c] == Redeeming(id, stored, newToken)
    ensures Next(s, Redeem(c)) == DoRedeem(s, c, id, stored, newToken)
  {
  }

  lemma StepStoreFresh(s: State, c: nat, id: nat, stored: RefreshRow, newToken: string, expiresAt: int)
    requires c in s.calls && s.calls[c] == StoringFresh(id, stored, newToken)
    ensures Next(s, StoreFresh(c, expiresAt)) == DoStoreFresh(s, c, id, stored, newToken, expiresAt)
  {
  }

  lemma StepBeginForgot(s: State, c: nat, u: string)
    requires Idle(s, c) && u in s.users && s.users[u].isAdmin && s.users[u].password.Some?
    ensures Next(s, BeginForgot(c, u)) == Resume(s, c, ClearingResets(u))
  {
  }

  lemma StepClearResets(s: State, c: nat, u: string)
    requires c in s.calls && s.calls[c] == ClearingResets(u)
    ensures Next(s, ClearResets(c)) == DoClearResets(s, c, u)
  {
  }

  lemma StepCreateReset(s: State, c: nat, u: string, token: string, expiresAt: int, mailed: bool)
    requires c in s.calls && s.calls[c] == CreatingReset(u) && !ResetStored(s.resets, token)
    ensures Next(s, CreateReset(c, token, expiresAt, mailed)) ==
            Resume(AddReset(s, ResetRow(token, u, expiresAt)), c, Replied(if mailed then MailSent(token) else Refused))
  {
  }

  lemma FindIsUnique(s: State, id: nat)
    requires Inv(s)
    ensures id in s.refresh ==> FindRefresh(s.refresh, s.refresh[id].token) == Some(id)
    ensures id in s.resets ==> FindReset(s.resets, s.resets[id].token) == Some(id)
  {
  }

  // ---------- where calls and rows come from ----------

  /** A call that redeems, stores or got a pair after a step did so before it, or the step moved it there. */
  ghost predicate CallHasCause(s: State, a: Action, s': State, c: nat) {
    || c !in s'.calls
    || (c in s.calls && s.calls[c] == s'.calls[c])
    || match s'.calls[c]
       case Redeeming(_, _, token) => a.BeginRefresh? && a.newToken == token
       case StoringFresh(row, stored, token) =>
         a == Redeem(c) && c in s.calls && s.calls[c] == Redeeming(row, stored, token) && row in s.refresh
       case Replied(reply) =>
         reply.NewPair? ==>
           c in s.calls && s.calls[c].StoringFresh? && s.calls[c].row == reply.row && s.calls[c].stored.token == reply.presented
       case _ => true
  }

  lemma BeginCallHasCause(s: State, a: Action, c: nat)
    requires a.Login? || a.BeginRefresh? || a.Logout?
    ensures CallHasCause(s, a, Next(s, a), c)
  {
  }

  lemma RefreshCallHasCause(s: State, a: Action, c: nat)
    requires a.DropExpired? || a.Redeem? || a.StoreFresh?
    ensures CallHasCause(s, a, Next(s, a), c)
  {
  }

  lemma ForgotCallHasCause(s: State, a: Action, c: nat)
    requires a.BeginForgot? || a.ClearResets? || a.CreateReset?
    ensures CallHasCause(s, a, Next(s, a), c)
  {
  }

  lemma ResetCallHasCause(s: State, a: Action, c: nat)
    requires a.BeginReset? || a.DropExpiredReset? || a.CommitReset?
    ensures CallHasCause(s, a, Next(s, a), c)
  {
  }

  lemma StepCallHasCause(s: State, a: Action, c: nat)
    ensures CallHasCause(s, a, Next(s, a), c)
  {
    if a.Login? || a.BeginRefresh? || a.Logout? {
      BeginCallHasCause(s, a, c);
    } else if a.DropExpired? || a.Redeem? || a.StoreFresh? {
      RefreshCallHasCause(s, a, c);
    } else if a.BeginForgot? || a.ClearResets? || a.CreateReset? {
      ForgotCallHasCause(s, a, c);
    } else {
      ResetCallHasCause(s, a, c);
    }
  }

  /** A refresh row was there before the step, or is what a login or a storing call put there. */
  ghost predicate RowHasCause(s: State, a: Action, s': State, id: nat) {
    || id !in s'.refresh
    || (id in s.refresh && s.refresh[id] == s'.refresh[id])
    || (a.Login? && s'.refresh[id].token == a.token && s'.refresh[id].userId == a.userId)
    || (a.StoreFresh? && a.call in s.calls && s.calls[a.call].StoringFresh? &&
        s'.refresh[id].token == s.calls[a.call].newToken && s'.refresh[id].userId == s.calls[a.call].stored.userId)
  }

  /** A refresh row goes only because its own call redeems it or finds it expired, its user logs out with it, or resets the password. */
  ghost predicate RowGoneHasCause(s: State, a: Action, s': State, id: nat) {
    id in s.refresh ==>
      || (id in s'.refresh && s'.refresh[id] == s.refresh[id])
      || (a.Redeem? && a.call in s.calls && s.calls[a.call].Redeeming? && s.calls[a.call].row == id)
      || (a.DropExpired? && a.call in s.calls && s.calls[a.call] == DroppingExpired(id))
      || (a.Logout? && a.userId == s.refresh[id].userId && a.token == s.refresh[id].token)
      || (a.CommitReset? && a.call in s.calls && s.calls[a.call].Resetting? && s.calls[a.call].row in s.resets &&
          s.calls[a.call].storedReset.userId == s.refresh[id].userId)
  }

  lemma StoredRowsStay(s: State, a: Action, id: nat)
    requires (a.Login? || a.StoreFresh?) && id != s.nextId
    ensures RowGoneHasCause(s, a, Next(s, a), id)
  {
  }

  lemma BegunRowsStay(s: State, a: Action, id: nat)
    requires a.BeginRefresh? || a.BeginForgot? || a.BeginReset?
    ensures RowGoneHasCause(s, a, Next(s, a), id)
  {
  }

  lemma DroppedRowsStay(s: State, a: Action, id: nat)
    requires a.DropExpired? || a.Redeem? || a.Logout?
    ensures RowGoneHasCause(s, a, Next(s, a), id)
  {
  }

  lemma ResetRowsStay(s: State, a: Action, id: nat)
    requires a.ClearResets? || a.CreateReset? || a.DropExpiredReset? || a.CommitReset?
    ensures RowGoneHasCause(s, a, Next(s, a), id)
  {
  }

  /** Nobody's session ends through what others do. */
  lemma StepRowGoneHasCause(s: State, a: Action, id: nat)
    requires Inv(s)
    ensures RowGoneHasCause(s, a, Next(s, a), id)
  {
    if a.Login? || a.StoreFresh? {
      if id in s.refresh { StoredRowsStay(s, a, id); }
    } else if a.BeginRefresh? || a.BeginForgot? || a.BeginReset? {
      BegunRowsStay(s, a, id);
    } else if a.DropExpired? || a.Redeem? || a.Logout? {
      DroppedRowsStay(s, a, id);
    } else {
      ResetRowsStay(s, a, id);
    }
  }

  lemma RefreshRowHasCause(s: State, a: Action, id: nat)
    requires OfRefresh(a) && !a.BeginRefresh?
    ensures RowHasCause(s, a, Next(s, a), id)
  {
  }

  lemma OtherRowHasCause(s: State, a: Action, id: nat)
    requires !OfRefresh(a) || a.BeginRefresh?
    ensures RowHasCause(s, a, Next(s, a), id)
  {
  }

  lemma StepRowHasCause(s: State, a: Action, id: nat)
    ensures RowHasCause(s, a, Next(s, a), id)
  {
    if OfRefresh(a) && !a.BeginRefresh? { RefreshRowHasCause(s, a, id); } else { OtherRowHasCause(s, a, id); }
  }

  // ---------- rotation ----------

  ghost predicate GotPair(s: State, c: nat, token: string) {
    c in s.calls && s.calls[c].Replied? && s.calls[c].reply.NewPair? && s.calls[c].reply.presented == token
  }

  /**
    A stored row is redeemed at most once. Two different calls that both got a new pair for the same
    presented token used two different rows, each issued with that token.
   */
  lemma RedeemedOncePerIssue(s0: State, actions: seq<Action>, c: nat, d: nat, token: string)
    requires Initial(s0) && c != d && GotPair(Run(s0, actions), c, token) && GotPair(Run(s0, actions), d, token)
    ensures var s := Run(s0, actions);
            var i, j := s.calls[c].reply.row, s.calls[d].reply.row;
            && i != j && i in s.issued && j in s.issued
            && s.issued[i].token == s.issued[j].token == token
            && i !in s.refresh && j !in s.refresh
  {
    InitialInv(s0);
    RunKeepsInv(s0, actions);
    var s := Run(s0, actions);
    assert CallOk(s.calls[c], s) && CallOk(s.calls[d], s);
    assert Claim(s.calls[c]) != Claim(s.calls[d]);
  }

  /** Single use: of all calls presenting a token that was issued once, at most one gets a new pair. */
  lemma OnePairPerToken(s0: State, actions: seq<Action>, c: nat, d: nat, token: string)
    requires Initial(s0) && GotPair(Run(s0, actions), c, token) && GotPair(Run(s0, actions), d, token)
    requires var issued := Run(s0, actions).issued;
             forall i, j :: i in issued && j in issued && issued[i].token == issued[j].token == token ==> i == j
    ensures c == d
  {
    if c != d {
      RedeemedOncePerIssue(s0, actions, c, d, token);
    }
  }

  /** A row that is gone, redeemed or not, never comes back: the loser's delete fails for ever. */
  lemma GoneStaysGone(s0: State, before: seq<Action>, after: seq<Action>, id: nat)
    requires Initial(s0)
    requires id in Run(s0, before).issued && id !in Run(s0, before).refresh
    ensures id !in Run(s0, before + after).refresh
  {
    InitialInv(s0);
    RunKeepsInv(s0, before);
    RunKeepsInv(Run(s0, before), after);
    FoldAppend(Next, s0, before, after);
  }

  /**
    Each login's rotation chain has at most one live row at any moment, and none at all while a call
    stands between deleting the old row and storing the new one.
   */
  lemma OneLiveRowPerChain(s0: State, actions: seq<Action>, chain: nat, i: nat, j: nat)
    requires Initial(s0)
    requires i in Run(s0, actions).refresh && Run(s0, actions).refresh[i].chain == chain
    ensures j in Run(s0, actions).refresh && Run(s0, actions).refresh[j].chain == chain ==> i == j
    ensures forall c :: c in Run(s0, actions).calls ==> ChainHeld(Run(s0, actions).calls[c]) != Some(chain)
  {
    InitialInv(s0);
    RunKeepsInv(s0, actions);
  }

  /** The three steps of a refresh of row `id`, one after the other. */
  function Rotated(s: State, c: nat, id: nat, newToken: string, expiresAt: int): State
    requires id in s.refresh
  {
    var row := s.refresh[id];
    AddRefresh(Resume(s.(refresh := s.refresh - {id}), c, Replied(NewPair(id, row.token, newToken))),
               RefreshRow(newToken, row.userId, expiresAt, row.chain))
  }

  lemma RefreshSteps(s: State, c: nat, id: nat, now: int, newToken: string, expiresAt: int)
    requires Idle(s, c) && id in s.refresh && now <= s.refresh[id].expiresAt
    requires FindRefresh(s.refresh, s.refresh[id].token) == Some(id) && !TokenStored(s.refresh - {id}, newToken)
    ensures Run(s, [BeginRefresh(c, s.refresh[id].token, true, now, newToken), Redeem(c), StoreFresh(c, expiresAt)]) ==
            Rotated(s, c, id, newToken, expiresAt)
  {
    var row := s.refresh[id];
    var t := Resume(s, c, Redeeming(id, row, newToken));
    var u := DoRedeem(t, c, id, row, newToken);
    StepBeginRefresh(s, c, id, now, newToken);
    StepRedeem(t, c, id, row, newToken);
    StepStoreFresh(u, c, id, row, newToken, expiresAt);
    var v := DoStoreFresh(u, c, id, row, newToken, expiresAt);
    FoldThree(Next, s, BeginRefresh(c, row.token, true, now, newToken), t, Redeem(c), u, StoreFresh(c, expiresAt), v);
    assert v == Rotated(s, c, id, newToken, expiresAt) by {
      assert u.calls[c := Replied(NewPair(id, row.token, newToken))] == s.calls[c := Replied(NewPair(id, row.token, newToken))];
    }
  }

  /** A refresh that nothing interrupts moves the chain from one row to the next. */
  lemma RefreshAlone(s: State, c: nat, id: nat, now: int, newToken: string, expiresAt: int)
    requires Inv(s) && Idle(s, c) && id in s.refresh && now <= s.refresh[id].expiresAt
    requires newToken == s.refresh[id].token || !TokenStored(s.refresh, newToken)
    ensures Run(s, [BeginRefresh(c, s.refresh[id].token, true, now, newToken), Redeem(c), StoreFresh(c, expiresAt)]) ==
            Rotated(s, c, id, newToken, expiresAt)
  {
    FindIsUnique(s, id);
    assert !TokenStored(s.refresh - {id}, newToken);
    RefreshSteps(s, c, id, now, newToken, expiresAt);
  }

  /**
    The limit of the guarantee: token strings are not always new. When signing yields the very token
    presented (same claims, same second), two calls in a row both get a new pair for that token.
   */
  lemma ReissuedTokenWorksTwice(s: State, id: nat) returns (actions: seq<Action>, c: nat, d: nat)
    requires Inv(s) && id in s.refresh
    ensures c != d && c in Run(s, actions).calls && d in Run(s, actions).calls
    ensures var token := s.refresh[id].token;
            && Run(s, actions).calls[c] == Replied(NewPair(id, token, token))
            && Run(s, actions).calls[d] == Replied(NewPair(s.nextId, token, token))
  {
    c := FreshKey(s.calls.Keys);
    d := c + 1;
    var row := s.refresh[id];
    var now := row.expiresAt;
    var first := [BeginRefresh(c, row.token, true, now, row.token), Redeem(c), StoreFresh(c, now)];
    var second := [BeginRefresh(d, row.token, true, now, row.token), Redeem(d), StoreFresh(d, now)];
    RefreshAlone(s, c, id, now, row.token, now);
    var t := Run(s, first);
    RunKeepsInv(s, first);
    assert s.nextId in t.refresh && t.refresh[s.nextId] == RefreshRow(row.token, row.userId, now, row.chain);
    RefreshAlone(t, d, s.nextId, now, row.token, now);
    FoldAppend(Next, s, first, second);
    actions := first + second;
  }

  // ---------- password reset ----------

  /** A reset row changes the password at most once, whatever calls present its token. */
  lemma ResetRowUsedOnce(s0: State, actions: seq<Action>, c: nat, d: nat, row: nat, u: string, v: string)
    requires Initial(s0)
    requires c in Run(s0, actions).calls && Run(s0, actions).calls[c] == Replied(PasswordChanged(row, u))
    requires d in Run(s0, actions).calls && Run(s0, actions).calls[d] == Replied(PasswordChanged(row, v))
    ensures c == d && row !in Run(s0, actions).resets
    ensures row in Run(s0, actions).issuedResets && Run(s0, actions).issuedResets[row].userId == u
  {
    InitialInv(s0);
    RunKeepsInv(s0, actions);
    var s := Run(s0, actions);
    assert CallOk(s.calls[c], s);
    assert ResetClaim(s.calls[c]) == ResetClaim(s.calls[d]);
  }

  ghost predicate NoSession(s: State, u: string) {
    forall id :: id in s.refresh ==> s.refresh[id].userId != u
  }

  lemma OnlyCommitSetsPassword(s: State, a: Action, u: string)
    requires u in s.users && u in Next(s, a).users && Next(s, a).users[u] != s.users[u]
    ensures a.CommitReset? && a.call in s.calls && s.calls[a.call].Resetting?
    ensures s.calls[a.call].row in s.resets && s.calls[a.call].storedReset.userId == u
    ensures Next(s, a) == DoCommitReset(s, a.call, s.calls[a.call].row, u, s.calls[a.call].hash)
  {
    if OfRefresh(a) {
      match a
      case Login(_, _, _, _) =>
      case _ =>
    } else {
      match a
      case CommitReset(_) =>
      case _ =>
    }
  }

  /**
    A password moves only when a reset transaction commits for a reset row of that very user; the
    row is then used up and the user is left without a single refresh row, while everybody else keeps theirs.
   */
  lemma PasswordChangeEndsSessions(s: State, a: Action, u: string)
    requires Inv(s) && u in s.users && u in Next(s, a).users && Next(s, a).users[u] != s.users[u]
    ensures a.CommitReset? && a.call in s.calls && s.calls[a.call].Resetting?
    ensures var row := s.calls[a.call].row;
            row in s.resets && s.resets[row].userId == u && row !in Next(s, a).resets &&
            Next(s, a).calls[a.call] == Replied(PasswordChanged(row, u))
    ensures NoSession(Next(s, a), u)
    ensures Next(s, a).users[u] == s.users[u].(password := Some(s.calls[a.call].hash))
    ensures OthersKeepSessions(s, Next(s, a), u)
  {
    OnlyCommitSetsPassword(s, a, u);
    assert CallOk(s.calls[a.call], s);
    forall id | id in s.refresh && s.refresh[id].userId != u
      ensures id in Next(s, a).refresh && Next(s, a).refresh[id] == s.refresh[id]
    {
      StepRowGoneHasCause(s, a, id);
    }
  }

  /** Every other user keeps every refresh row and the password. */
  ghost predicate OthersKeepSessions(s: State, s': State, u: string) {
    && (forall id :: id in s.refresh && s.refresh[id].userId != u ==> id in s'.refresh && s'.refresh[id] == s.refresh[id])
    && (forall v :: v in s.users && v != u ==> v in s'.users && s'.users[v] == s.users[v])
  }

  /** No call of user `u` stands between deleting its old row and storing the new one. */
  ghost predicate NoneStoring(s: State, u: string) {
    forall c :: c in s.calls && s.calls[c].StoringFresh? ==> s.calls[c].stored.userId != u
  }

  ghost predicate NoLogin(actions: seq<Action>, u: string) {
    forall i :: 0 <= i < |actions| && actions[i].Login? ==> actions[i].userId != u
  }

  /** A call that wants to redeem a row of `u` will find it gone. */
  ghost predicate RedeemsNothingOf(s: State, a: Action, u: string) {
    a.Redeem? && a.call in s.calls && s.calls[a.call].Redeeming? && s.calls[a.call].stored.userId == u ==>
      s.calls[a.call].row !in s.refresh
  }

  lemma StepStoresNothing(s: State, a: Action, u: string)
    requires NoSession(s, u) && NoneStoring(s, u) && (a.Login? ==> a.userId != u)
    ensures NoSession(Next(s, a), u)
  {
    forall id | id in Next(s, a).refresh ensures Next(s, a).refresh[id].userId != u {
      StepRowHasCause(s, a, id);
    }
  }

  lemma StepRedeemsNothing(s: State, a: Action, u: string)
    requires NoneStoring(s, u) && RedeemsNothingOf(s, a, u)
    ensures NoneStoring(Next(s, a), u)
  {
    var s' := Next(s, a);
    forall c | c in s'.calls && s'.calls[c].StoringFresh? ensures s'.calls[c].stored.userId != u {
      StepCallHasCause(s, a, c);
    }
  }

  lemma {:induction false} RunKeepsNoSession(s: State, actions: seq<Action>, u: string)
    requires Inv(s) && NoSession(s, u) && NoneStoring(s, u) && NoLogin(actions, u)
    ensures NoSession(Run(s, actions), u) && NoneStoring(Run(s, actions), u)
  {
    if actions != [] {
      var n := |actions| - 1;
      RunKeepsInv(s, actions[..n]);
      RunKeepsNoSession(s, actions[..n], u);
      var t := Run(s, actions[..n]);
      if actions[n].Redeem? && actions[n].call in t.calls {
        assert CallOk(t.calls[actions[n].call], t);
      }
      StepStoresNothing(t, actions[n], u);
      StepRedeemsNothing(t, actions[n], u);
    }
  }

  /** Whoever holds a token can log out, and then the string is free. */
  lemma LogoutFreesToken(s: State, token: string) returns (userId: string)
    requires Inv(s) && TokenStored(s.refresh, token)
    ensures !TokenStored(Next(s, Logout(userId, token)).refresh, token)
    ensures Next(s, Logout(userId, token)).calls == s.calls
  {
    var id :| id in s.refresh && s.refresh[id].token == token;
    userId := s.refresh[id].userId;
  }

  /** A call that already deleted its row can still store the next one, whatever else holds its token. */
  lemma StoringCallLeavesSession(s: State, c: nat) returns (actions: seq<Action>)
    requires Inv(s) && c in s.calls && s.calls[c].StoringFresh?
    ensures NoLogin(actions, s.calls[c].stored.userId) && !NoSession(Run(s, actions), s.calls[c].stored.userId)
  {
    var token := s.calls[c].newToken;
    if TokenStored(s.refresh, token) {
      var holder := LogoutFreesToken(s, token);
      actions := [Logout(holder, token), StoreFresh(c, 0)];
      FoldTwo(Next, s, Logout(holder, token), StoreFresh(c, 0));
      StoreLeavesSession(Next(s, Logout(holder, token)), c);
    } else {
      actions := [StoreFresh(c, 0)];
      FoldTwo(Next, s, StoreFresh(c, 0), StoreFresh(c, 0));
      StoreLeavesSession(s, c);
    }
  }

  lemma StoreLeavesSession(s: State, c: nat)
    requires c in s.calls && s.calls[c].StoringFresh? && !TokenStored(s.refresh, s.calls[c].newToken)
    ensures !NoSession(Next(s, StoreFresh(c, 0)), s.calls[c].stored.userId)
  {
    var k := s.calls[c];
    StepStoreFresh(s, c, k.row, k.stored, k.newToken, 0);
    assert Next(s, StoreFresh(c, 0)).refresh[s.nextId].userId == k.stored.userId;
  }

  /**
    How final a reset is: once it has committed, no session of the user appears in any future without
    a new login exactly when no refresh of that user stood between its delete and its store.
   */
  lemma ResetIsFinalIff(s0: State, actions: seq<Action>, a: Action, u: string)
    requires Initial(s0) && u in Run(s0, actions).users
    requires Next(Run(s0, actions), a).users[u] != Run(s0, actions).users[u]
    ensures var s := Next(Run(s0, actions), a);
            (forall more: seq<Action> :: NoLogin(more, u) ==> NoSession(Run(s, more), u)) <==> NoneStoring(s, u)
  {
    InitialInv(s0);
    RunKeepsInv(s0, actions);
    var s := Next(Run(s0, actions), a);
    StepKeepsInv(Run(s0, actions), a);
    PasswordChangeEndsSessions(Run(s0, actions), a, u);
    if NoneStoring(s, u) {
      forall more: seq<Action> | NoLogin(more, u) ensures NoSession(Run(s, more), u) {
        RunKeepsNoSession(s, more, u);
      }
    } else {
      var c :| c in s.calls && s.calls[c].StoringFresh? && s.calls[c].stored.userId == u;
      var more := StoringCallLeavesSession(s, c);
    }
  }
}
