/**
  When a refresh-token string is good for a single use (src/modules/auth/auth.service.ts,
  `refreshTokens`): token strings are signed, not drawn, so a string may be issued again.
 */
module TokenReuse {
  import opened Prelude
  import opened Sessions
  import opened SessionSafety
  import AuthServer

  /** After an uninterrupted refresh the presented string is stored again exactly if signing yielded it again. */
  lemma PresentedTokenLivesIff(s: State, c: nat, id: nat, now: int, newToken: string, expiresAt: int)
    requires Inv(s) && Idle(s, c) && id in s.refresh && now <= s.refresh[id].expiresAt
    ensures var token := s.refresh[id].token;
            var s' := Run(s, [BeginRefresh(c, token, true, now, newToken), DropExpired(c), Redeem(c), StoreFresh(c, expiresAt)]);
            TokenStored(s'.refresh, token) <==> newToken == token
  {
    var token, rest := s.refresh[id].token, s.refresh - {id};
    FindIsUnique(s, id);
    AuthServer.RefreshFollowsProtocol(s, c, token, true, now, newToken, expiresAt);
    assert !TokenStored(rest, token);
    var after := AuthServer.Refreshed(s.refresh, s.nextId, token, true, now, newToken, expiresAt).0;
    if newToken == token {
      assert s.nextId in after && after[s.nextId].token == token;
    } else {
      forall j | j in after ensures after[j].token != token {
        assert j in rest ==> rest[j].token != token;
      }
    }
  }

  // ---------- any continuation ----------

  /** The call will still store `token`: it stands between delete and store, or its row is still there to delete. */
  ghost predicate Carries(s: State, c: nat, token: string) {
    && c in s.calls
    && ((s.calls[c].StoringFresh? && s.calls[c].newToken == token) ||
        (s.calls[c].Redeeming? && s.calls[c].newToken == token && s.calls[c].row in s.refresh))
  }

  ghost predicate NoneCarries(s: State, token: string) {
    forall c :: c in s.calls ==> !Carries(s, c, token)
  }

  /** The call has deleted a row of `token`: it got its pair for it, or is about to. */
  ghost predicate HasRedeemed(s: State, c: nat, token: string) {
    GotPair(s, c, token) || (c in s.calls && s.calls[c].StoringFresh? && s.calls[c].stored.token == token)
  }

  /** The action signs `token` anew. */
  predicate Signs(a: Action, token: string) {
    (a.Login? && a.token == token) || (a.BeginRefresh? && a.newToken == token)
  }

  ghost predicate SignsNo(actions: seq<Action>, token: string) {
    forall i :: 0 <= i < |actions| ==> !Signs(actions[i], token)
  }

  /** The string is not stored and nothing under way will store it. */
  ghost predicate Spent(s: State, token: string) {
    !TokenStored(s.refresh, token) && NoneCarries(s, token)
  }

  // ---------- spent strings stay spent ----------

  lemma StepKeepsSpent(s: State, a: Action, token: string)
    requires Inv(s) && Spent(s, token) && !Signs(a, token)
    ensures Spent(Next(s, a), token)
  {
    var s' := Next(s, a);
    forall id | id in s'.refresh ensures s'.refresh[id].token != token {
      StepRowHasCause(s, a, id);
      assert a.StoreFresh? && a.call in s.calls ==> !Carries(s, a.call, token);
    }
    forall c | c in s'.calls ensures !Carries(s', c, token) {
      CarrierHasCause(s, a, c, token);
    }
  }

  lemma CarrierHasCause(s: State, a: Action, c: nat, token: string)
    requires Inv(s) && Spent(s, token) && !Signs(a, token)
    ensures !Carries(Next(s, a), c, token)
  {
    var s' := Next(s, a);
    StepKeepsInv(s, a);
    StepCallHasCause(s, a, c);
    if c in s.calls {
      assert !Carries(s, c, token) && CallOk(s.calls[c], s);
      assert s.calls[c].Redeeming? && s.calls[c].row !in s.refresh ==> s.calls[c].row !in s'.refresh;
    }
  }

  lemma RedeemerHasCause(s: State, a: Action, c: nat, token: string)
    requires Inv(s) && !TokenStored(s.refresh, token) && HasRedeemed(Next(s, a), c, token)
    ensures HasRedeemed(s, c, token)
  {
    StepCallHasCause(s, a, c);
    if c in s.calls && s.calls[c].Redeeming? {
      assert CallOk(s.calls[c], s);
    }
  }

  /** From a spent string no call gets anything more, as long as it is not signed again. */
  lemma {:induction false} RunKeepsSpent(s: State, actions: seq<Action>, token: string)
    requires Inv(s) && Spent(s, token) && SignsNo(actions, token)
    ensures Spent(Run(s, actions), token)
    ensures forall c :: HasRedeemed(Run(s, actions), c, token) ==> HasRedeemed(s, c, token)
  {
    if actions != [] {
      var n := |actions| - 1;
      var t := Run(s, actions[..n]);
      RunKeepsInv(s, actions[..n]);
      RunKeepsSpent(s, actions[..n], token);
      StepKeepsSpent(t, actions[n], token);
      forall c | HasRedeemed(Next(t, actions[n]), c, token) ensures HasRedeemed(s, c, token) {
        RedeemerHasCause(t, actions[n], c, token);
      }
    }
  }

  // ---------- how a string is used again ----------

  /** A stored string gets whoever presents it a pair, without being signed again. */
  lemma StoredGivesPair(s: State, id: nat) returns (actions: seq<Action>, d: nat)
    requires Inv(s) && id in s.refresh
    ensures SignsNo(actions, s.refresh[id].token) && d !in s.calls && GotPair(Run(s, actions), d, s.refresh[id].token)
  {
    var row := s.refresh[id];
    d := FreshKey(s.calls.Keys);
    var used := set i | i in s.refresh :: s.refresh[i].token;
    var other := FreshString(used);
    assert row.token in used;
    assert forall i :: i in s.refresh ==> s.refresh[i].token in used;
    actions := [BeginRefresh(d, row.token, true, row.expiresAt, other), Redeem(d), StoreFresh(d, row.expiresAt)];
    RefreshAlone(s, d, id, row.expiresAt, other, row.expiresAt);
  }

  /** A call between delete and store puts its string back. */
  lemma StoringPutsBack(s: State, c: nat, token: string) returns (actions: seq<Action>, d: nat)
    requires Inv(s) && !TokenStored(s.refresh, token) && c in s.calls && s.calls[c].StoringFresh? && s.calls[c].newToken == token
    ensures SignsNo(actions, token) && d !in s.calls && GotPair(Run(s, actions), d, token)
  {
    var store := StoreFresh(c, 0);
    StepStoreFresh(s, c, s.calls[c].row, s.calls[c].stored, token, 0);
    StepKeepsInv(s, store);
    var rest;
    rest, d := StoredGivesPair(Next(s, store), s.nextId);
    RunCons(s, store, rest);
    actions := [store] + rest;
  }

  lemma CarrierPutsBack(s: State, c: nat, token: string) returns (actions: seq<Action>, d: nat)
    requires Inv(s) && !TokenStored(s.refresh, token) && Carries(s, c, token)
    ensures SignsNo(actions, token) && d !in s.calls && GotPair(Run(s, actions), d, token)
  {
    if s.calls[c].StoringFresh? {
      actions, d := StoringPutsBack(s, c, token);
    } else {
      var redeem := Redeem(c);
      StepRedeem(s, c, s.calls[c].row, s.calls[c].stored, token);
      StepKeepsInv(s, redeem);
      var rest;
      rest, d := StoringPutsBack(Next(s, redeem), c, token);
      RunCons(s, redeem, rest);
      actions := [redeem] + rest;
    }
  }

  /**
    Single use: from any reachable state in which `token` is not stored, no continuation that does not sign
    it again gives a call that has not redeemed it yet a pair for it, if and only if no call under way was
    signed that very string. With a fresh string at every signing that is always so.
   */
  lemma SpentForGoodIff(s0: State, actions: seq<Action>, token: string)
    requires Initial(s0) && !TokenStored(Run(s0, actions).refresh, token)
    ensures var s := Run(s0, actions);
            (forall more: seq<Action>, c: nat ::
               SignsNo(more, token) && GotPair(Run(s, more), c, token) ==> HasRedeemed(s, c, token))
            <==> NoneCarries(s, token)
  {
    InitialInv(s0);
    RunKeepsInv(s0, actions);
    var s := Run(s0, actions);
    if NoneCarries(s, token) {
      forall more: seq<Action>, c: nat | SignsNo(more, token) && GotPair(Run(s, more), c, token)
        ensures HasRedeemed(s, c, token)
      {
        RunKeepsSpent(s, more, token);
      }
    } else {
      var c :| c in s.calls && Carries(s, c, token);
      var more, d := CarrierPutsBack(s, c, token);
      assert !HasRedeemed(s, d, token);
    }
  }

  /** Nor can the other condition go: a login that signs the string brings it back to life. */
  lemma SigningRevives(s: State, u: string, token: string) returns (actions: seq<Action>, d: nat)
    requires Inv(s) && u in s.users && !TokenStored(s.refresh, token)
    ensures d !in s.calls && GotPair(Run(s, actions), d, token)
  {
    var c := FreshKey(s.calls.Keys);
    var login := Login(c, u, token, 0);
    StepKeepsInv(s, login);
    var t := Next(s, login);
    assert t == Resume(AddRefresh(s, RefreshRow(token, u, 0, s.nextId)), c, Replied(LoggedIn(s.nextId)));
    var rest;
    rest, d := StoredGivesPair(t, s.nextId);
    RunCons(s, login, rest);
    actions := [login] + rest;
  }
}
