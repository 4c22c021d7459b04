/**
  How many password-reset tokens of one user can be alive (src/modules/auth/auth.service.ts,
  `forgotPassword`): one, exactly as long as no two calls for that user overlap.
 */
module ResetTokens {
  import opened Prelude
  import opened Sessions
  import opened SessionSafety

  // ---------- one call alone ----------

  ghost predicate OnlyResetOf(s: State, u: string, id: nat) {
    id in s.resets && s.resets[id].userId == u && forall j :: j in s.resets && s.resets[j].userId == u ==> j == id
  }

  /**
    Uninterrupted, `forgotPassword` leaves its user exactly one reset token, the one just made, whether or
    not the mail goes out.
   */
  lemma ForgotAlone(s: State, c: nat, u: string, token: string, expiresAt: int, mailed: bool)
    requires Idle(s, c) && s.nextId !in s.resets
    requires u in s.users && s.users[u].isAdmin && s.users[u].password.Some?
    requires !ResetStored(ResetsWithoutUser(s.resets, u), token)
    ensures var s' := Run(s, [BeginForgot(c, u), ClearResets(c), CreateReset(c, token, expiresAt, mailed)]);
            && s'.calls == s.calls[c := Replied(if mailed then MailSent(token) else Refused)]
            && OnlyResetOf(s', u, s.nextId) && s'.resets[s.nextId].token == token
            && (forall j :: j in s.resets && s.resets[j].userId != u ==> j in s'.resets && s'.resets[j] == s.resets[j])
            && s'.refresh == s.refresh && s'.users == s.users
  {
    var t := Resume(s, c, ClearingResets(u));
    StepBeginForgot(s, c, u);
    var v := DoClearResets(t, c, u);
    StepClearResets(t, c, u);
    StepCreateReset(v, c, u, token, expiresAt, mailed);
    var w := DoCreateReset(v, c, u, token, expiresAt, mailed);
    FoldThree(Next, s, BeginForgot(c, u), t, ClearResets(c), v, CreateReset(c, token, expiresAt, mailed), w);
    assert w.calls == s.calls[c := w.calls[c]];
  }

  // ---------- any number of calls ----------

  ghost predicate AtMostOneReset(resets: map<nat, ResetRow>, u: string) {
    forall i, j :: i in resets && j in resets && resets[i].userId == resets[j].userId == u ==> i == j
  }

  ghost predicate NoResetOf(resets: map<nat, ResetRow>, u: string) {
    forall i :: i in resets ==> resets[i].userId != u
  }

  /** A `forgotPassword` call of user `u` in flight. */
  predicate ForgetsFor(k: Call, u: string) {
    (k.ClearingResets? || k.CreatingReset?) && k.userId == u
  }

  ghost predicate NoForgotInFlight(calls: map<nat, Call>, u: string) {
    forall c :: c in calls ==> !ForgetsFor(calls[c], u)
  }

  ghost predicate OneForgotInFlight(calls: map<nat, Call>, u: string) {
    forall c, d :: c in calls && d in calls && ForgetsFor(calls[c], u) && ForgetsFor(calls[d], u) ==> c == d
  }

  ghost predicate NoneCreating(calls: map<nat, Call>, u: string) {
    forall c :: c in calls ==> calls[c] != CreatingReset(u)
  }

  /** At most one token, at most one call, and not a token together with a call that will add another. */
  ghost predicate Calm(s: State, u: string) {
    && AtMostOneReset(s.resets, u) && OneForgotInFlight(s.calls, u)
    && (NoneCreating(s.calls, u) || NoResetOf(s.resets, u))
  }

  predicate Forgets(a: Action, u: string) { a.BeginForgot? && a.userId == u }

  ghost predicate NoForgot(actions: seq<Action>, u: string) {
    forall i :: 0 <= i < |actions| ==> !Forgets(actions[i], u)
  }

  /** No call for `u` begins while another is in flight. */
  ghost predicate NoOverlap(s: State, actions: seq<Action>, u: string) {
    forall i :: 0 <= i < |actions| && Forgets(actions[i], u) ==> NoForgotInFlight(Run(s, actions[..i]).calls, u)
  }

  ghost predicate Shrinks(resets: map<nat, ResetRow>, resets': map<nat, ResetRow>) {
    forall id :: id in resets' ==> id in resets && resets'[id] == resets[id]
  }

  ghost predicate RowAdded(s: State, s': State, u: string) {
    && s.nextId in s'.resets && s'.resets == s.resets[s.nextId := s'.resets[s.nextId]]
    && s'.resets[s.nextId].userId == u
  }

  /** What the reset rows become is told by where call `c` stands before and after the step. */
  ghost predicate RowsFollowCall(s: State, s': State, c: nat) {
    if s'.calls == s.calls then s'.resets == s.resets
    else
      && c in s'.calls && s'.calls == s.calls[c := s'.calls[c]]
      && match s'.calls[c]
         case CreatingReset(u) =>
           c in s.calls && s.calls[c] == ClearingResets(u) && s'.resets == ResetsWithoutUser(s.resets, u)
         case Replied(_) =>
           Shrinks(s.resets, s'.resets) || (c in s.calls && s.calls[c].CreatingReset? && RowAdded(s, s', s.calls[c].userId))
         case _ => s'.resets == s.resets
  }

  /** One step: the rows follow its call, and only `BeginForgot` lets a call start clearing. */
  ghost predicate RowsFollow(s: State, a: Action, s': State)
    requires !a.Logout?
  {
    && RowsFollowCall(s, s', a.call)
    && (s'.calls != s.calls && s'.calls[a.call].ClearingResets? ==> a == BeginForgot(a.call, s'.calls[a.call].userId))
  }

  lemma LoginRows(s: State, a: Action)
    requires a.Login?
    ensures RowsFollow(s, a, Next(s, a))
  {
  }

  lemma BeginRefreshRows(s: State, a: Action)
    requires a.BeginRefresh?
    ensures RowsFollow(s, a, Next(s, a))
  {
  }

  lemma RedeemRows(s: State, a: Action)
    requires a.DropExpired? || a.Redeem?
    ensures RowsFollow(s, a, Next(s, a))
  {
  }

  lemma StoreFreshRows(s: State, a: Action)
    requires a.StoreFresh?
    ensures RowsFollow(s, a, Next(s, a))
  {
  }

  lemma ForgotRows(s: State, a: Action)
    requires a.BeginForgot? || a.ClearResets?
    ensures RowsFollow(s, a, Next(s, a))
  {
  }

  lemma CreateRows(s: State, a: Action)
    requires a.CreateReset?
    ensures RowsFollow(s, a, Next(s, a))
  {
  }

  lemma BeginResetRows(s: State, a: Action)
    requires a.BeginReset?
    ensures RowsFollow(s, a, Next(s, a))
  {
  }

  lemma EndResetRows(s: State, a: Action)
    requires a.DropExpiredReset? || a.CommitReset?
    ensures RowsFollow(s, a, Next(s, a))
  {
  }

  lemma StepRows(s: State, a: Action)
    requires !a.Logout?
    ensures RowsFollow(s, a, Next(s, a))
  {
    match a
    case Login(_, _, _, _) => LoginRows(s, a);
    case BeginRefresh(_, _, _, _, _) => BeginRefreshRows(s, a);
    case DropExpired(_) => RedeemRows(s, a);
    case Redeem(_) => RedeemRows(s, a);
    case StoreFresh(_, _) => StoreFreshRows(s, a);
    case BeginForgot(_, _) => ForgotRows(s, a);
    case ClearResets(_) => ForgotRows(s, a);
    case CreateReset(_, _, _, _) => CreateRows(s, a);
    case BeginReset(_, _, _, _) => BeginResetRows(s, a);
    case DropExpiredReset(_) => EndResetRows(s, a);
    case CommitReset(_) => EndResetRows(s, a);
  }

  /** The call that moved does not start clearing for the user, or no other call for the user is in flight. */
  ghost predicate StartsAlone(s: State, s': State, c: nat, u: string) {
    s'.calls != s.calls && c in s'.calls && s'.calls[c] == ClearingResets(u) ==> NoForgotInFlight(s.calls, u)
  }

  lemma CalmFollowsRows(s: State, s': State, c: nat, u: string)
    requires Calm(s, u) && RowsFollowCall(s, s', c) && StartsAlone(s, s', c, u)
    ensures Calm(s', u)
  {
    if s'.calls != s.calls {
      forall d | d in s'.calls && d != c ensures d in s.calls && s'.calls[d] == s.calls[d] {}
      if c in s.calls && s.calls[c] == CreatingReset(u) {
        assert NoResetOf(s.resets, u);
      }
    }
  }

  lemma StepKeepsCalm(s: State, a: Action, u: string)
    requires Calm(s, u) && (Forgets(a, u) ==> NoForgotInFlight(s.calls, u))
    ensures Calm(Next(s, a), u)
  {
    match a
    case Logout(_, _) => CalmFollowsRows(s, Next(s, a), 0, u);
    case _ =>
      StepRows(s, a);
      CalmFollowsRows(s, Next(s, a), a.call, u);
  }

  lemma {:induction false} RunKeepsCalm(s: State, actions: seq<Action>, u: string)
    requires Calm(s, u) && NoOverlap(s, actions, u)
    ensures Calm(Run(s, actions), u)
  {
    if actions != [] {
      var n := |actions| - 1;
      forall i | 0 <= i < n && Forgets(actions[..n][i], u) ensures NoForgotInFlight(Run(s, actions[..n][..i]).calls, u) {
        assert actions[..n][..i] == actions[..i] && Forgets(actions[i], u);
      }
      RunKeepsCalm(s, actions[..n], u);
      StepKeepsCalm(Run(s, actions[..n]), actions[n], u);
    }
  }

  /** In every run in which no two calls for the user overlap, the user has at most one reset token at any moment. */
  lemma SerialForgotsLeaveOne(s0: State, actions: seq<Action>, u: string)
    requires Initial(s0) && NoOverlap(s0, actions, u)
    ensures AtMostOneReset(Run(s0, actions).resets, u)
  {
    RunKeepsCalm(s0, actions, u);
  }

  // ---------- how two tokens come about ----------

  lemma FreshReset(resets: map<nat, ResetRow>) returns (token: string)
    ensures !ResetStored(resets, token)
  {
    var used := set id | id in resets :: resets[id].token;
    token := FreshString(used);
    forall id | id in resets ensures resets[id].token != token {
      assert resets[id].token in used;
    }
  }

  /** A call about to create adds a row, whatever is there. */
  lemma CreateAdds(s: State, c: nat, u: string) returns (a: Action)
    requires Inv(s) && c in s.calls && s.calls[c] == CreatingReset(u)
    ensures !Forgets(a, u) && Inv(Next(s, a))
    ensures var s' := Next(s, a);
            && (forall id :: id in s.resets ==> id in s'.resets && s'.resets[id] == s.resets[id] && id != s.nextId)
            && s.nextId in s'.resets && s'.resets[s.nextId].userId == u
            && (forall d :: d in s.calls && d != c ==> d in s'.calls && s'.calls[d] == s.calls[d])
  {
    var token := FreshReset(s.resets);
    a := CreateReset(c, token, 0, true);
    StepCreateReset(s, c, u, token, 0, true);
    StepKeepsInv(s, a);
  }

  lemma TokenAndCreatorMakeTwo(s: State, c: nat, i: nat, u: string) returns (actions: seq<Action>)
    requires Inv(s) && c in s.calls && s.calls[c] == CreatingReset(u) && i in s.resets && s.resets[i].userId == u
    ensures NoForgot(actions, u) && !AtMostOneReset(Run(s, actions).resets, u)
  {
    var a := CreateAdds(s, c, u);
    FoldTwo(Next, s, a, a);
    actions := [a];
    assert i in Next(s, a).resets && s.nextId in Next(s, a).resets;
  }

  lemma ClearMovesOn(s: State, c: nat, u: string)
    requires Inv(s) && c in s.calls && s.calls[c] == ClearingResets(u)
    ensures Inv(Next(s, ClearResets(c))) && Next(s, ClearResets(c)).calls == s.calls[c := CreatingReset(u)]
  {
    StepClearResets(s, c, u);
    StepKeepsInv(s, ClearResets(c));
  }

  lemma TwoCreatorsMakeTwo(s: State, c: nat, d: nat, u: string) returns (actions: seq<Action>)
    requires Inv(s) && c != d && c in s.calls && d in s.calls && s.calls[c] == s.calls[d] == CreatingReset(u)
    ensures NoForgot(actions, u) && !AtMostOneReset(Run(s, actions).resets, u)
  {
    var a := CreateAdds(s, c, u);
    var rest := TokenAndCreatorMakeTwo(Next(s, a), d, s.nextId, u);
    RunCons(s, a, rest);
    actions := [a] + rest;
  }

  /** Two calls in flight: both clear before either creates. */
  lemma {:induction false} TwoCallsMakeTwo(s: State, c: nat, d: nat, u: string) returns (actions: seq<Action>)
    requires Inv(s) && c != d && c in s.calls && d in s.calls && ForgetsFor(s.calls[c], u) && ForgetsFor(s.calls[d], u)
    ensures NoForgot(actions, u) && !AtMostOneReset(Run(s, actions).resets, u)
    decreases if s.calls[c].ClearingResets? then 1 else 0, if s.calls[d].ClearingResets? then 1 else 0
  {
    if s.calls[c].CreatingReset? && s.calls[d].CreatingReset? {
      actions := TwoCreatorsMakeTwo(s, c, d, u);
    } else {
      var e := if s.calls[c].ClearingResets? then c else d;
      ClearMovesOn(s, e, u);
      var rest := TwoCallsMakeTwo(Next(s, ClearResets(e)), c, d, u);
      RunCons(s, ClearResets(e), rest);
      actions := [ClearResets(e)] + rest;
    }
  }

  lemma RestlessMakesTwo(s: State, u: string) returns (actions: seq<Action>)
    requires Inv(s) && !Calm(s, u)
    ensures NoForgot(actions, u) && !AtMostOneReset(Run(s, actions).resets, u)
  {
    if !AtMostOneReset(s.resets, u) {
      actions := [];
    } else if !OneForgotInFlight(s.calls, u) {
      var c, d :| c in s.calls && d in s.calls && ForgetsFor(s.calls[c], u) && ForgetsFor(s.calls[d], u) && c != d;
      actions := TwoCallsMakeTwo(s, c, d, u);
    } else {
      var c :| c in s.calls && s.calls[c] == CreatingReset(u);
      var i :| i in s.resets && s.resets[i].userId == u;
      actions := TokenAndCreatorMakeTwo(s, c, i, u);
    }
  }

  /**
    From any reachable state, the calls already in flight can never leave a user two reset tokens if and
    only if the state is calm: at most one token, at most one call, and no call about to add to a token.
   */
  lemma OneResetTokenIff(s0: State, actions: seq<Action>, u: string)
    requires Initial(s0)
    ensures var s := Run(s0, actions);
            (forall more: seq<Action> :: NoForgot(more, u) ==> AtMostOneReset(Run(s, more).resets, u)) <==> Calm(s, u)
  {
    InitialInv(s0);
    RunKeepsInv(s0, actions);
    var s := Run(s0, actions);
    if Calm(s, u) {
      forall more: seq<Action> | NoForgot(more, u) ensures AtMostOneReset(Run(s, more).resets, u) {
        RunKeepsCalm(s, more, u);
      }
    } else {
      var more := RestlessMakesTwo(s, u);
    }
  }

  /** A second call that begins while the first is in flight ends the calm for good: two tokens can follow. */
  lemma OverlappingForgotsLeaveTwo(s: State, c: nat, u: string) returns (actions: seq<Action>)
    requires Inv(s) && c in s.calls && ForgetsFor(s.calls[c], u)
    requires u in s.users && s.users[u].isAdmin && s.users[u].password.Some?
    ensures !AtMostOneReset(Run(s, actions).resets, u)
  {
    var d := FreshKey(s.calls.Keys);
    StepBeginForgot(s, d, u);
    StepKeepsInv(s, BeginForgot(d, u));
    var rest := TwoCallsMakeTwo(Next(s, BeginForgot(d, u)), c, d, u);
    RunCons(s, BeginForgot(d, u), rest);
    actions := [BeginForgot(d, u)] + rest;
  }

  // ---------- other users' tokens ----------

  /** A reset row goes only because its user asks for a new one, it is found expired, or it is used. */
  ghost predicate ResetGoneHasCause(s: State, a: Action, s': State, id: nat) {
    id in s.resets ==>
      || (id in s'.resets && s'.resets[id] == s.resets[id])
      || (a.ClearResets? && a.call in s.calls && s.calls[a.call] == ClearingResets(s.resets[id].userId))
      || (a.DropExpiredReset? && a.call in s.calls && s.calls[a.call] == DroppingExpiredReset(id))
      || (a.CommitReset? && a.call in s.calls && s.calls[a.call].Resetting? && s.calls[a.call].row == id)
  }

  lemma RefreshStepKeepsResets(s: State, a: Action)
    requires OfRefresh(a)
    ensures Next(s, a).resets == s.resets
  {
    match a
    case BeginRefresh(_, _, _, _, _) =>
    case _ =>
  }

  lemma ResetStepGoneHasCause(s: State, a: Action, id: nat)
    requires a.ClearResets? || a.DropExpiredReset? || a.CommitReset?
    ensures ResetGoneHasCause(s, a, Next(s, a), id)
  {
  }

  lemma OtherStepGoneHasCause(s: State, a: Action, id: nat)
    requires a.BeginForgot? || a.BeginReset? || (a.CreateReset? && id != s.nextId)
    ensures ResetGoneHasCause(s, a, Next(s, a), id)
  {
  }

  lemma StepResetGoneHasCause(s: State, a: Action, id: nat)
    requires Inv(s)
    ensures ResetGoneHasCause(s, a, Next(s, a), id)
  {
    if OfRefresh(a) {
      RefreshStepKeepsResets(s, a);
    } else if a.ClearResets? || a.DropExpiredReset? || a.CommitReset? {
      ResetStepGoneHasCause(s, a, id);
    } else if id in s.resets {
      OtherStepGoneHasCause(s, a, id);
    }
  }
}
