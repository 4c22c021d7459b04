/** Shared result types, unused numbers and strings, and runs of a machine. */
module Prelude {

  datatype Option<+T> = None | Some(value: T)

  datatype Result<+T, +E> = Success(value: T) | Failure(error: E)

  /** There is always an unused number: one above all of `keys`. */
  lemma {:induction false} FreshKey(keys: set<nat>) returns (k: nat)
    ensures forall j :: j in keys ==> j < k
    decreases |keys|
  {
    if keys == {} {
      k := 0;
    } else {
      var j :| j in keys;
      k := FreshKey(keys - {j});
      assert forall i :: i in keys ==> i == j || i in keys - {j};
      k := if k > j then k else j + 1;
    }
  }

  /** There is always an unused string: one longer than all of `used`. */
  lemma {:induction false} FreshString(used: set<string>) returns (unused: string)
    ensures forall s :: s in used ==> |s| < |unused|
    decreases |used|
  {
    if used == {} {
      unused := "";
    } else {
      var s :| s in used;
      var longer := FreshString(used - {s});
      unused := longer + s + "x";
      assert forall t :: t in used ==> t == s || t in used - {s};
    }
  }

  function Min(a: nat, b: nat): nat { if a < b then a else b }

  /** Where a machine gets from `start` by taking `actions` in order. */
  ghost function Fold<S(!new), A(!new)>(step: (S, A) -> S, start: S, actions: seq<A>): S {
    if actions == [] then start
    else step(Fold(step, start, actions[..|actions| - 1]), actions[|actions| - 1])
  }

  lemma {:induction false} FoldAppend<S(!new), A(!new)>(step: (S, A) -> S, start: S, before: seq<A>, after: seq<A>)
    ensures Fold(step, start, before + after) == Fold(step, Fold(step, start, before), after)
  {
    if after == [] {
      assert before + after == before;
    } else {
      var n, all := |after| - 1, before + after;
      assert all[..|all| - 1] == before + after[..n];
      FoldAppend(step, start, before, after[..n]);
    }
  }

  lemma FoldSnoc<S(!new), A(!new)>(step: (S, A) -> S, start: S, actions: seq<A>, last: A)
    ensures Fold(step, start, actions + [last]) == step(Fold(step, start, actions), last)
  {
    assert (actions + [last])[..|actions|] == actions;
  }

  lemma FoldTwo<S(!new), A(!new)>(step: (S, A) -> S, start: S, a: A, b: A)
    ensures Fold(step, start, [a]) == step(start, a) && Fold(step, start, [a, b]) == step(step(start, a), b)
  {
    FoldSnoc(step, start, [], a);
    FoldSnoc(step, start, [a], b);
    assert [] + [a] == [a] && [a] + [b] == [a, b];
  }

  /** Three steps in a row, given the states in between. */
  lemma FoldThree<S(!new), A(!new)>(step: (S, A) -> S, s: S, a: A, t: S, b: A, u: S, c: A, v: S)
    requires step(s, a) == t && step(t, b) == u && step(u, c) == v
    ensures Fold(step, s, [a, b, c]) == v
  {
    FoldTwo(step, s, a, b);
    FoldSnoc(step, s, [a, b], c);
    assert [a, b] + [c] == [a, b, c];
  }

  /** What every step keeps, every run keeps. */
  lemma {:induction false} FoldKeeps<S(!new), A(!new)>(step: (S, A) -> S, holds: S -> bool, start: S, actions: seq<A>)
    requires holds(start) && forall s, a :: holds(s) ==> holds(step(s, a))
    ensures holds(Fold(step, start, actions))
  {
    if actions != [] {
      FoldKeeps(step, holds, start, actions[..|actions| - 1]);
    }
  }
}
