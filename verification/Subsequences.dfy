/** What it means to pick some elements of a sequence without changing their order. */
module Subsequences {
  /** Positions below n, in ascending order. */
  ghost predicate Positions(at: seq<nat>, n: nat) {
    (forall i, j | 0 <= i < j < |at| :: at[i] < at[j]) && forall i | 0 <= i < |at| :: at[i] < n
  }

  lemma OneMorePosition(at: seq<nat>, n: nat)
    requires Positions(at, n)
    ensures Positions(at, n + 1) && Positions(at + [n], n + 1) && n !in at
    ensures forall k: nat :: k in at + [n] <==> k in at || k == n
  {
  }

  /** All elements with the property and no others, each as often and in the same order. */
  ghost predicate Picks<T(!new)>(xs: seq<T>, ys: seq<T>, p: T -> bool) {
    exists at: seq<nat> :: Positions(at, |xs|) && Shows(xs, ys, at) && Marks(xs, at, p)
  }

  ghost predicate Shows<T>(xs: seq<T>, ys: seq<T>, at: seq<nat>) {
    |at| == |ys| && forall i | 0 <= i < |at| :: at[i] < |xs| && ys[i] == xs[at[i]]
  }

  ghost predicate Marks<T(!new)>(xs: seq<T>, at: seq<nat>, p: T -> bool) {
    forall k: nat | k < |xs| :: p(xs[k]) <==> k in at
  }

  lemma PicksNothing<T(!new)>(p: T -> bool)
    ensures Picks([], [], p)
  {
    assert Positions([], 0) && Shows<T>([], [], []) && Marks<T>([], [], p);
  }

  lemma PicksOneMore<T(!new)>(xs: seq<T>, ys: seq<T>, x: T, p: T -> bool)
    requires Picks(xs, ys, p)
    ensures Picks(xs + [x], if p(x) then ys + [x] else ys, p)
  {
    var at: seq<nat> :| Positions(at, |xs|) && Shows(xs, ys, at) && Marks(xs, at, p);
    OneMorePosition(at, |xs|);
    ShowsOneMore(xs, ys, at, x);
    MarksOneMore(xs, at, x, p);
    assert |xs + [x]| == |xs| + 1;
  }

  lemma ShowsOneMore<T>(xs: seq<T>, ys: seq<T>, at: seq<nat>, x: T)
    requires Shows(xs, ys, at)
    ensures Shows(xs + [x], ys + [x], at + [|xs|]) && Shows(xs + [x], ys, at)
  {
  }

  lemma MarksOneMore<T(!new)>(xs: seq<T>, at: seq<nat>, x: T, p: T -> bool)
    requires Marks(xs, at, p) && Positions(at, |xs|)
    ensures p(x) ==> Marks(xs + [x], at + [|xs|], p)
    ensures !p(x) ==> Marks(xs + [x], at, p)
  {
    OneMorePosition(at, |xs|);
  }
}
