/**
  Dependency graphs: paths, cycles and orders in which everything comes after
  what it depends on.
 */
module Digraph {

  /** Each node of p depends on the next one. */
  ghost predicate IsPath<T(!new)>(succ: T -> set<T>, p: seq<T>) {
    forall i :: Hop(succ, p, i)
  }

  predicate Hop<T(!new)>(succ: T -> set<T>, p: seq<T>, i: int) {
    0 <= i < |p| - 1 ==> p[i + 1] in succ(p[i])
  }

  lemma LongerPath<T(!new)>(succ: T -> set<T>, p: seq<T>, s: T)
    requires IsPath(succ, p) && (p != [] ==> s in succ(p[|p| - 1]))
    ensures IsPath(succ, p + [s])
  {
    forall i ensures Hop(succ, p + [s], i) {
      assert Hop(succ, p, i);
    }
  }

  lemma ShorterPath<T(!new)>(succ: T -> set<T>, p: seq<T>, s: T)
    requires IsPath(succ, p + [s])
    ensures IsPath(succ, p)
  {
    forall i ensures Hop(succ, p, i) {
      assert Hop(succ, p + [s], i);
    }
  }

  /** From one of the roots the dependencies lead into a cycle. */
  ghost predicate Cyclic<T(!new)>(succ: T -> set<T>, roots: set<T>) {
    exists p: seq<T>, i: nat, j: nat :: IsPath(succ, p) && i < j < |p| && p[0] in roots && p[i] == p[j]
  }

  /** Every node comes after the ones it depends on. */
  ghost predicate Topological<T(!new)>(succ: T -> set<T>, done: seq<T>) {
    forall i {:trigger After(succ, done, i)} :: 0 <= i < |done| ==> After(succ, done, i)
  }

  predicate After<T(!new)>(succ: T -> set<T>, done: seq<T>, i: nat)
    requires i < |done|
  {
    forall d :: d in succ(done[i]) ==> d in done[..i]
  }

  lemma TopologicalStep<T(!new)>(succ: T -> set<T>, done: seq<T>, s: T)
    requires Topological(succ, done) && forall d :: d in succ(s) ==> d in done
    ensures Topological(succ, done + [s])
  {
    var longer := done + [s];
    forall i | 0 <= i < |longer| ensures After(succ, longer, i) {
      if i < |done| {
        assert After(succ, done, i) && longer[..i] == done[..i];
      } else {
        assert longer[..i] == done;
      }
    }
  }

  ghost predicate Closed<T(!new)>(succ: T -> set<T>, all: set<T>) {
    forall s :: s in all ==> succ(s) <= all
  }

  /** The first place of x. */
  function Place<T(==)>(done: seq<T>, x: T): (k: nat)
    requires x in done
    ensures k < |done| && done[k] == x
  {
    var n := |done| - 1;
    if x in done[..n] then Place(done[..n], x) else n
  }

  lemma {:induction false} PlaceIsFirst<T(!new)>(done: seq<T>, x: T, k: nat)
    requires k <= |done| && x in done[..k]
    ensures x in done && Place(done, x) < k
  {
    var n := |done| - 1;
    if k <= n {
      assert done[..n][..k] == done[..k];
      PlaceIsFirst(done[..n], x, k);
    } else {
      assert done[..k] == done;
    }
  }

  lemma EdgeDescends<T(!new)>(succ: T -> set<T>, done: seq<T>, x: T, d: T)
    requires Topological(succ, done) && x in done && d in succ(x)
    ensures d in done && Place(done, d) < Place(done, x)
  {
    assert After(succ, done, Place(done, x));
    PlaceIsFirst(done, d, Place(done, x));
  }

  /** Along a path the places in a topological order decrease. */
  lemma {:induction false} PathDescends<T(!new)>(succ: T -> set<T>, done: seq<T>, p: seq<T>, i: nat, j: nat)
    requires Topological(succ, done) && IsPath(succ, p) && i < j < |p| && p[i] in done
    ensures p[j] in done && Place(done, p[j]) < Place(done, p[i])
    decreases j - i
  {
    assert Hop(succ, p, i);
    EdgeDescends(succ, done, p[i], p[i + 1]);
    if i + 1 < j {
      PathDescends(succ, done, p, i + 1, j);
    }
  }

  lemma TopologicalHasNoCycle<T(!new)>(succ: T -> set<T>, done: seq<T>, roots: set<T>)
    requires Topological(succ, done) && forall s :: s in roots ==> s in done
    ensures !Cyclic(succ, roots)
  {
    forall p: seq<T>, i: nat, j: nat | IsPath(succ, p) && i < j < |p| && p[0] in roots ensures p[i] != p[j] {
      if i > 0 {
        PathDescends(succ, done, p, 0, i);
      }
      PathDescends(succ, done, p, i, j);
    }
  }

  /** A path that comes back to one of its nodes. */
  lemma Lasso<T(!new)>(succ: T -> set<T>, roots: set<T>, stack: seq<T>, s: T)
    requires IsPath(succ, stack + [s]) && s in stack && stack[0] in roots
    ensures Cyclic(succ, roots)
  {
    var p := stack + [s];
    var i :| 0 <= i < |stack| && stack[i] == s;
    assert IsPath(succ, p) && i < |stack| < |p| && p[0] in roots && p[i] == p[|stack|];
  }
}
