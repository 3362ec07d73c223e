/** What it means to filter a list: the survivors, in order, each exactly as often as it came. */
module Picks {
  import opened Text

  // ----- replacing each element by a list -----

  function FlatMap<T, U>(xs: seq<T>, f: T -> seq<U>): seq<U> {
    if xs == [] then [] else FlatMap(xs[..|xs| - 1], f) + f(xs[|xs| - 1])
  }

  lemma {:induction false} FlatMapConcat<T, U>(a: seq<T>, b: seq<T>, f: T -> seq<U>)
    ensures FlatMap(a + b, f) == FlatMap(a, f) + FlatMap(b, f)
  {
    if b == [] {
      assert a + b == a;
    } else {
      FlatMapConcat(a, b[..|b| - 1], f);
      assert (a + b)[..|a + b| - 1] == a + b[..|b| - 1];
    }
  }

  lemma {:induction false} FlatMapNext<T, U>(xs: seq<T>, x: T, f: T -> seq<U>)
    ensures FlatMap(xs + [x], f) == FlatMap(xs, f) + f(x)
  {
    assert (xs + [x])[..|xs|] == xs;
  }

  /** Where the list of the `i`-th element stands. */
  lemma {:induction false} FlatMapAt<T, U>(xs: seq<T>, f: T -> seq<U>, i: nat)
    requires i < |xs|
    ensures var start := |FlatMap(xs[..i], f)|;
            && start + |f(xs[i])| <= |FlatMap(xs, f)|
            && FlatMap(xs, f)[start..start + |f(xs[i])|] == f(xs[i])
  {
    var rest := xs[i + 1..];
    assert xs == xs[..i] + [xs[i]] + rest;
    FlatMapNext(xs[..i], xs[i], f);
    FlatMapConcat(xs[..i] + [xs[i]], rest, f);
  }

  // ----- filtering -----

  ghost predicate Ascending(at: seq<nat>) {
    forall i, j | 0 <= i < j < |at| :: at[i] < at[j]
  }

  /** The rule makes `ys` of the elements at the positions `at`. */
  ghost predicate Hits<T, U>(xs: seq<T>, rule: T -> Option<U>, ys: seq<U>, at: seq<nat>) {
    |at| == |ys| && forall i | 0 <= i < |at| :: at[i] < |xs| && rule(xs[at[i]]) == Some(ys[i])
  }

  /** Every element that the rule does not drop is at one of them. */
  ghost predicate Covers<T, U>(xs: seq<T>, rule: T -> Option<U>, at: seq<nat>) {
    forall k | 0 <= k < |xs| && rule(xs[k]).Some? :: k in at
  }

  ghost predicate PickedAt<T, U>(xs: seq<T>, rule: T -> Option<U>, ys: seq<U>, at: seq<nat>) {
    Ascending(at) && Hits(xs, rule, ys, at) && Covers(xs, rule, at)
  }

  /** `ys` is what the rule leaves of `xs`. */
  ghost predicate Picked<T, U>(xs: seq<T>, rule: T -> Option<U>, ys: seq<U>) {
    exists at :: PickedAt(xs, rule, ys, at)
  }

  function Outcome<U>(o: Option<U>): seq<U> {
    if o.Some? then [o.value] else []
  }

  function OutcomeOf<T, U>(rule: T -> Option<U>): T -> seq<U> {
    x => Outcome(rule(x))
  }

  /** The survivors, collected from the front. */
  function FilterMap<T, U>(xs: seq<T>, rule: T -> Option<U>): seq<U> {
    FlatMap(xs, OutcomeOf(rule))
  }

  lemma {:induction false} FilterMapNext<T, U>(xs: seq<T>, x: T, rule: T -> Option<U>)
    ensures FilterMap(xs + [x], rule) == FilterMap(xs, rule) + Outcome(rule(x))
  {
    FlatMapNext(xs, x, OutcomeOf(rule));
  }

  lemma {:induction false} FilterMapConcat<T, U>(a: seq<T>, b: seq<T>, rule: T -> Option<U>)
    ensures FilterMap(a + b, rule) == FilterMap(a, rule) + FilterMap(b, rule)
  {
    FlatMapConcat(a, b, OutcomeOf(rule));
  }

  lemma {:induction false} PickedNextAt<T, U>(xs: seq<T>, rule: T -> Option<U>, ys: seq<U>, x: T, at: seq<nat>)
    requires PickedAt(xs, rule, ys, at)
    ensures Picked(xs + [x], rule, ys + Outcome(rule(x)))
  {
    var more := xs + [x];
    if rule(x).Some? {
      var next := at + [|xs|];
      assert next[|at|] == |xs|;
      forall k | 0 <= k < |more| && rule(more[k]).Some? ensures k in next {
      }
      assert Hits(more, rule, ys + [rule(x).value], next);
      assert PickedAt(more, rule, ys + [rule(x).value], next);
    } else {
      assert ys + [] == ys;
      assert PickedAt(more, rule, ys, at);
    }
  }

  lemma {:induction false} PickedNext<T, U>(xs: seq<T>, rule: T -> Option<U>, ys: seq<U>, x: T)
    requires Picked(xs, rule, ys)
    ensures Picked(xs + [x], rule, ys + Outcome(rule(x)))
  {
    var at :| PickedAt(xs, rule, ys, at);
    PickedNextAt(xs, rule, ys, x, at);
  }

  lemma {:induction false} PickedEmpty<T, U>(rule: T -> Option<U>)
    ensures Picked([], rule, [])
  {
    assert PickedAt([], rule, [], []);
  }

  /** Collecting the survivors leaves what the rule leaves. */
  lemma {:induction false} FilterMapPicked<T, U>(xs: seq<T>, rule: T -> Option<U>)
    ensures Picked(xs, rule, FilterMap(xs, rule))
  {
    if xs == [] {
      PickedEmpty(rule);
    } else {
      var front, x := xs[..|xs| - 1], xs[|xs| - 1];
      FilterMapPicked(front, rule);
      PickedNext(front, rule, FilterMap(front, rule), x);
      FilterMapNext(front, x, rule);
      assert xs == front + [x];
    }
  }

  /** Nothing survives that the rule did not let through, and nothing it lets through is missing. */
  lemma {:induction false} FilterMapIn<T, U>(xs: seq<T>, rule: T -> Option<U>, y: U)
    ensures y in FilterMap(xs, rule) <==> exists x | x in xs :: rule(x) == Some(y)
  {
    if xs != [] {
      FilterMapIn(xs[..|xs| - 1], rule, y);
      assert xs == xs[..|xs| - 1] + [xs[|xs| - 1]];
    }
  }

  lemma {:induction false} FilterMapSome<T, U>(xs: seq<T>, rule: T -> Option<U>)
    ensures FilterMap(xs, rule) != [] <==> exists x | x in xs :: rule(x).Some?
  {
    if xs != [] {
      FilterMapSome(xs[..|xs| - 1], rule);
      assert xs == xs[..|xs| - 1] + [xs[|xs| - 1]];
    }
  }

  lemma {:induction false} LastPicked<T, U>(xs: seq<T>, rule: T -> Option<U>, ys: seq<U>, at: seq<nat>)
    requires xs != [] && PickedAt(xs, rule, ys, at)
    ensures var front, o := xs[..|xs| - 1], rule(xs[|xs| - 1]);
            && ys == ys[..|ys| - |Outcome(o)|] + Outcome(o)
            && Picked(front, rule, ys[..|ys| - |Outcome(o)|])
  {
    var front, n := xs[..|xs| - 1], |xs| - 1;
    if rule(xs[n]).Some? {
      var i :| 0 <= i < |at| && at[i] == n;
      assert at[|at| - 1] <= n;
      assert PickedAt(front, rule, ys[..|ys| - 1], at[..|at| - 1]);
    } else {
      assert ys[..|ys|] == ys;
      assert PickedAt(front, rule, ys, at);
    }
  }

  lemma {:induction false} AtLeastIndex(at: seq<nat>, i: nat)
    requires Ascending(at) && i < |at|
    ensures at[i] >= i
  {
    if i > 0 {
      AtLeastIndex(at, i - 1);
    }
  }

  lemma {:induction false} PickedFewer<T, U>(xs: seq<T>, rule: T -> Option<U>, ys: seq<U>, at: seq<nat>)
    requires PickedAt(xs, rule, ys, at)
    ensures |ys| <= |xs|
  {
    if at != [] {
      AtLeastIndex(at, |at| - 1);
    }
  }

  /** There is only one such list. */
  lemma {:induction false} PickedUnique<T, U>(xs: seq<T>, rule: T -> Option<U>, ys: seq<U>, zs: seq<U>)
    requires Picked(xs, rule, ys) && Picked(xs, rule, zs)
    ensures ys == zs
  {
    var s :| PickedAt(xs, rule, ys, s);
    var t :| PickedAt(xs, rule, zs, t);
    PickedFewer(xs, rule, ys, s);
    PickedFewer(xs, rule, zs, t);
    if xs != [] {
      LastPicked(xs, rule, ys, s);
      LastPicked(xs, rule, zs, t);
      var n := |Outcome(rule(xs[|xs| - 1]))|;
      PickedUnique(xs[..|xs| - 1], rule, ys[..|ys| - n], zs[..|zs| - n]);
    }
  }

  // ----- replacing each element by one -----

  function Map<T, U>(xs: seq<T>, g: T -> U): seq<U> {
    if xs == [] then [] else Map(xs[..|xs| - 1], g) + [g(xs[|xs| - 1])]
  }

  lemma {:induction false} MapNext<T, U>(xs: seq<T>, x: T, g: T -> U)
    ensures Map(xs + [x], g) == Map(xs, g) + [g(x)]
  {
    assert (xs + [x])[..|xs|] == xs;
  }

  lemma {:induction false} FlatMapOfMap<T(!new), U, V>(xs: seq<T>, g: T -> U, f: U -> seq<V>, h: T -> seq<V>)
    requires forall x :: h(x) == f(g(x))
    ensures FlatMap(Map(xs, g), f) == FlatMap(xs, h)
  {
    if xs != [] {
      FlatMapOfMap(xs[..|xs| - 1], g, f, h);
      FlatMapNext(Map(xs[..|xs| - 1], g), g(xs[|xs| - 1]), f);
    }
  }

  /** The two rules keep the same elements. */
  ghost predicate Agree<T(!new), U>(g: T -> U, a: T -> Option<T>, b: U -> Option<U>) {
    forall x :: b(g(x)) == if a(x).Some? then Some(g(a(x).value)) else None
  }

  lemma {:induction false} FilterMapOfMap<T(!new), U>(xs: seq<T>, g: T -> U, a: T -> Option<T>, b: U -> Option<U>)
    requires Agree(g, a, b)
    ensures FilterMap(Map(xs, g), b) == Map(FilterMap(xs, a), g)
  {
    if xs != [] {
      var front, x := xs[..|xs| - 1], xs[|xs| - 1];
      FilterMapOfMap(front, g, a, b);
      FilterMapNext(Map(front, g), g(x), b);
      assert b(g(x)) == if a(x).Some? then Some(g(a(x).value)) else None;
      if a(x).Some? {
        MapNext(FilterMap(front, a), a(x).value, g);
      } else {
        assert FilterMap(front, a) + [] == FilterMap(front, a);
      }
    }
  }
}
