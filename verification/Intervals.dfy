/**
 Sets of decrees as lists of half-open intervals: how acceptors tell each other
 which decrees they hold when they synchronise.
 */
module Intervals {
  import opened Ballots

  datatype Interval = Interval(lo: DecreeId, hi: DecreeId)

  predicate AtOrBefore(c: DecreeId, d: DecreeId) {
    c == d || Before(c, d)
  }

  function Succ(d: DecreeId): (r: DecreeId) {
    DecreeId(d.legislature, d.number + 1)
  }

  predicate Within(d: DecreeId, i: Interval) {
    AtOrBefore(i.lo, d) && Before(d, i.hi)
  }

  predicate Member(d: DecreeId, xs: seq<Interval>) {
    exists i :: 0 <= i < |xs| && Within(d, xs[i])
  }

  // ---------------------------------------------------------------- grouping

  function GroupFrom(lo: DecreeId, hi: DecreeId, ds: seq<DecreeId>): (r: seq<Interval>)
    decreases |ds|
  {
    if ds == [] then [Interval(lo, hi)]
    else if hi == ds[0] then GroupFrom(lo, Succ(ds[0]), ds[1..])
    else [Interval(lo, hi)] + GroupFrom(ds[0], Succ(ds[0]), ds[1..])
  }

  function Group(ds: seq<DecreeId>): (r: seq<Interval>) {
    if ds == [] then [] else GroupFrom(ds[0], Succ(ds[0]), ds[1..])
  }

  /** The decrees of one interval, counted up within its legislature. */
  function ExpandOne(i: Interval): (r: seq<DecreeId>)
    decreases i.hi.number - i.lo.number
  {
    if i.lo.legislature == i.hi.legislature && i.lo.number < i.hi.number
    then [i.lo] + ExpandOne(Interval(Succ(i.lo), i.hi))
    else []
  }

  function Expand(xs: seq<Interval>): (r: seq<DecreeId>) {
    if xs == [] then [] else ExpandOne(xs[0]) + Expand(xs[1..])
  }

  /** A non-empty interval inside one legislature. */
  predicate Proper(i: Interval) {
    i.lo.legislature == i.hi.legislature && i.lo.number < i.hi.number
  }

  /** Proper intervals, none of which continues the one before it. */
  predicate Canonical(xs: seq<Interval>) {
    && (forall i :: 0 <= i < |xs| ==> Proper(xs[i]))
    && (forall i :: 0 <= i < |xs| - 1 ==> xs[i].hi != xs[i + 1].lo)
  }

  predicate Increasing(ds: seq<DecreeId>) {
    forall i, j :: 0 <= i < j < |ds| ==> Before(ds[i], ds[j])
  }

  /** Proper intervals in increasing order with a gap between neighbours. */
  predicate Separated(xs: seq<Interval>) {
    && (forall i :: 0 <= i < |xs| ==> Before(xs[i].lo, xs[i].hi))
    && (forall i, j :: 0 <= i < j < |xs| ==> Before(xs[i].hi, xs[j].lo))
  }

  /** Like Separated, but neighbours may touch. */
  predicate Ordered(xs: seq<Interval>) {
    && (forall i :: 0 <= i < |xs| ==> Before(xs[i].lo, xs[i].hi))
    && (forall i, j :: 0 <= i < j < |xs| ==> AtOrBefore(xs[i].hi, xs[j].lo))
  }

  lemma {:induction false} ExpandOneGrows(lo: DecreeId, hi: DecreeId)
    requires Proper(Interval(lo, hi))
    ensures ExpandOne(Interval(lo, Succ(hi))) == ExpandOne(Interval(lo, hi)) + [hi]
    decreases hi.number - lo.number
  {
    if lo.number + 1 == hi.number {
      assert ExpandOne(Interval(hi, Succ(hi))) == [hi] + ExpandOne(Interval(Succ(hi), Succ(hi)));
      assert ExpandOne(Interval(hi, hi)) == [];
      assert Succ(lo) == hi;
    } else {
      ExpandOneGrows(Succ(lo), hi);
    }
  }

  lemma ExpandSingle(d: DecreeId)
    ensures ExpandOne(Interval(d, Succ(d))) == [d]
  {
    assert ExpandOne(Interval(Succ(d), Succ(d))) == [];
  }

  lemma ExpandCons(x: Interval, xs: seq<Interval>)
    ensures Expand([x] + xs) == ExpandOne(x) + Expand(xs)
  {
    assert ([x] + xs)[1..] == xs;
  }

  lemma {:induction false} ExpandGroupFrom(lo: DecreeId, hi: DecreeId, ds: seq<DecreeId>)
    requires Proper(Interval(lo, hi))
    ensures Expand(GroupFrom(lo, hi, ds)) == ExpandOne(Interval(lo, hi)) + ds
    decreases |ds|
  {
    if ds == [] {
      ExpandCons(Interval(lo, hi), []);
    } else {
      var d, rest := ds[0], ds[1..];
      assert ds == [d] + rest;
      if hi == d {
        ExpandGroupFrom(lo, Succ(hi), rest);
        ExpandOneGrows(lo, hi);
      } else {
        ExpandGroupFrom(d, Succ(d), rest);
        ExpandSingle(d);
        ExpandCons(Interval(lo, hi), GroupFrom(d, Succ(d), rest));
      }
    }
  }

  /** Grouping loses nothing: any list of decrees comes back, in order. */
  lemma ExpandGroup(ds: seq<DecreeId>)
    ensures Expand(Group(ds)) == ds
  {
    if ds != [] {
      ExpandGroupFrom(ds[0], Succ(ds[0]), ds[1..]);
      ExpandSingle(ds[0]);
    }
  }

  lemma {:induction false} GroupFromCanonical(lo: DecreeId, hi: DecreeId, ds: seq<DecreeId>)
    requires Proper(Interval(lo, hi))
    ensures var r := GroupFrom(lo, hi, ds); Canonical(r) && r != [] && r[0].lo == lo
    decreases |ds|
  {
    if ds != [] {
      if hi == ds[0] { GroupFromCanonical(lo, Succ(hi), ds[1..]); }
      else { GroupFromCanonical(ds[0], Succ(ds[0]), ds[1..]); }
    }
  }

  lemma {:induction false} GroupFromRun(lo: DecreeId, hi: DecreeId, i: Interval, rest: seq<DecreeId>)
    requires Proper(Interval(lo, hi)) && i.lo == hi && (i.lo == i.hi || Proper(i))
    ensures GroupFrom(lo, hi, ExpandOne(i) + rest) == GroupFrom(lo, i.hi, rest)
    decreases i.hi.number - i.lo.number
  {
    if i.lo == i.hi {
      assert ExpandOne(i) + rest == rest;
    } else {
      var j := Interval(Succ(i.lo), i.hi);
      assert (ExpandOne(i) + rest)[1..] == ExpandOne(j) + rest;
      GroupFromRun(lo, Succ(hi), j, rest);
    }
  }

  lemma GroupOfFirst(i: Interval, rest: seq<DecreeId>)
    requires Proper(i)
    ensures var ds := ExpandOne(i) + rest; ds != [] && ds[0] == i.lo && Group(ds) == GroupFrom(i.lo, i.hi, rest)
  {
    var j := Interval(Succ(i.lo), i.hi);
    var ds := ExpandOne(i) + rest;
    assert ds == [i.lo] + (ExpandOne(j) + rest);
    assert ds[1..] == ExpandOne(j) + rest;
    GroupFromRun(i.lo, Succ(i.lo), j, rest);
  }

  lemma {:induction false} GroupExpandFrom(xs: seq<Interval>)
    requires Canonical(xs) && xs != []
    ensures Group(Expand(xs)) == xs && Expand(xs) != [] && Expand(xs)[0] == xs[0].lo
    decreases |xs|
  {
    var i := xs[0];
    var rest := Expand(xs[1..]);
    GroupOfFirst(i, rest);
    if |xs| > 1 {
      GroupExpandFrom(xs[1..]);
      assert GroupFrom(i.lo, i.hi, rest) == [i] + GroupFrom(rest[0], Succ(rest[0]), rest[1..]);
    } else {
      assert xs[1..] == [];
    }
  }

  /** Regrouping an interval list gives it back exactly when it is canonical. */
  lemma GroupExpand(xs: seq<Interval>)
    ensures Group(Expand(xs)) == xs <==> Canonical(xs)
  {
    if Canonical(xs) && xs != [] { GroupExpandFrom(xs); }
    if Group(Expand(xs)) == xs && xs != [] {
      var ds := Expand(xs);
      GroupFromCanonical(ds[0], Succ(ds[0]), ds[1..]);
    }
  }

  // ---------------------------------------------------------------- membership

  lemma {:induction false} GroupFromMembers(lo: DecreeId, hi: DecreeId, ds: seq<DecreeId>, d: DecreeId)
    requires Proper(Interval(lo, hi)) && Increasing(ds) && (ds != [] ==> AtOrBefore(hi, ds[0]))
    ensures var r := GroupFrom(lo, hi, ds);
      Separated(r) && r != [] && r[0].lo == lo && (Member(d, r) <==> Within(d, Interval(lo, hi)) || d in ds)
    decreases |ds|
  {
    var r := GroupFrom(lo, hi, ds);
    if ds == [] {
      assert r[0] == Interval(lo, hi);
    } else if hi == ds[0] {
      GroupFromMembers(lo, Succ(hi), ds[1..], d);
      assert ds == [ds[0]] + ds[1..];
    } else {
      var rest := GroupFrom(ds[0], Succ(ds[0]), ds[1..]);
      GroupFromMembers(ds[0], Succ(ds[0]), ds[1..], d);
      assert r == [Interval(lo, hi)] + rest && ds == [ds[0]] + ds[1..];
      MemberCons(d, Interval(lo, hi), rest);
    }
  }

  lemma MemberCons(d: DecreeId, x: Interval, xs: seq<Interval>)
    ensures Member(d, [x] + xs) <==> Within(d, x) || Member(d, xs)
  {
    var r := [x] + xs;
    if Within(d, x) { assert Within(d, r[0]); }
    if Member(d, xs) {
      var i :| 0 <= i < |xs| && Within(d, xs[i]);
      assert Within(d, r[i + 1]);
    }
    if Member(d, r) && !Within(d, x) {
      var i :| 0 <= i < |r| && Within(d, r[i]);
      assert Within(d, xs[i - 1]);
    }
  }

  /** The intervals of an increasing list hold exactly its decrees, with gaps between them. */
  lemma GroupMembers(ds: seq<DecreeId>)
    requires Increasing(ds)
    ensures Separated(Group(ds)) && forall d :: Member(d, Group(ds)) <==> d in ds
  {
    if ds != [] {
      GroupFromMembers(ds[0], Succ(ds[0]), ds[1..], ds[0]);
      forall d ensures Member(d, Group(ds)) <==> d in ds {
        GroupFromMembers(ds[0], Succ(ds[0]), ds[1..], d);
        assert ds == [ds[0]] + ds[1..];
      }
    }
  }

  // ---------------------------------------------------------------- difference

  /** The decrees to ask for: those in xs, the advertised ones, without those in ys, the ones held. */
  function Diff(xs: seq<Interval>, ys: seq<Interval>): (r: seq<Interval>)
    decreases |xs| + |ys|
  {
    if ys == [] then xs
    else if xs == [] then []
    else
      var x, y := xs[0], ys[0];
      if Before(x.lo, y.hi) && Before(y.lo, x.hi) then
        if Before(x.lo, y.lo) then [Interval(x.lo, y.lo)] + Diff(xs[1..], ys)
        else if AtOrBefore(x.hi, y.hi) then Diff(xs[1..], ys)
        else Diff([Interval(y.hi, x.hi)] + xs[1..], ys[1..])
      else [x] + Diff(xs[1..], ys)
  }

  /** Every decree from lo up to hi is held. */
  predicate Covered(lo: DecreeId, hi: DecreeId, ys: seq<Interval>)
    decreases |ys|
  {
    || AtOrBefore(hi, lo)
    || (ys != [] && ys[0].lo == lo && Covered(ys[0].hi, hi, ys[1..]))
  }

  predicate Meets(x: Interval, ys: seq<Interval>) {
    exists j :: 0 <= j < |ys| && Before(x.lo, ys[j].hi) && Before(ys[j].lo, x.hi)
  }

  /**
   No branch of Diff goes wrong: an interval cut short at its right end is held
   from there on, and an interval passed over because the held one at hand ends
   before it meets no later held one.
   */
  predicate Exact(xs: seq<Interval>, ys: seq<Interval>)
    decreases |xs| + |ys|
  {
    if ys == [] || xs == [] then true
    else
      var x, y := xs[0], ys[0];
      if Before(x.lo, y.hi) && Before(y.lo, x.hi) then
        if Before(x.lo, y.lo) then Covered(y.hi, x.hi, ys[1..]) && Exact(xs[1..], ys)
        else if AtOrBefore(x.hi, y.hi) then Exact(xs[1..], ys)
        else Exact([Interval(y.hi, x.hi)] + xs[1..], ys[1..])
      else (Before(y.lo, x.hi) ==> !Meets(x, ys[1..])) && Exact(xs[1..], ys)
  }

  predicate RightAt(d: DecreeId, r: seq<Interval>, xs: seq<Interval>, ys: seq<Interval>) {
    Member(d, r) <==> Member(d, xs) && !Member(d, ys)
  }

  ghost predicate IsDifference(r: seq<Interval>, xs: seq<Interval>, ys: seq<Interval>) {
    forall d :: RightAt(d, r, xs, ys)
  }

  lemma OrderedTail(xs: seq<Interval>, d: DecreeId)
    requires Ordered(xs) && xs != []
    ensures Ordered(xs[1..])
    ensures Member(d, xs) <==> Within(d, xs[0]) || Member(d, xs[1..])
    ensures Member(d, xs[1..]) ==> AtOrBefore(xs[0].hi, d)
  {
    assert xs == [xs[0]] + xs[1..];
    MemberCons(d, xs[0], xs[1..]);
    if Member(d, xs[1..]) {
      var i :| 0 <= i < |xs[1..]| && Within(d, xs[1..][i]);
      assert xs[1..][i] == xs[i + 1];
    }
  }

  /** Nothing is asked for that was not advertised. */
  lemma {:induction false} DiffWithin(d: DecreeId, xs: seq<Interval>, ys: seq<Interval>)
    requires Ordered(xs) && Ordered(ys) && Member(d, Diff(xs, ys))
    ensures Member(d, xs)
    decreases |xs| + |ys|
  {
    if ys != [] && xs != [] {
      var x, y := xs[0], ys[0];
      OrderedTail(xs, d);
      OrderedTail(ys, d);
      if Before(x.lo, y.hi) && Before(y.lo, x.hi) && !Before(x.lo, y.lo) {
        if AtOrBefore(x.hi, y.hi) {
          DiffWithin(d, xs[1..], ys);
        } else {
          CutOrdered(d, xs, y.hi);
          DiffWithin(d, [Interval(y.hi, x.hi)] + xs[1..], ys[1..]);
        }
      } else {
        var head := if Before(x.lo, y.hi) && Before(y.lo, x.hi) then Interval(x.lo, y.lo) else x;
        MemberCons(d, head, Diff(xs[1..], ys));
        if !Within(d, head) { DiffWithin(d, xs[1..], ys); }
      }
    }
  }

  /** Cutting the first interval at c keeps the list ordered and its members from c on. */
  lemma CutOrdered(d: DecreeId, xs: seq<Interval>, c: DecreeId)
    requires Ordered(xs) && xs != [] && Before(xs[0].lo, c) && Before(c, xs[0].hi)
    ensures var cut := [Interval(c, xs[0].hi)] + xs[1..];
      && Ordered(cut)
      && (Member(d, cut) <==> Member(d, xs) && AtOrBefore(c, d))
  {
    OrderedTail(xs, d);
    MemberCons(d, Interval(c, xs[0].hi), xs[1..]);
  }

  // One lemma for each branch of Diff: when is the result right at d?

  lemma RightWhenShortened(d: DecreeId, xs: seq<Interval>, ys: seq<Interval>)
    requires Ordered(xs) && Ordered(ys) && xs != [] && ys != []
    requires Before(xs[0].lo, ys[0].hi) && Before(ys[0].lo, xs[0].hi) && Before(xs[0].lo, ys[0].lo)
    ensures RightAt(d, Diff(xs, ys), xs, ys) <==>
      && RightAt(d, Diff(xs[1..], ys), xs[1..], ys)
      && (AtOrBefore(ys[0].hi, d) && Before(d, xs[0].hi) ==> Member(d, ys[1..]))
  {
    OrderedTail(xs, d);
    OrderedTail(ys, d);
    MemberCons(d, Interval(xs[0].lo, ys[0].lo), Diff(xs[1..], ys));
    if Member(d, Diff(xs[1..], ys)) { DiffWithin(d, xs[1..], ys); }
  }

  lemma RightWhenHeld(d: DecreeId, xs: seq<Interval>, ys: seq<Interval>)
    requires Ordered(xs) && Ordered(ys) && xs != [] && ys != []
    requires AtOrBefore(ys[0].lo, xs[0].lo) && AtOrBefore(xs[0].hi, ys[0].hi)
    ensures RightAt(d, Diff(xs, ys), xs, ys) <==> RightAt(d, Diff(xs[1..], ys), xs[1..], ys)
  {
    OrderedTail(xs, d);
    OrderedTail(ys, d);
    if Member(d, Diff(xs[1..], ys)) { DiffWithin(d, xs[1..], ys); }
  }

  lemma RightWhenCut(d: DecreeId, xs: seq<Interval>, ys: seq<Interval>)
    requires Ordered(xs) && Ordered(ys) && xs != [] && ys != []
    requires Before(xs[0].lo, ys[0].hi) && AtOrBefore(ys[0].lo, xs[0].lo) && Before(ys[0].hi, xs[0].hi)
    ensures var cut := [Interval(ys[0].hi, xs[0].hi)] + xs[1..];
      Ordered(cut) && (RightAt(d, Diff(xs, ys), xs, ys) <==> RightAt(d, Diff(cut, ys[1..]), cut, ys[1..]))
  {
    var cut := [Interval(ys[0].hi, xs[0].hi)] + xs[1..];
    OrderedTail(xs, d);
    OrderedTail(ys, d);
    CutOrdered(d, xs, ys[0].hi);
    if Member(d, Diff(cut, ys[1..])) { DiffWithin(d, cut, ys[1..]); }
  }

  lemma RightWhenPassed(d: DecreeId, xs: seq<Interval>, ys: seq<Interval>)
    requires Ordered(xs) && Ordered(ys) && xs != [] && ys != []
    requires !(Before(xs[0].lo, ys[0].hi) && Before(ys[0].lo, xs[0].hi))
    ensures RightAt(d, Diff(xs, ys), xs, ys) <==>
      && RightAt(d, Diff(xs[1..], ys), xs[1..], ys)
      && (Before(ys[0].lo, xs[0].hi) ==> !(Within(d, xs[0]) && Member(d, ys[1..])))
  {
    OrderedTail(xs, d);
    OrderedTail(ys, d);
    MemberCons(d, xs[0], Diff(xs[1..], ys));
    if Member(d, Diff(xs[1..], ys)) { DiffWithin(d, xs[1..], ys); }
  }

  lemma {:induction false} CoveredExactly(lo: DecreeId, hi: DecreeId, ys: seq<Interval>)
    requires Ordered(ys) && (ys != [] ==> AtOrBefore(lo, ys[0].lo))
    ensures Covered(lo, hi, ys) <==> forall d :: AtOrBefore(lo, d) && Before(d, hi) ==> Member(d, ys)
    decreases |ys|
  {
    if !AtOrBefore(hi, lo) {
      assert AtOrBefore(lo, lo) && Before(lo, hi);
      if ys == [] {
        assert !Member(lo, ys);
      } else if ys[0].lo != lo {
        OrderedTail(ys, lo);
        assert !Member(lo, ys);
      } else {
        OrderedTail(ys, lo);
        CoveredExactly(ys[0].hi, hi, ys[1..]);
        forall d ensures Member(d, ys) <==> Within(d, ys[0]) || Member(d, ys[1..]) { OrderedTail(ys, d); }
        if forall d :: AtOrBefore(lo, d) && Before(d, hi) ==> Member(d, ys) {
          forall d | AtOrBefore(ys[0].hi, d) && Before(d, hi) ensures Member(d, ys[1..]) {
            assert Member(d, ys);
          }
        }
      }
    }
  }

  lemma MeetsExactly(x: Interval, ys: seq<Interval>)
    requires Ordered(ys) && Before(x.lo, x.hi)
    ensures Meets(x, ys) <==> exists d :: Within(d, x) && Member(d, ys)
  {
    if Meets(x, ys) {
      var j :| 0 <= j < |ys| && Before(x.lo, ys[j].hi) && Before(ys[j].lo, x.hi);
      var d := if Before(x.lo, ys[j].lo) then ys[j].lo else x.lo;
      assert Within(d, x) && Within(d, ys[j]);
    }
    if d :| Within(d, x) && Member(d, ys) {
      var j :| 0 <= j < |ys| && Within(d, ys[j]);
      assert Before(x.lo, ys[j].hi) && Before(ys[j].lo, x.hi);
    }
  }

  /**
   Diff asks for exactly the decrees that are advertised and not held, for all
   ordered interval lists on which no branch goes wrong, and for no others.
   */
  lemma {:induction false} DiffExactly(xs: seq<Interval>, ys: seq<Interval>)
    requires Ordered(xs) && Ordered(ys)
    ensures IsDifference(Diff(xs, ys), xs, ys) <==> Exact(xs, ys)
    decreases |xs| + |ys|
  {
    if ys == [] || xs == [] {
      assert forall d :: !Member(d, []);
    } else {
      var x, y := xs[0], ys[0];
      OrderedTail(xs, x.lo);
      OrderedTail(ys, y.lo);
      if Before(x.lo, y.hi) && Before(y.lo, x.hi) {
        if Before(x.lo, y.lo) {
          DiffExactlyShortened(xs, ys);
        } else if AtOrBefore(x.hi, y.hi) {
          DiffExactly(xs[1..], ys);
          forall d ensures RightAt(d, Diff(xs, ys), xs, ys) <==> RightAt(d, Diff(xs[1..], ys), xs[1..], ys) {
            RightWhenHeld(d, xs, ys);
          }
          BothOrNeither(Diff(xs, ys), xs, ys, Diff(xs[1..], ys), xs[1..], ys, _ => true);
        } else {
          DiffExactlyCut(xs, ys);
        }
      } else {
        DiffExactlyPassed(xs, ys);
      }
    }
  }

  lemma {:induction false} DiffExactlyCut(xs: seq<Interval>, ys: seq<Interval>)
    requires Ordered(xs) && Ordered(ys) && xs != [] && ys != []
    requires Before(xs[0].lo, ys[0].hi) && AtOrBefore(ys[0].lo, xs[0].lo) && Before(ys[0].hi, xs[0].hi)
    ensures IsDifference(Diff(xs, ys), xs, ys) <==> Exact(xs, ys)
    decreases |xs| + |ys|, 0
  {
    var cut := [Interval(ys[0].hi, xs[0].hi)] + xs[1..];
    RightWhenCut(xs[0].lo, xs, ys);
    OrderedTail(ys, ys[0].lo);
    DiffExactly(cut, ys[1..]);
    forall d ensures RightAt(d, Diff(xs, ys), xs, ys) <==> RightAt(d, Diff(cut, ys[1..]), cut, ys[1..]) {
      RightWhenCut(d, xs, ys);
    }
    BothOrNeither(Diff(xs, ys), xs, ys, Diff(cut, ys[1..]), cut, ys[1..], _ => true);
  }

  lemma {:induction false} DiffExactlyShortened(xs: seq<Interval>, ys: seq<Interval>)
    requires Ordered(xs) && Ordered(ys) && xs != [] && ys != []
    requires Before(xs[0].lo, ys[0].hi) && Before(ys[0].lo, xs[0].hi) && Before(xs[0].lo, ys[0].lo)
    ensures IsDifference(Diff(xs, ys), xs, ys) <==> Exact(xs, ys)
    decreases |xs| + |ys|, 0
  {
    var x, y := xs[0], ys[0];
    OrderedTail(xs, x.lo);
    OrderedTail(ys, y.lo);
    DiffExactly(xs[1..], ys);
    CoveredExactly(y.hi, x.hi, ys[1..]);
    forall d ensures RightAt(d, Diff(xs, ys), xs, ys) <==>
      RightAt(d, Diff(xs[1..], ys), xs[1..], ys) && (AtOrBefore(y.hi, d) && Before(d, x.hi) ==> Member(d, ys[1..]))
    {
      RightWhenShortened(d, xs, ys);
    }
    BothOrNeither(Diff(xs, ys), xs, ys, Diff(xs[1..], ys), xs[1..], ys,
                  d => AtOrBefore(y.hi, d) && Before(d, x.hi) ==> Member(d, ys[1..]));
  }

  lemma {:induction false} DiffExactlyPassed(xs: seq<Interval>, ys: seq<Interval>)
    requires Ordered(xs) && Ordered(ys) && xs != [] && ys != []
    requires !(Before(xs[0].lo, ys[0].hi) && Before(ys[0].lo, xs[0].hi))
    ensures IsDifference(Diff(xs, ys), xs, ys) <==> Exact(xs, ys)
    decreases |xs| + |ys|, 0
  {
    var x, y := xs[0], ys[0];
    OrderedTail(xs, x.lo);
    OrderedTail(ys, y.lo);
    DiffExactly(xs[1..], ys);
    MeetsExactly(x, ys[1..]);
    forall d ensures RightAt(d, Diff(xs, ys), xs, ys) <==>
      RightAt(d, Diff(xs[1..], ys), xs[1..], ys) && (Before(y.lo, x.hi) ==> !(Within(d, x) && Member(d, ys[1..])))
    {
      RightWhenPassed(d, xs, ys);
    }
    BothOrNeither(Diff(xs, ys), xs, ys, Diff(xs[1..], ys), xs[1..], ys,
                  d => Before(y.lo, x.hi) ==> !(Within(d, x) && Member(d, ys[1..])));
  }

  /** If being right at d splits into two parts for every d, being right everywhere does too. */
  lemma BothOrNeither(r: seq<Interval>, xs: seq<Interval>, ys: seq<Interval>,
                      r': seq<Interval>, xs': seq<Interval>, ys': seq<Interval>, extra: DecreeId -> bool)
    requires forall d :: RightAt(d, r, xs, ys) <==> RightAt(d, r', xs', ys') && extra(d)
    ensures IsDifference(r, xs, ys) <==> IsDifference(r', xs', ys') && forall d :: extra(d)
  {
    if IsDifference(r, xs, ys) {
      forall d ensures RightAt(d, r', xs', ys') && extra(d) { assert RightAt(d, r, xs, ys); }
    }
    if IsDifference(r', xs', ys') && forall d :: extra(d) {
      forall d ensures RightAt(d, r, xs, ys) { assert RightAt(d, r', xs', ys') && extra(d); }
    }
  }

  /**
   What goes wrong: an acceptor holding decrees 3 and 4 of an advertised 0 to 9
   never asks for 5 to 9, and one holding 0 to 1 and 5 to 7 asks for 5 to 7 again.
   */
  lemma DiffGoesWrong()
    ensures var ten, middle := [Interval(DecreeId(0, 0), DecreeId(0, 10))], [Interval(DecreeId(0, 3), DecreeId(0, 5))];
      Separated(ten) && Separated(middle) && !IsDifference(Diff(ten, middle), ten, middle)
    ensures
      var late := [Interval(DecreeId(0, 5), DecreeId(0, 8))];
      var both := [Interval(DecreeId(0, 0), DecreeId(0, 2)), Interval(DecreeId(0, 5), DecreeId(0, 8))];
      Separated(late) && Separated(both) && !IsDifference(Diff(late, both), late, both)
  {
    var ten, middle := [Interval(DecreeId(0, 0), DecreeId(0, 10))], [Interval(DecreeId(0, 3), DecreeId(0, 5))];
    DiffExactly(ten, middle);
    assert !Covered(DecreeId(0, 5), DecreeId(0, 10), middle[1..]);
    var late := [Interval(DecreeId(0, 5), DecreeId(0, 8))];
    var both := [Interval(DecreeId(0, 0), DecreeId(0, 2)), Interval(DecreeId(0, 5), DecreeId(0, 8))];
    DiffExactly(late, both);
    assert both[1..][0] == late[0];
    assert Meets(late[0], both[1..]);
  }

  // ---------------------------------------------------------------- asking for enough

  /** No branch of Diff misses anything: an interval cut short at its right end is held from there on. */
  predicate Enough(xs: seq<Interval>, ys: seq<Interval>)
    decreases |xs| + |ys|
  {
    if ys == [] || xs == [] then true
    else
      var x, y := xs[0], ys[0];
      if Before(x.lo, y.hi) && Before(y.lo, x.hi) then
        if Before(x.lo, y.lo) then Covered(y.hi, x.hi, ys[1..]) && Enough(xs[1..], ys)
        else if AtOrBefore(x.hi, y.hi) then Enough(xs[1..], ys)
        else Enough([Interval(y.hi, x.hi)] + xs[1..], ys[1..])
      else Enough(xs[1..], ys)
  }

  predicate EnoughAt(d: DecreeId, r: seq<Interval>, xs: seq<Interval>, ys: seq<Interval>) {
    Member(d, xs) ==> Member(d, ys) || Member(d, r)
  }

  /** Everything advertised is held or asked for. */
  ghost predicate MissesNothing(r: seq<Interval>, xs: seq<Interval>, ys: seq<Interval>) {
    forall d :: EnoughAt(d, r, xs, ys)
  }

  lemma EnoughWhenShortened(d: DecreeId, xs: seq<Interval>, ys: seq<Interval>)
    requires Ordered(xs) && Ordered(ys) && xs != [] && ys != []
    requires Before(xs[0].lo, ys[0].hi) && Before(ys[0].lo, xs[0].hi) && Before(xs[0].lo, ys[0].lo)
    ensures EnoughAt(d, Diff(xs, ys), xs, ys) <==>
      && EnoughAt(d, Diff(xs[1..], ys), xs[1..], ys)
      && (AtOrBefore(ys[0].hi, d) && Before(d, xs[0].hi) ==> Member(d, ys[1..]))
  {
    OrderedTail(xs, d);
    OrderedTail(ys, d);
    MemberCons(d, Interval(xs[0].lo, ys[0].lo), Diff(xs[1..], ys));
    if Member(d, Diff(xs[1..], ys)) { DiffWithin(d, xs[1..], ys); }
  }

  lemma EnoughWhenCut(d: DecreeId, xs: seq<Interval>, ys: seq<Interval>)
    requires Ordered(xs) && Ordered(ys) && xs != [] && ys != []
    requires Before(xs[0].lo, ys[0].hi) && AtOrBefore(ys[0].lo, xs[0].lo) && Before(ys[0].hi, xs[0].hi)
    ensures var cut := [Interval(ys[0].hi, xs[0].hi)] + xs[1..];
      Ordered(cut) && (EnoughAt(d, Diff(xs, ys), xs, ys) <==> EnoughAt(d, Diff(cut, ys[1..]), cut, ys[1..]))
  {
    var cut := [Interval(ys[0].hi, xs[0].hi)] + xs[1..];
    OrderedTail(xs, d);
    OrderedTail(ys, d);
    CutOrdered(d, xs, ys[0].hi);
    if Member(d, Diff(cut, ys[1..])) { DiffWithin(d, cut, ys[1..]); }
  }

  lemma EnoughWhenSkipped(d: DecreeId, xs: seq<Interval>, ys: seq<Interval>)
    requires Ordered(xs) && Ordered(ys) && xs != [] && ys != []
    requires (Before(xs[0].lo, ys[0].hi) && Before(ys[0].lo, xs[0].hi)) ==>
      AtOrBefore(ys[0].lo, xs[0].lo) && AtOrBefore(xs[0].hi, ys[0].hi)
    ensures EnoughAt(d, Diff(xs, ys), xs, ys) <==> EnoughAt(d, Diff(xs[1..], ys), xs[1..], ys)
  {
    OrderedTail(xs, d);
    OrderedTail(ys, d);
    MemberCons(d, xs[0], Diff(xs[1..], ys));
    if Member(d, Diff(xs[1..], ys)) { DiffWithin(d, xs[1..], ys); }
  }

  /** Diff asks for all that is advertised and not held exactly when no interval is cut short with something left over. */
  lemma {:induction false} EnoughExactly(xs: seq<Interval>, ys: seq<Interval>)
    requires Ordered(xs) && Ordered(ys)
    ensures MissesNothing(Diff(xs, ys), xs, ys) <==> Enough(xs, ys)
    decreases |xs| + |ys|
  {
    if ys == [] || xs == [] {
      assert forall d :: !Member(d, []);
    } else {
      var x, y := xs[0], ys[0];
      OrderedTail(xs, x.lo);
      OrderedTail(ys, y.lo);
      if Before(x.lo, y.hi) && Before(y.lo, x.hi) && Before(x.lo, y.lo) {
        EnoughExactlyShortened(xs, ys);
      } else if Before(x.lo, y.hi) && Before(y.lo, x.hi) && Before(y.hi, x.hi) {
        EnoughExactlyCut(xs, ys);
      } else {
        EnoughExactly(xs[1..], ys);
        forall d ensures EnoughAt(d, Diff(xs, ys), xs, ys) <==> EnoughAt(d, Diff(xs[1..], ys), xs[1..], ys) {
          EnoughWhenSkipped(d, xs, ys);
        }
      }
    }
  }

  lemma {:induction false} EnoughExactlyCut(xs: seq<Interval>, ys: seq<Interval>)
    requires Ordered(xs) && Ordered(ys) && xs != [] && ys != []
    requires Before(xs[0].lo, ys[0].hi) && AtOrBefore(ys[0].lo, xs[0].lo) && Before(ys[0].hi, xs[0].hi)
    ensures MissesNothing(Diff(xs, ys), xs, ys) <==> Enough(xs, ys)
    decreases |xs| + |ys|, 0
  {
    var cut := [Interval(ys[0].hi, xs[0].hi)] + xs[1..];
    EnoughWhenCut(xs[0].lo, xs, ys);
    OrderedTail(ys, ys[0].lo);
    EnoughExactly(cut, ys[1..]);
    forall d ensures EnoughAt(d, Diff(xs, ys), xs, ys) <==> EnoughAt(d, Diff(cut, ys[1..]), cut, ys[1..]) {
      EnoughWhenCut(d, xs, ys);
    }
  }

  lemma {:induction false} EnoughExactlyShortened(xs: seq<Interval>, ys: seq<Interval>)
    requires Ordered(xs) && Ordered(ys) && xs != [] && ys != []
    requires Before(xs[0].lo, ys[0].hi) && Before(ys[0].lo, xs[0].hi) && Before(xs[0].lo, ys[0].lo)
    ensures MissesNothing(Diff(xs, ys), xs, ys) <==> Enough(xs, ys)
    decreases |xs| + |ys|, 0
  {
    var x, y := xs[0], ys[0];
    OrderedTail(xs, x.lo);
    OrderedTail(ys, y.lo);
    EnoughExactly(xs[1..], ys);
    CoveredExactly(y.hi, x.hi, ys[1..]);
    forall d ensures EnoughAt(d, Diff(xs, ys), xs, ys) <==>
      EnoughAt(d, Diff(xs[1..], ys), xs[1..], ys) && (AtOrBefore(y.hi, d) && Before(d, x.hi) ==> Member(d, ys[1..]))
    {
      EnoughWhenShortened(d, xs, ys);
    }
    if MissesNothing(Diff(xs, ys), xs, ys) {
      forall d ensures EnoughAt(d, Diff(xs[1..], ys), xs[1..], ys) { assert EnoughAt(d, Diff(xs, ys), xs, ys); }
      forall d | AtOrBefore(y.hi, d) && Before(d, x.hi) ensures Member(d, ys[1..]) {
        assert EnoughAt(d, Diff(xs, ys), xs, ys);
      }
    }
    if MissesNothing(Diff(xs[1..], ys), xs[1..], ys) && Covered(y.hi, x.hi, ys[1..]) {
      forall d ensures EnoughAt(d, Diff(xs, ys), xs, ys) { assert EnoughAt(d, Diff(xs[1..], ys), xs[1..], ys); }
    }
  }

  /**
   Nothing is missed if no decree that is advertised and not held comes before
   one that is held: whoever asks knows a first part of what is advertised.
   */
  lemma {:induction false} PrefixIsEnough(xs: seq<Interval>, ys: seq<Interval>)
    requires Ordered(xs) && Ordered(ys)
    requires forall p, q :: Member(p, xs) && Member(q, ys) && Before(p, q) ==> Member(p, ys)
    ensures Enough(xs, ys)
    decreases |xs| + |ys|
  {
    if ys != [] && xs != [] {
      var x, y := xs[0], ys[0];
      OrderedTail(xs, x.lo);
      OrderedTail(ys, x.lo);
      OrderedTail(ys, y.lo);
      assert Within(x.lo, x) && Within(y.lo, y);
      if Before(x.lo, y.hi) && Before(y.lo, x.hi) && !Before(x.lo, y.lo) && Before(y.hi, x.hi) {
        var cut := [Interval(y.hi, x.hi)] + xs[1..];
        CutOrdered(x.lo, xs, y.hi);
        forall p, q | Member(p, cut) && Member(q, ys[1..]) && Before(p, q) ensures Member(p, ys[1..]) {
          CutOrdered(p, xs, y.hi);
          OrderedTail(ys, p);
          OrderedTail(ys, q);
          assert Member(p, xs) && Member(q, ys);
        }
        PrefixIsEnough(cut, ys[1..]);
      } else {
        forall p, q | Member(p, xs[1..]) && Member(q, ys) && Before(p, q) ensures Member(p, ys) {
          OrderedTail(xs, p);
          assert Member(p, xs);
        }
        PrefixIsEnough(xs[1..], ys);
      }
    }
  }
}
