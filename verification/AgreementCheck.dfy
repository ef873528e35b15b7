/** Two online checks that proposers agree: the table scan of the Promela model and the first-seen map of the random test. */
module AgreementCheck {
  import Ballots
  import M = PaxosModel
  import PaxosInvariant
  import PaxosSafety

  /** No value recorded yet. */
  const NONE: Cell := 255

  /** A Promela byte. */
  type Cell = x: int | 0 <= x <= 255

  /** Proposer `who` finished decree `d` with value `x`. */
  datatype Event = Event(who: nat, d: nat, x: nat)

  /** Any two values reported for one decree are equal. */
  predicate Consistent(h: seq<Event>) {
    forall i, j :: 0 <= i < |h| && 0 <= j < |h| && h[i].d == h[j].d ==> h[i].x == h[j].x
  }

  // ---------------------------------------------------------------- the table scan

  /** All recorded values of each decree are pairwise equal. */
  ghost predicate RowsAgree(pxs: array2<Cell>)
    reads pxs
  {
    RowsAgreeBelow(pxs, pxs.Length0)
  }

  ghost predicate RowsAgreeBelow(pxs: array2<Cell>, d: nat)
    requires d <= pxs.Length0
    reads pxs
  {
    forall c, a, b ::
      0 <= c < d && 0 <= a < b < pxs.Length1 && pxs[c, a] != NONE && pxs[c, b] != NONE ==> pxs[c, a] == pxs[c, b]
  }

  /** The values of decree d recorded before position j agree with every later one. */
  ghost predicate RowAgreesBelow(pxs: array2<Cell>, d: nat, j: nat)
    requires d < pxs.Length0 && j <= pxs.Length1
    reads pxs
  {
    forall a, b :: 0 <= a < j && a < b < pxs.Length1 && pxs[d, a] != NONE && pxs[d, b] != NONE ==> pxs[d, a] == pxs[d, b]
  }

  /** The inner loop: entry j against every later one. */
  method CheckEntry(pxs: array2<Cell>, d: nat, j: nat) returns (ok: bool)
    requires d < pxs.Length0 && j < pxs.Length1 && pxs[d, j] != NONE
    ensures ok <==> forall b :: j < b < pxs.Length1 && pxs[d, b] != NONE ==> pxs[d, j] == pxs[d, b]
  {
    var k := j + 1;
    ok := true;
    while k < pxs.Length1
      invariant j < k <= pxs.Length1
      invariant ok <==> forall b :: j < b < k && pxs[d, b] != NONE ==> pxs[d, j] == pxs[d, b]
    {
      ok := ok && (pxs[d, k] == NONE || pxs[d, j] == pxs[d, k]);
      k := k + 1;
    }
  }

  /** The middle loop: one decree. */
  method CheckRow(pxs: array2<Cell>, d: nat) returns (ok: bool)
    requires d < pxs.Length0
    ensures ok <==> RowAgreesBelow(pxs, d, pxs.Length1)
  {
    var j := 0;
    ok := true;
    while j < pxs.Length1
      invariant 0 <= j <= pxs.Length1
      invariant ok <==> RowAgreesBelow(pxs, d, j)
    {
      if pxs[d, j] != NONE {
        var fine := CheckEntry(pxs, d, j);
        ok := ok && fine;
      }
      j := j + 1;
    }
  }

  /** The triangular scan passes exactly when all recorded values of each decree are equal. */
  method CheckAgreement(pxs: array2<Cell>) returns (ok: bool)
    ensures ok <==> RowsAgree(pxs)
  {
    var d: nat := 0;
    ok := true;
    while d < pxs.Length0
      invariant 0 <= d <= pxs.Length0
      invariant ok <==> RowsAgreeBelow(pxs, d)
    {
      var fine := CheckRow(pxs, d);
      ok := ok && fine;
      d := d + 1;
    }
  }

  /** The table of the Promela model with the check made each time a proposer finishes. */
  class Recorder {
    const pxs: array2<Cell>
    ghost var history: seq<Event>

    /** The table holds each proposer's value for each decree it has finished, and nothing else. */
    ghost predicate Valid()
      reads this, pxs
    {
      && (forall d, j :: 0 <= d < pxs.Length0 && 0 <= j < pxs.Length1 && pxs[d, j] != NONE ==> Event(j, d, pxs[d, j]) in history)
      && (forall i :: 0 <= i < |history| ==> Fits(history[i]) && pxs[history[i].d, history[i].who] == history[i].x)
    }

    predicate Fits(e: Event) {
      e.d < pxs.Length0 && e.who < pxs.Length1 && e.x < NONE
    }

    constructor (decrees: nat, proposers: nat)
      ensures Valid() && fresh(pxs) && pxs.Length0 == decrees && pxs.Length1 == proposers && history == []
    {
      pxs := new Cell[decrees, proposers]((_, _) => NONE);
      history := [];
    }

    /** Records a result, unless the proposer has one for the decree already, and says whether the assertions hold. */
    method Finish(e: Event) returns (ok: bool)
      requires Valid() && Fits(e) && Consistent(history)
      modifies this, pxs
      ensures ok <==> Consistent(old(history) + [e])
      ensures ok ==> Valid() && history == old(history) + [e]
    {
      if pxs[e.d, e.who] == NONE {
        pxs[e.d, e.who] := e.x;
        ok := CheckAgreement(pxs);
        history := history + [e];
        assert Valid();
        RowsAgreeExactly();
      } else {
        ok := pxs[e.d, e.who] == e.x;
        ghost var seen := Event(e.who, e.d, pxs[e.d, e.who]);
        assert seen in history;
        ghost var i :| 0 <= i < |history| && history[i] == seen;
        ghost var h := history + [e];
        assert h[i] == seen && h[|history|] == e;
        if ok { history := h; }
      }
    }

    lemma RowsAgreeExactly()
      requires Valid()
      ensures RowsAgree(pxs) <==> Consistent(history)
    {
      if Consistent(history) {
        forall d, j, k | 0 <= d < pxs.Length0 && 0 <= j < k < pxs.Length1 && pxs[d, j] != NONE && pxs[d, k] != NONE
          ensures pxs[d, j] == pxs[d, k]
        {
          var a :| 0 <= a < |history| && history[a] == Event(j, d, pxs[d, j]);
          var b :| 0 <= b < |history| && history[b] == Event(k, d, pxs[d, k]);
        }
      }
      if RowsAgree(pxs) {
        forall a, b | 0 <= a < |history| && 0 <= b < |history| && history[a].d == history[b].d
          ensures history[a].x == history[b].x
        {
          assert Fits(history[a]) && Fits(history[b]);
        }
      }
    }
  }

  // ---------------------------------------------------------------- the first-seen map

  /** The map of the random test: the first value seen for each decree. */
  class FirstSeen {
    var pmap: map<nat, nat>
    ghost var history: seq<Event>

    ghost predicate Valid()
      reads this
    {
      && (forall i :: 0 <= i < |history| ==> history[i].d in pmap && pmap[history[i].d] == history[i].x)
      && (forall d :: d in pmap ==> exists who :: Event(who, d, pmap[d]) in history)
    }

    constructor ()
      ensures Valid() && history == []
    {
      pmap := map[];
      history := [];
    }

    /** Accepts a result exactly when it is consistent with all before it. */
    method Finish(e: Event) returns (ok: bool)
      requires Valid() && Consistent(history)
      modifies this
      ensures ok <==> Consistent(old(history) + [e])
      ensures ok ==> Valid() && history == old(history) + [e]
    {
      ghost var h := history + [e];
      if e.d in pmap {
        ok := pmap[e.d] == e.x;
        ghost var who :| Event(who, e.d, pmap[e.d]) in history;
        ghost var i :| 0 <= i < |history| && history[i] == Event(who, e.d, pmap[e.d]);
        assert h[i] == history[i] && h[|history|] == e;
      } else {
        pmap := pmap[e.d := e.x];
        ok := true;
        assert h[|history|] == e;
      }
      if ok {
        forall d | d in pmap ensures exists who :: Event(who, d, pmap[d]) in h {
          if d == e.d {
            assert Event(e.who, d, pmap[d]) in h;
          } else {
            var who :| Event(who, d, pmap[d]) in history;
            assert Event(who, d, pmap[d]) in h;
          }
        }
        history := h;
      }
    }
  }

  // ---------------------------------------------------------------- the same histories

  lemma PrefixConsistent(h: seq<Event>, k: nat)
    requires k <= |h| && Consistent(h)
    ensures Consistent(h[..k])
  {
  }

  /** Runs the table scan over a whole history, stopping where an assertion fails. */
  method ScanAll(h: seq<Event>, decrees: nat, proposers: nat) returns (ok: bool)
    requires forall e :: e in h ==> e.d < decrees && e.who < proposers && e.x < NONE
    ensures ok <==> Consistent(h)
  {
    var table := new Recorder(decrees, proposers);
    var k := 0;
    while k < |h|
      invariant 0 <= k <= |h| && table.Valid() && fresh(table) && fresh(table.pxs)
      invariant table.pxs.Length0 == decrees && table.pxs.Length1 == proposers
      invariant table.history == h[..k] && Consistent(h[..k])
    {
      assert h[..k] + [h[k]] == h[..k + 1];
      ok := table.Finish(h[k]);
      if !ok {
        if Consistent(h) { PrefixConsistent(h, k + 1); }
        return;
      }
      k := k + 1;
    }
    assert h[..|h|] == h;
    ok := true;
  }

  /** Runs the first-seen map over a whole history: it accepts exactly the histories the table scan accepts. */
  method LookAll(h: seq<Event>) returns (ok: bool)
    ensures ok <==> Consistent(h)
  {
    var seen := new FirstSeen();
    var k := 0;
    while k < |h|
      invariant 0 <= k <= |h| && seen.Valid() && fresh(seen)
      invariant seen.history == h[..k] && Consistent(h[..k])
    {
      assert h[..k] + [h[k]] == h[..k + 1];
      ok := seen.Finish(h[k]);
      if !ok {
        if Consistent(h) { PrefixConsistent(h, k + 1); }
        return;
      }
      k := k + 1;
    }
    assert h[..|h|] == h;
    ok := true;
  }

  /** The result is one that a proposal of the run returned. */
  ghost predicate Reports(s: M.State, e: Event) {
    exists q: M.Decision :: q in s.decided && q.d == Ballots.DecreeId(0, e.d) && q.x == e.x
  }

  /** Neither check ever fails on results of a clean run, however many proposers report them and in whatever order. */
  lemma ChecksNeverFail(n: nat, steps: seq<M.Step>, h: seq<Event>)
    requires M.Runs(M.Init(n), steps) && PaxosInvariant.CleanRun(M.Init(n), steps)
    requires forall i :: 0 <= i < |h| ==> Reports(M.Final(M.Init(n), steps), h[i])
    ensures Consistent(h)
  {
    PaxosSafety.CleanRunsAgree(n, steps);
    ReportsAgree(M.Final(M.Init(n), steps), h);
  }

  lemma ReportsAgree(s: M.State, h: seq<Event>)
    requires M.Agreement(s) && forall i :: 0 <= i < |h| ==> Reports(s, h[i])
    ensures Consistent(h)
  {
    forall i, j | 0 <= i < |h| && 0 <= j < |h| && h[i].d == h[j].d ensures h[i].x == h[j].x {
      assert Reports(s, h[i]) && Reports(s, h[j]);
    }
  }
}
