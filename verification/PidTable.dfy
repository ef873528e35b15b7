/** The table of active pids the Promela model uses to recognise abandoned messages. */
module PidTable {

  /** The active pids, in table order, and the pid to try next. */
  datatype Table = Table(pids: seq<nat>, next: nat)

  predicate Distinct(pids: seq<nat>) {
    forall i, j :: 0 <= i < j < |pids| ==> pids[i] != pids[j]
  }

  /** c is the first pid from `next` on that is not active. */
  predicate FirstFree(t: Table, c: nat) {
    t.next <= c && c !in t.pids && forall b :: t.next <= b < c ==> b in t.pids
  }

  function WithNew(t: Table, c: nat): (r: Table) {
    Table(t.pids + [c], t.next + 1)
  }

  /** The last pid takes the place of the one that goes. */
  function Without(t: Table, i: nat): (r: Table)
    requires i < |t.pids|
  {
    t.(pids := t.pids[i := t.pids[|t.pids| - 1]][..|t.pids| - 1])
  }

  /** Pids lo to hi - 1 cannot all be active in a shorter table. */
  lemma {:induction false} Pigeonhole(pids: seq<nat>, lo: nat, hi: nat)
    requires lo <= hi && forall c :: lo <= c < hi ==> c in pids
    ensures hi - lo <= |pids|
    decreases hi - lo
  {
    if lo < hi {
      assert hi - 1 in pids;
      var i :| 0 <= i < |pids| && pids[i] == hi - 1;
      var rest := pids[..i] + pids[i + 1..];
      forall c | lo <= c < hi - 1 ensures c in rest {
        assert c in pids;
        var j :| 0 <= j < |pids| && pids[j] == c;
        assert j < i ==> rest[j] == c;
        assert j > i ==> rest[j - 1] == c;
      }
      Pigeonhole(rest, lo, hi - 1);
    }
  }

  lemma WithoutRemovesOne(t: Table, i: nat)
    requires i < |t.pids| && Distinct(t.pids)
    ensures Distinct(Without(t, i).pids)
    ensures forall c :: c in Without(t, i).pids <==> c in t.pids && c != t.pids[i]
  {
    var r := Without(t, i).pids;
    var last := |t.pids| - 1;
    forall c | c in t.pids && c != t.pids[i] ensures c in r {
      var j :| 0 <= j < |t.pids| && t.pids[j] == c;
      assert j < last ==> r[j] == c;
      assert j == last ==> r[i] == c;
    }
  }

  class Pids {
    const activePids: array<nat>
    var activePidLen: nat
    var nextActivePid: nat

    ghost predicate Valid()
      reads this, activePids
    {
      activePidLen <= activePids.Length && Distinct(activePids[..activePidLen])
    }

    ghost function Contents(): (t: Table)
      requires activePidLen <= activePids.Length
      reads this, activePids
    {
      Table(activePids[..activePidLen], nextActivePid)
    }

    constructor (capacity: nat)
      ensures Valid() && fresh(activePids) && activePids.Length == capacity && Contents() == Table([], 0)
    {
      activePids := new nat[capacity];
      activePidLen, nextActivePid := 0, 0;
    }

    /** The position of pid, or the number of active pids if it is not active. */
    method IsPidActive(pid: nat) returns (i: nat)
      requires Valid()
      ensures i <= activePidLen
      ensures i < activePidLen <==> pid in Contents().pids
      ensures i < activePidLen ==> activePids[i] == pid
    {
      i := 0;
      while i < activePidLen && pid != activePids[i]
        invariant i <= activePidLen
        invariant forall j :: 0 <= j < i ==> activePids[j] != pid
      {
        i := i + 1;
      }
    }

    /** Finds the first free pid and makes it active; the search takes at most one step more than there are active pids. */
    method GeneratePid() returns (child: nat)
      requires Valid() && activePidLen < activePids.Length
      modifies this, activePids
      ensures Valid() && FirstFree(old(Contents()), child) && Contents() == WithNew(old(Contents()), child)
      ensures child <= old(nextActivePid) + old(activePidLen)
      ensures forall c :: c in Contents().pids <==> c in old(Contents()).pids || c == child
      ensures activePidLen == old(activePidLen) + 1 && nextActivePid == old(nextActivePid) + 1
    {
      ghost var t := Contents();
      child := nextActivePid;
      nextActivePid := nextActivePid + 1;
      var i := IsPidActive(child);
      while i != activePidLen
        invariant activePidLen == |t.pids| < activePids.Length && nextActivePid == t.next + 1
        invariant activePids[..activePidLen] == t.pids
        invariant i <= activePidLen && (i < activePidLen <==> child in t.pids)
        invariant t.next <= child && forall b :: t.next <= b < child ==> b in t.pids
        decreases t.next + |t.pids| + 1 - child
      {
        Pigeonhole(t.pids, t.next, child + 1);
        child := child + 1;
        i := IsPidActive(child);
      }
      Pigeonhole(t.pids, t.next, child);
      activePids[activePidLen] := child;
      activePidLen := activePidLen + 1;
      assert activePids[..activePidLen] == t.pids + [child];
    }

    /** Reports a process as no longer active: exactly that pid goes. */
    method DisposePid(pid: nat)
      requires Valid()
      modifies this, activePids
      ensures Valid() && nextActivePid == old(nextActivePid)
      ensures forall c :: c in Contents().pids <==> c in old(Contents()).pids && c != pid
      ensures pid !in old(Contents()).pids ==> Contents() == old(Contents())
      ensures forall i :: 0 <= i < |old(Contents()).pids| && old(Contents()).pids[i] == pid ==>
        Contents() == Without(old(Contents()), i)
    {
      ghost var t := Contents();
      var i := IsPidActive(pid);
      if i < activePidLen {
        WithoutRemovesOne(t, i);
        activePids[i] := activePids[activePidLen - 1];
        activePidLen := activePidLen - 1;
        assert activePids[..activePidLen] == Without(t, i).pids;
      }
    }
  }

  // ---------------------------------------------------------------- whole histories

  datatype Op = Generate | Dispose(pid: nat)

  /** Applies one operation; a generated pid is the given one. */
  ghost predicate Does(t: Table, op: Op, child: nat, t': Table) {
    match op
    case Generate => FirstFree(t, child) && t' == WithNew(t, child)
    case Dispose(pid) =>
      if pid in t.pids then exists i :: 0 <= i < |t.pids| && t.pids[i] == pid && t' == Without(t, i)
      else t' == t
  }

  ghost predicate History(ts: seq<Table>, ops: seq<Op>, children: seq<nat>) {
    && |ts| == |ops| + 1 && |children| == |ops| && ts[0] == Table([], 0)
    && forall i :: 0 <= i < |ops| ==> Does(ts[i], ops[i], children[i], ts[i + 1])
  }

  function Generated(ops: seq<Op>): (k: nat) {
    if ops == [] then 0 else Generated(ops[..|ops| - 1]) + if ops[|ops| - 1].Generate? then 1 else 0
  }

  lemma NextIsFree(t: Table, c: nat)
    requires FirstFree(t, c) && forall b :: b in t.pids ==> b < t.next
    ensures c == t.next
  {
    assert t.next !in t.pids;
  }

  /** After any operations the table has no duplicates and all its pids lie below the next one. */
  lemma {:induction false} TableStaysBelow(ts: seq<Table>, ops: seq<Op>, children: seq<nat>, k: nat)
    requires History(ts, ops, children) && k <= |ops|
    ensures Distinct(ts[k].pids) && ts[k].next == Generated(ops[..k])
    ensures forall c :: c in ts[k].pids ==> c < ts[k].next
    decreases k
  {
    if k > 0 {
      TableStaysBelow(ts, ops, children, k - 1);
      assert Does(ts[k - 1], ops[k - 1], children[k - 1], ts[k]);
      assert ops[..k][..k - 1] == ops[..k - 1];
      if ops[k - 1].Dispose? && ops[k - 1].pid in ts[k - 1].pids {
        var i :| 0 <= i < |ts[k - 1].pids| && ts[k - 1].pids[i] == ops[k - 1].pid && ts[k] == Without(ts[k - 1], i);
        WithoutRemovesOne(ts[k - 1], i);
      } else if ops[k - 1].Generate? {
        NextIsFree(ts[k - 1], children[k - 1]);
      }
    }
  }

  /**
   In any history the search for a free pid never has to search: the k-th pid
   generated is k, so no pid is ever given out twice.
   */
  lemma PidsCountUp(ts: seq<Table>, ops: seq<Op>, children: seq<nat>, k: nat)
    requires History(ts, ops, children) && k < |ops| && ops[k].Generate?
    ensures children[k] == Generated(ops[..k])
  {
    TableStaysBelow(ts, ops, children, k);
    assert Does(ts[k], ops[k], children[k], ts[k + 1]);
    NextIsFree(ts[k], children[k]);
  }
}
