/** The single channel of the Promela model, tagged with destination pids, and its garbage collector. */
module Mailbox {

  datatype Kind = PREPARE | PROMISE | NACK | ACK | SYN
  datatype Envelope = Envelope(to: nat, kind: Kind, body: int)

  /** What a process sees: the messages addressed to it, in order. */
  function Seen(box: seq<Envelope>, pid: nat): (r: seq<Envelope>) {
    if box == [] then []
    else (if box[0].to == pid then [box[0]] else []) + Seen(box[1..], pid)
  }

  /** The messages addressed to active pids, in order. */
  function Kept(box: seq<Envelope>, active: set<nat>): (r: seq<Envelope>) {
    if box == [] then []
    else (if box[0].to in active then [box[0]] else []) + Kept(box[1..], active)
  }

  predicate Matches(e: Envelope, pid: nat, kind: Kind) {
    e.to == pid && e.kind == kind
  }

  predicate FirstMatch(box: seq<Envelope>, pid: nat, kind: Kind, i: nat)
    requires i < |box|
  {
    Matches(box[i], pid, kind) && forall j :: 0 <= j < i ==> !Matches(box[j], pid, kind)
  }

  /** Everything but the first message of the given kind. */
  function WithoutFirst(box: seq<Envelope>, pid: nat, kind: Kind): (r: seq<Envelope>) {
    if box == [] then []
    else if Matches(box[0], pid, kind) then box[1..]
    else [box[0]] + WithoutFirst(box[1..], pid, kind)
  }

  /** With no match before position i, the message that goes is the one at i, if it matches. */
  lemma {:induction false} WithoutFirstAt(box: seq<Envelope>, pid: nat, kind: Kind, i: nat)
    requires i <= |box| && forall j :: 0 <= j < i ==> !Matches(box[j], pid, kind)
    requires i < |box| ==> Matches(box[i], pid, kind)
    ensures WithoutFirst(box, pid, kind) == box[..i] + if i < |box| then box[i + 1..] else []
  {
    if i > 0 { WithoutFirstAt(box[1..], pid, kind, i - 1); }
  }

  lemma {:induction false} SeenAppend(a: seq<Envelope>, b: seq<Envelope>, pid: nat)
    ensures Seen(a + b, pid) == Seen(a, pid) + Seen(b, pid)
  {
    if a == [] {
      assert a + b == b;
    } else {
      assert (a + b)[1..] == a[1..] + b;
      SeenAppend(a[1..], b, pid);
      var h := if a[0].to == pid then [a[0]] else [];
      assert h + (Seen(a[1..], pid) + Seen(b, pid)) == (h + Seen(a[1..], pid)) + Seen(b, pid);
    }
  }

  lemma {:induction false} KeptAppend(a: seq<Envelope>, b: seq<Envelope>, active: set<nat>)
    ensures Kept(a + b, active) == Kept(a, active) + Kept(b, active)
  {
    if a == [] {
      assert a + b == b;
    } else {
      assert (a + b)[1..] == a[1..] + b;
      KeptAppend(a[1..], b, active);
      var h := if a[0].to in active then [a[0]] else [];
      assert h + (Kept(a[1..], active) + Kept(b, active)) == (h + Kept(a[1..], active)) + Kept(b, active);
    }
  }

  /** Sending adds to the end of one process's messages and touches nobody else's. */
  lemma SendIsLocal(box: seq<Envelope>, e: Envelope, pid: nat)
    ensures Seen(box + [e], pid) == if pid == e.to then Seen(box, pid) + [e] else Seen(box, pid)
  {
    SeenAppend(box, [e], pid);
    assert Seen([e][1..], pid) == [];
  }

  /** Receiving takes the first message of its kind from one process's messages and touches nobody else's. */
  lemma {:induction false} ReceiveIsLocal(box: seq<Envelope>, pid: nat, kind: Kind, other: nat)
    ensures Seen(WithoutFirst(box, pid, kind), other)
      == if other == pid then WithoutFirst(Seen(box, pid), pid, kind) else Seen(box, other)
  {
    if box != [] && !Matches(box[0], pid, kind) {
      var rest := WithoutFirst(box[1..], pid, kind);
      ReceiveIsLocal(box[1..], pid, kind, other);
      assert ([box[0]] + rest)[1..] == rest;
      if box[0].to != other {
        assert Seen(box, other) == Seen(box[1..], other);
      } else if other == pid {
        assert Seen(box, pid)[1..] == Seen(box[1..], pid);
      }
    } else if box != [] && other == pid {
      assert Seen(box, pid)[1..] == Seen(box[1..], pid);
    }
  }

  /** Collecting garbage changes no active process's messages and leaves the others none. */
  lemma {:induction false} CollectIsLocal(box: seq<Envelope>, active: set<nat>, pid: nat)
    ensures Seen(Kept(box, active), pid) == if pid in active then Seen(box, pid) else []
  {
    if box != [] {
      CollectIsLocal(box[1..], active, pid);
      var head := if box[0].to in active then [box[0]] else [];
      SeenAppend(head, Kept(box[1..], active), pid);
      assert Seen([box[0]][1..], pid) == [];
    }
  }

  predicate HasGarbage(box: seq<Envelope>, active: set<nat>) {
    exists i :: 0 <= i < |box| && box[i].to !in active
  }

  /** A pass drops something exactly when a message is for an inactive pid, keeps all otherwise, and leaves nothing to drop. */
  lemma {:induction false} KeptShrinks(box: seq<Envelope>, active: set<nat>)
    ensures |Kept(box, active)| <= |box|
    ensures |Kept(box, active)| < |box| <==> HasGarbage(box, active)
    ensures |Kept(box, active)| == |box| <==> Kept(box, active) == box
    ensures Kept(Kept(box, active), active) == Kept(box, active)
  {
    if box != [] {
      KeptShrinks(box[1..], active);
      var head := if box[0].to in active then [box[0]] else [];
      KeptAppend(head, Kept(box[1..], active), active);
      assert Kept([box[0]][1..], active) == [];
      assert box == [box[0]] + box[1..];
      GarbageTail(box, active);
    }
  }

  lemma GarbageTail(box: seq<Envelope>, active: set<nat>)
    requires box != []
    ensures HasGarbage(box, active) <==> box[0].to !in active || HasGarbage(box[1..], active)
  {
    if HasGarbage(box, active) && box[0].to in active {
      var i :| 0 <= i < |box| && box[i].to !in active;
      assert box[1..][i - 1] == box[i];
    }
    if HasGarbage(box[1..], active) {
      var i :| 0 <= i < |box[1..]| && box[1..][i].to !in active;
      assert box[i + 1] == box[1..][i];
    }
  }

  lemma KeptStep(all: seq<Envelope>, k: nat, active: set<nat>)
    requires k < |all|
    ensures Kept(all[..k + 1], active) == Kept(all[..k], active) + if all[k].to in active then [all[k]] else []
  {
    assert all[..k + 1] == all[..k] + [all[k]];
    KeptAppend(all[..k], [all[k]], active);
    assert Kept([all[k]][1..], active) == [];
  }

  /** Taking the message at position k from the front and putting it back if it is kept. */
  lemma PassStep(all: seq<Envelope>, k: nat, active: set<nat>)
    requires k < |all|
    ensures var box, kept := all[k..] + Kept(all[..k], active), if all[k].to in active then [all[k]] else [];
      && box[0] == all[k]
      && box[1..] + kept == all[k + 1..] + Kept(all[..k + 1], active)
      && |Kept(all[..k + 1], active)| == |Kept(all[..k], active)| + |kept|
  {
    KeptStep(all, k, active);
    assert all[k..][1..] == all[k + 1..];
  }

  // ---------------------------------------------------------------- one channel, many mailboxes

  datatype Op = Put(e: Envelope) | Take(pid: nat, kind: Kind) | Sweep(active: set<nat>)

  /** The channel after a sequence of sends, receives and collector passes. */
  function RunChannel(box: seq<Envelope>, ops: seq<Op>): (r: seq<Envelope>)
    decreases |ops|
  {
    if ops == [] then box else
      match ops[0]
      case Put(e) => RunChannel(box + [e], ops[1..])
      case Take(pid, kind) => RunChannel(WithoutFirst(box, pid, kind), ops[1..])
      case Sweep(active) => RunChannel(Kept(box, active), ops[1..])
  }

  /** A mailbox of one process's own under the same operations; a collector pass empties it unless the process is active. */
  function RunMailbox(own: seq<Envelope>, ops: seq<Op>, pid: nat): (r: seq<Envelope>)
    decreases |ops|
  {
    if ops == [] then own else
      match ops[0]
      case Put(e) => RunMailbox(if e.to == pid then own + [e] else own, ops[1..], pid)
      case Take(p, kind) => RunMailbox(if p == pid then WithoutFirst(own, pid, kind) else own, ops[1..], pid)
      case Sweep(active) => RunMailbox(if pid in active then own else [], ops[1..], pid)
  }

  /** The tagged channel is one mailbox per process, over every sequence of operations. */
  lemma {:induction false} ChannelIsMailboxes(box: seq<Envelope>, ops: seq<Op>, pid: nat)
    ensures Seen(RunChannel(box, ops), pid) == RunMailbox(Seen(box, pid), ops, pid)
    decreases |ops|
  {
    if ops != [] {
      match ops[0]
      case Put(e) =>
        SendIsLocal(box, e, pid);
        ChannelIsMailboxes(box + [e], ops[1..], pid);
      case Take(p, kind) =>
        ReceiveIsLocal(box, p, kind, pid);
        ChannelIsMailboxes(WithoutFirst(box, p, kind), ops[1..], pid);
      case Sweep(active) =>
        CollectIsLocal(box, active, pid);
        ChannelIsMailboxes(Kept(box, active), ops[1..], pid);
    }
  }

  class Channel {
    const capacity: nat
    var box: seq<Envelope>
    var garbageCollect: bool

    ghost predicate Valid()
      reads this
    {
      |box| <= capacity
    }

    constructor (capacity: nat)
      ensures Valid() && this.capacity == capacity && box == [] && !garbageCollect
    {
      this.capacity := capacity;
      box, garbageCollect := [], false;
    }

    method Send(e: Envelope)
      requires Valid() && |box| < capacity
      modifies this`box
      ensures Valid() && box == old(box) + [e]
    {
      box := box + [e];
    }

    /** Takes the first message of the given kind for pid, if there is one. */
    method Receive(pid: nat, kind: Kind) returns (found: bool, e: Envelope)
      requires Valid()
      modifies this`box
      ensures Valid() && box == WithoutFirst(old(box), pid, kind)
      ensures found <==> exists i :: 0 <= i < |old(box)| && Matches(old(box)[i], pid, kind)
      ensures found ==> exists i :: 0 <= i < |old(box)| && FirstMatch(old(box), pid, kind, i) && old(box)[i] == e
      ensures !found ==> box == old(box)
    {
      var i := 0;
      while i < |box| && !Matches(box[i], pid, kind)
        invariant 0 <= i <= |box|
        invariant forall j :: 0 <= j < i ==> !Matches(box[j], pid, kind)
      {
        i := i + 1;
      }
      found := i < |box|;
      e := if found then box[i] else Envelope(pid, kind, 0);
      WithoutFirstAt(box, pid, kind, i);
      if found { box := box[..i] + box[i + 1..]; }
    }

    /**
     One pass of the collector: every message is taken from the front and put
     back at the end if it is for an active pid. There is always room to put it
     back, and the flag is raised exactly when something was dropped.
     */
    method CollectOnce(active: set<nat>)
      requires Valid()
      modifies this
      ensures Valid() && box == Kept(old(box), active)
      ensures garbageCollect <==> |box| < |old(box)|
    {
      var i := |box|;
      garbageCollect := false;
      ghost var all := box;
      while i > 0
        invariant 0 <= i <= |all|
        invariant box == all[|all| - i..] + Kept(all[..|all| - i], active)
        invariant |Kept(all[..|all| - i], active)| <= |all| - i
        invariant garbageCollect <==> |Kept(all[..|all| - i], active)| < |all| - i
        invariant Valid()
      {
        PassStep(all, |all| - i, active);
        var e := box[0];
        box := box[1..];
        if e.to in active {
          assert |box| < capacity;
          box := box + [e];
        } else {
          garbageCollect := true;
        }
        i := i - 1;
      }
      assert all[..|all|] == all && all[|all|..] == [];
    }

    /** The collector process: it passes over the channel until a pass drops nothing or nothing is left. */
    method Collect(active: set<nat>) returns (passes: nat)
      requires Valid()
      modifies this
      ensures Valid() && passes <= 2
      ensures passes == 0 <==> !old(garbageCollect) || old(box) == []
      ensures box == if passes == 0 then old(box) else Kept(old(box), active)
      ensures garbageCollect ==> box == []
    {
      passes := 0;
      while garbageCollect && box != []
        invariant Valid() && passes <= 2
        invariant box == if passes == 0 then old(box) else Kept(old(box), active)
        invariant passes == 0 ==> garbageCollect == old(garbageCollect)
        invariant passes > 0 ==> old(garbageCollect) && old(box) != []
        invariant passes == 2 ==> !garbageCollect
        decreases 2 - passes
      {
        KeptShrinks(old(box), active);
        CollectOnce(active);
        passes := passes + 1;
      }
    }
  }
}
