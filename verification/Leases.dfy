/**
 Leases that acceptors keep in memory only. A replica counts its lease from the
 moment it submitted the request; an acceptor counts its grant from the moment
 it granted, and after a restart answers no request until it has been silent
 for a while. All clocks run at the same rate.
 */
module Leases {
  import opened Ballots

  /** `period` is what a holder relies on, `hold` how long a grant binds an acceptor, `silent` how long a restart silences it. */
  datatype Config = Config(n: nat, period: nat, hold: nat, silent: nat)

  datatype Request = Request(replica: nat, submitted: nat)
  datatype Grant = NoGrant | Grant(request: nat, at: nat)
  datatype Keeper = Keeper(readyAt: nat, grant: Grant)

  /** `granted` is the history of all grants, by acceptor, request and time. */
  datatype LeaseState = LeaseState(now: nat, keepers: seq<Keeper>, requests: seq<Request>, granted: set<(nat, nat, nat)>)

  datatype LeaseStep = Wait(dt: nat) | Submit(replica: nat) | Answer(a: nat, request: nat) | Restart(a: nat)

  function LeaseInit(c: Config): (s: LeaseState) {
    LeaseState(0, seq(c.n, _ => Keeper(c.silent, NoGrant)), [], {})
  }

  /** Acceptor a has no lease in force, or one of the same replica. */
  predicate MayGrant(c: Config, s: LeaseState, a: nat, request: nat)
    requires a < |s.keepers| && request < |s.requests|
  {
    var k := s.keepers[a];
    && k.readyAt <= s.now
    && (k.grant.Grant? && s.now < k.grant.at + c.hold ==>
          k.grant.request < |s.requests| && s.requests[k.grant.request].replica == s.requests[request].replica)
  }

  predicate CanStep(c: Config, s: LeaseState, step: LeaseStep) {
    match step
    case Wait(_) => true
    case Submit(_) => true
    case Answer(a, request) => a < |s.keepers| && request < |s.requests| && MayGrant(c, s, a, request)
    case Restart(a) => a < |s.keepers|
  }

  function LeaseNext(c: Config, s: LeaseState, step: LeaseStep): (t: LeaseState)
    requires CanStep(c, s, step)
  {
    match step
    case Wait(dt) => s.(now := s.now + dt)
    case Submit(replica) => s.(requests := s.requests + [Request(replica, s.now)])
    case Answer(a, request) =>
      s.(keepers := s.keepers[a := s.keepers[a].(grant := Grant(request, s.now))],
         granted := s.granted + {(a, request, s.now)})
    case Restart(a) => s.(keepers := s.keepers[a := Keeper(s.now + c.silent, NoGrant)])
  }

  ghost predicate LeaseRuns(c: Config, s: LeaseState, steps: seq<LeaseStep>)
    decreases |steps|
  {
    steps == [] || (CanStep(c, s, steps[0]) && LeaseRuns(c, LeaseNext(c, s, steps[0]), steps[1..]))
  }

  ghost function LeaseFinal(c: Config, s: LeaseState, steps: seq<LeaseStep>): (t: LeaseState)
    requires LeaseRuns(c, s, steps)
    decreases |steps|
  {
    if steps == [] then s else LeaseFinal(c, LeaseNext(c, s, steps[0]), steps[1..])
  }

  /** The acceptors that have granted a request. */
  ghost function Granters(s: LeaseState, request: nat): (r: set<nat>) {
    set g | g in s.granted && g.1 == request && g.0 < |s.keepers| :: g.0
  }

  /** At this instant the replica that submitted the request believes it holds the lease. */
  ghost predicate Holds(c: Config, s: LeaseState, request: nat) {
    && request < |s.requests|
    && s.now < s.requests[request].submitted + c.period
    && |Granters(s, request)| >= Quorum(|s.keepers|)
  }

  ghost predicate Exclusive(c: Config, s: LeaseState) {
    forall i: nat, j: nat :: Holds(c, s, i) && Holds(c, s, j) ==> s.requests[i].replica == s.requests[j].replica
  }

  // ---------------------------------------------------------------- enough silence

  predicate Replica(s: LeaseState, request: nat, replica: nat) {
    request < |s.requests| && s.requests[request].replica == replica
  }

  /** A grant binds its acceptor: it has run out, or silence covers it, or a later grant to the same replica does. */
  ghost predicate Bound(c: Config, s: LeaseState, a: nat, request: nat, at: nat) {
    && a < |s.keepers| && request < |s.requests|
    && s.requests[request].submitted <= at <= s.now
    && var k := s.keepers[a];
       || at + c.period <= s.now
       || at + c.period <= k.readyAt
       || (&& k.grant.Grant? && at <= k.grant.at <= s.now
           && Replica(s, k.grant.request, s.requests[request].replica))
  }

  ghost predicate Apart(c: Config, s: LeaseState) {
    forall a, i, j, t, u :: (a, i, t) in s.granted && (a, j, u) in s.granted && i < |s.requests| && j < |s.requests| ==>
      s.requests[i].replica == s.requests[j].replica || t + c.period <= u || u + c.period <= t
  }

  ghost predicate LeaseInv(c: Config, s: LeaseState) {
    && |s.keepers| == c.n
    && (forall i :: 0 <= i < |s.requests| ==> s.requests[i].submitted <= s.now)
    && (forall a, i, t :: (a, i, t) in s.granted ==> Bound(c, s, a, i, t))
    && Apart(c, s)
  }

  lemma LeaseStepKeeps(c: Config, s: LeaseState, step: LeaseStep)
    requires c.period <= c.hold && c.period <= c.silent
    requires LeaseInv(c, s) && CanStep(c, s, step)
    ensures LeaseInv(c, LeaseNext(c, s, step))
  {
    var t := LeaseNext(c, s, step);
    forall a, i, u | (a, i, u) in t.granted ensures Bound(c, t, a, i, u) {
      assert (a, i, u) in s.granted ==> Bound(c, s, a, i, u);
    }
    forall a, i, j, u, w | (a, i, u) in t.granted && (a, j, w) in t.granted && i < |t.requests| && j < |t.requests|
      ensures t.requests[i].replica == t.requests[j].replica || u + c.period <= w || w + c.period <= u
    {
      assert (a, i, u) in s.granted ==> Bound(c, s, a, i, u);
      assert (a, j, w) in s.granted ==> Bound(c, s, a, j, w);
    }
  }

  lemma {:induction false} LeaseRunKeeps(c: Config, s: LeaseState, steps: seq<LeaseStep>)
    requires c.period <= c.hold && c.period <= c.silent
    requires LeaseInv(c, s) && LeaseRuns(c, s, steps)
    ensures LeaseInv(c, LeaseFinal(c, s, steps))
    decreases |steps|
  {
    if steps != [] {
      LeaseStepKeeps(c, s, steps[0]);
      LeaseRunKeeps(c, LeaseNext(c, s, steps[0]), steps[1..]);
    }
  }

  /** Two holders share an acceptor; its two grants are a period apart, so the earlier lease is over. */
  lemma InvIsExclusive(c: Config, s: LeaseState)
    requires LeaseInv(c, s)
    ensures Exclusive(c, s)
  {
    forall i: nat, j: nat | Holds(c, s, i) && Holds(c, s, j) ensures s.requests[i].replica == s.requests[j].replica {
      var a := SetsMeet(c.n, Granters(s, i), Granters(s, j));
      var g :| g in s.granted && g.1 == i && g.0 == a;
      var h :| h in s.granted && h.1 == j && h.0 == a;
      var t, u := g.2, h.2;
      assert g == (a, i, t) && h == (a, j, u);
      assert Bound(c, s, a, i, t) && Bound(c, s, a, j, u);
    }
  }

  // ---------------------------------------------------------------- too little

  ghost predicate LeaseReaches(c: Config, s: LeaseState, t: LeaseState) {
    exists steps :: LeaseRuns(c, s, steps) && LeaseFinal(c, s, steps) == t
  }

  lemma {:induction false} LeaseCompose(c: Config, s: LeaseState, xs: seq<LeaseStep>, ys: seq<LeaseStep>)
    requires LeaseRuns(c, s, xs) && LeaseRuns(c, LeaseFinal(c, s, xs), ys)
    ensures LeaseRuns(c, s, xs + ys) && LeaseFinal(c, s, xs + ys) == LeaseFinal(c, LeaseFinal(c, s, xs), ys)
    decreases |xs|
  {
    if xs == [] {
      assert xs + ys == ys;
    } else {
      LeaseCompose(c, LeaseNext(c, s, xs[0]), xs[1..], ys);
      assert (xs + ys)[1..] == xs[1..] + ys;
    }
  }

  lemma LeaseExtend(c: Config, s: LeaseState, t: LeaseState, step: LeaseStep)
    requires LeaseReaches(c, s, t) && CanStep(c, t, step)
    ensures LeaseReaches(c, s, LeaseNext(c, t, step))
  {
    var xs :| LeaseRuns(c, s, xs) && LeaseFinal(c, s, xs) == t;
    var ys := [step];
    assert LeaseRuns(c, LeaseNext(c, t, step), ys[1..]);
    assert LeaseRuns(c, t, ys) && LeaseFinal(c, t, ys) == LeaseNext(c, t, step);
    LeaseCompose(c, s, xs, ys);
  }

  /** The first k acceptors have granted the request at this instant. */
  ghost predicate GrantedBy(s: LeaseState, request: nat, k: nat) {
    forall a :: 0 <= a < k ==> (a, request, s.now) in s.granted
  }

  /** The first k acceptors grant the last request. */
  lemma {:induction false} GrantRange(c: Config, s0: LeaseState, s: LeaseState, request: nat, k: nat) returns (t: LeaseState)
    requires LeaseReaches(c, s0, s) && k <= |s.keepers| && request < |s.requests|
    requires forall a :: 0 <= a < k ==> MayGrant(c, s, a, request)
    ensures LeaseReaches(c, s0, t) && |t.keepers| == |s.keepers|
    ensures t.now == s.now && t.requests == s.requests && s.granted <= t.granted && GrantedBy(t, request, k)
    ensures forall a :: 0 <= a < |s.keepers| ==>
      t.keepers[a] == if a < k then s.keepers[a].(grant := Grant(request, s.now)) else s.keepers[a]
  {
    if k == 0 {
      t := s;
    } else {
      var u := GrantRange(c, s0, s, request, k - 1);
      assert MayGrant(c, s, k - 1, request);
      t := LeaseNext(c, u, Answer(k - 1, request));
      LeaseExtend(c, s0, u, Answer(k - 1, request));
    }
  }

  lemma {:induction false} RestartRange(c: Config, s0: LeaseState, s: LeaseState, k: nat) returns (t: LeaseState)
    requires LeaseReaches(c, s0, s) && k <= |s.keepers|
    ensures LeaseReaches(c, s0, t) && |t.keepers| == |s.keepers|
    ensures t.now == s.now && t.requests == s.requests && t.granted == s.granted
    ensures forall a :: 0 <= a < |s.keepers| ==>
      t.keepers[a] == if a < k then Keeper(s.now + c.silent, NoGrant) else s.keepers[a]
  {
    if k == 0 {
      t := s;
    } else {
      var u := RestartRange(c, s0, s, k - 1);
      t := LeaseNext(c, u, Restart(k - 1));
      LeaseExtend(c, s0, u, Restart(k - 1));
    }
  }

  /** Replica 0 has just been granted the lease by everybody, at the instant it asked. */
  ghost predicate FirstLease(c: Config, s: LeaseState) {
    && |s.keepers| == c.n && s.requests == [Request(0, s.now)] && GrantedBy(s, 0, c.n)
    && forall a :: 0 <= a < c.n ==> s.keepers[a] == Keeper(c.silent, Grant(0, s.now)) && c.silent <= s.now
  }

  lemma GrantFirst(c: Config) returns (t: LeaseState)
    ensures LeaseReaches(c, LeaseInit(c), t) && FirstLease(c, t) && t.now == c.silent
  {
    var s := LeaseInit(c);
    assert LeaseRuns(c, s, []) && LeaseFinal(c, s, []) == s;
    LeaseExtend(c, s, s, Wait(c.silent));
    var s1 := LeaseNext(c, s, Wait(c.silent));
    LeaseExtend(c, s, s1, Submit(0));
    var s2 := LeaseNext(c, s1, Submit(0));
    t := GrantRange(c, s, s2, 0, c.n);
  }

  /** Everybody is free again before the first lease is over: a second replica gets it too. */
  lemma GrantSecond(c: Config, s: LeaseState) returns (t: LeaseState)
    requires LeaseReaches(c, LeaseInit(c), s) && |s.keepers| == c.n >= 1 && |s.requests| == 1 && s.requests[0].replica == 0
    requires s.requests[0].submitted <= s.now < s.requests[0].submitted + c.period
    requires forall a :: 0 <= a < c.n ==> (a, 0, s.requests[0].submitted) in s.granted
    requires forall a :: 0 <= a < c.n ==>
      s.keepers[a].readyAt <= s.now && (s.keepers[a].grant.Grant? ==> s.keepers[a].grant.at + c.hold <= s.now)
    ensures LeaseReaches(c, LeaseInit(c), t) && !Exclusive(c, t)
  {
    LeaseExtend(c, LeaseInit(c), s, Submit(1));
    var s1 := LeaseNext(c, s, Submit(1));
    t := GrantRange(c, LeaseInit(c), s1, 1, c.n);
    EverybodyGranted(c, t, 0, s.requests[0].submitted);
    EverybodyGranted(c, t, 1, t.now);
    assert Holds(c, t, 0) && Holds(c, t, 1);
  }

  lemma EverybodyGranted(c: Config, s: LeaseState, request: nat, at: nat)
    requires |s.keepers| == c.n >= 1 && forall a :: 0 <= a < c.n ==> (a, request, at) in s.granted
    ensures |Granters(s, request)| >= Quorum(|s.keepers|)
  {
    forall a | a in Below(c.n) ensures a in Granters(s, request) { assert (a, request, at) in s.granted; }
    SubsetSize(Below(c.n), Granters(s, request));
  }

  lemma ShortHoldFails(c: Config) returns (t: LeaseState)
    requires c.n >= 1 && c.hold < c.period
    ensures LeaseReaches(c, LeaseInit(c), t) && !Exclusive(c, t)
  {
    var s := GrantFirst(c);
    LeaseExtend(c, LeaseInit(c), s, Wait(c.hold));
    t := GrantSecond(c, LeaseNext(c, s, Wait(c.hold)));
  }

  lemma ShortSilenceFails(c: Config) returns (t: LeaseState)
    requires c.n >= 1 && c.silent < c.period
    ensures LeaseReaches(c, LeaseInit(c), t) && !Exclusive(c, t)
  {
    var s := GrantFirst(c);
    var s1 := RestartRange(c, LeaseInit(c), s, c.n);
    LeaseExtend(c, LeaseInit(c), s1, Wait(c.silent));
    t := GrantSecond(c, LeaseNext(c, s1, Wait(c.silent)));
  }

  ghost predicate AlwaysExclusive(c: Config) {
    forall steps :: LeaseRuns(c, LeaseInit(c), steps) ==> Exclusive(c, LeaseFinal(c, LeaseInit(c), steps))
  }

  /**
   At no instant of any run do two replicas hold the lease, exactly when grants
   bind and restarts silence an acceptor for at least a full period (or there is
   nobody to grant).
   */
  lemma LeaseExactly(c: Config)
    ensures AlwaysExclusive(c) <==> c.n == 0 || (c.period <= c.hold && c.period <= c.silent)
  {
    if c.period <= c.hold && c.period <= c.silent {
      forall steps | LeaseRuns(c, LeaseInit(c), steps) ensures Exclusive(c, LeaseFinal(c, LeaseInit(c), steps)) {
        LeaseRunKeeps(c, LeaseInit(c), steps);
        InvIsExclusive(c, LeaseFinal(c, LeaseInit(c), steps));
      }
    } else if c.n == 0 {
      forall steps | LeaseRuns(c, LeaseInit(c), steps) ensures Exclusive(c, LeaseFinal(c, LeaseInit(c), steps)) {
        NobodyGrants(c, LeaseInit(c), steps);
      }
    } else {
      var t := LeaseInit(c);
      if c.hold < c.period { t := ShortHoldFails(c); } else { t := ShortSilenceFails(c); }
      var steps :| LeaseRuns(c, LeaseInit(c), steps) && LeaseFinal(c, LeaseInit(c), steps) == t;
    }
  }

  lemma {:induction false} NobodyGrants(c: Config, s: LeaseState, steps: seq<LeaseStep>)
    requires s.keepers == [] && s.granted == {} && LeaseRuns(c, s, steps)
    ensures Exclusive(c, LeaseFinal(c, s, steps))
    decreases |steps|
  {
    if steps == [] {
      forall i: nat ensures !Holds(c, s, i) { assert Granters(s, i) == {}; }
    } else {
      NobodyGrants(c, LeaseNext(c, s, steps[0]), steps[1..]);
    }
  }

  // ---------------------------------------------------------------- what an acceptor grants, told from the steps alone

  function Clock(steps: seq<LeaseStep>): (now: nat) {
    if steps == [] then 0
    else
      var last := steps[|steps| - 1];
      Clock(steps[..|steps| - 1]) + if last.Wait? then last.dt else 0
  }

  /** When acceptor a last went live. */
  function LiveSince(steps: seq<LeaseStep>, a: nat): (t: nat) {
    if steps == [] then 0
    else if steps[|steps| - 1] == Restart(a) then Clock(steps[..|steps| - 1])
    else LiveSince(steps[..|steps| - 1], a)
  }

  /** The last lease acceptor a has granted since it went live. */
  function LastGrant(steps: seq<LeaseStep>, a: nat): (g: Grant) {
    if steps == [] then NoGrant
    else
      var front, last := steps[..|steps| - 1], steps[|steps| - 1];
      if last == Restart(a) then NoGrant
      else if last.Answer? && last.a == a then Grant(last.request, Clock(front))
      else LastGrant(front, a)
  }

  /** The requests made, each with the time it was submitted. */
  function Submitted(steps: seq<LeaseStep>): (rs: seq<Request>) {
    if steps == [] then []
    else
      var front, last := steps[..|steps| - 1], steps[|steps| - 1];
      if last.Submit? then Submitted(front) + [Request(last.replica, Clock(front))] else Submitted(front)
  }

  lemma {:induction false} LastLeaseStep(c: Config, s: LeaseState, steps: seq<LeaseStep>)
    requires LeaseRuns(c, s, steps) && steps != []
    ensures var front := steps[..|steps| - 1];
      && LeaseRuns(c, s, front) && CanStep(c, LeaseFinal(c, s, front), steps[|steps| - 1])
      && LeaseFinal(c, s, steps) == LeaseNext(c, LeaseFinal(c, s, front), steps[|steps| - 1])
    decreases |steps|
  {
    var front := steps[..|steps| - 1];
    if |steps| == 1 {
      assert front == [] && LeaseRuns(c, LeaseNext(c, s, steps[0]), steps[1..]);
    } else {
      LastLeaseStep(c, LeaseNext(c, s, steps[0]), steps[1..]);
      assert front[0] == steps[0] && front[1..] == steps[1..][..|steps| - 2];
    }
  }

  lemma {:induction false} KeeperHistory(c: Config, steps: seq<LeaseStep>, a: nat)
    requires LeaseRuns(c, LeaseInit(c), steps) && a < c.n
    ensures var s := LeaseFinal(c, LeaseInit(c), steps);
      && |s.keepers| == c.n && s.now == Clock(steps) && s.requests == Submitted(steps)
      && s.keepers[a] == Keeper(LiveSince(steps, a) + c.silent, LastGrant(steps, a))
      && (LastGrant(steps, a).Grant? ==> LastGrant(steps, a).request < |s.requests|)
    decreases |steps|
  {
    if steps != [] {
      LastLeaseStep(c, LeaseInit(c), steps);
      KeeperHistory(c, steps[..|steps| - 1], a);
    }
  }

  /**
   In every run an acceptor can grant a request exactly when it has been silent
   for long enough since it went live, and the last lease it granted since then is
   over or belongs to the same replica, which may thus renew it before it ends.
   */
  lemma GrantsExactly(c: Config, steps: seq<LeaseStep>, a: nat, request: nat)
    requires LeaseRuns(c, LeaseInit(c), steps) && a < c.n
    ensures var now, rs, last := Clock(steps), Submitted(steps), LastGrant(steps, a);
      CanStep(c, LeaseFinal(c, LeaseInit(c), steps), Answer(a, request)) <==>
        && request < |rs| && LiveSince(steps, a) + c.silent <= now
        && (last.NoGrant? || last.at + c.hold <= now
            || (last.request < |rs| && rs[last.request].replica == rs[request].replica))
  {
    KeeperHistory(c, steps, a);
  }
}
