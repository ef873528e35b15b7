/**
 Long stretches of a run, for a group of any size: a range of acceptors takes
 its turn, or a proposer hears from a whole majority.
 */
module PaxosMoves {
  import opened Ballots
  import opened PaxosModel
  import opened PaxosInvariant
  import opened PaxosRounds

  /** Which of the three unclean kinds of step a run may take; a group of two may meet the first in a clean run. */
  datatype Mode = Mode(reuse: bool, forget: bool, interrupt: bool)

  const CLEAN := Mode(false, false, false)
  const REUSE := Mode(true, false, false)
  const FORGET := Mode(false, true, false)
  const INTERRUPT := Mode(false, false, true)

  predicate Allowed(s: State, step: Step, mode: Mode) {
    && (ReusesBallot(s, step) ==> mode.reuse)
    && (ForgetsPromise(s, step) ==> mode.forget)
    && (ForgetsSyn(s, step) ==> mode.interrupt)
  }

  ghost predicate AllAllowed(s: State, steps: seq<Step>, mode: Mode)
    requires Runs(s, steps)
    decreases |steps|
  {
    steps == [] || (Allowed(s, steps[0], mode) && AllAllowed(Next(s, steps[0]), steps[1..], mode))
  }

  /** A relation on states that holds along every step and can be chained. */
  ghost predicate Closed(r: (State, State) -> bool, mode: Mode) {
    && (forall s :: r(s, s))
    && (forall s, t, u :: r(s, t) && r(t, u) ==> r(s, u))
    && (forall s, step :: Enabled(s, step) && Allowed(s, step, mode) ==> r(s, Next(s, step)))
  }

  /**
   Some run of allowed steps leads from s to t. This is the least closed relation; ReachesByRun gives the run.
   */
  ghost predicate Reaches(s: State, t: State, mode: Mode) {
    forall r: (State, State) -> bool :: Closed(r, mode) ==> r(s, t)
  }

  lemma RunsUnfold(s: State, zs: seq<Step>)
    requires zs != [] && Enabled(s, zs[0]) && Runs(Next(s, zs[0]), zs[1..])
    ensures Runs(s, zs) && Final(s, zs) == Final(Next(s, zs[0]), zs[1..])
  {
  }

  lemma {:induction false} AllowedCompose(s: State, xs: seq<Step>, ys: seq<Step>, mode: Mode)
    requires Runs(s, xs) && AllAllowed(s, xs, mode) && Runs(Final(s, xs), ys) && AllAllowed(Final(s, xs), ys, mode)
    ensures Runs(s, xs + ys) && Final(s, xs + ys) == Final(Final(s, xs), ys) && AllAllowed(s, xs + ys, mode)
    decreases |xs|
  {
    if xs == [] {
      assert xs + ys == ys;
    } else {
      var zs := xs + ys;
      assert zs[0] == xs[0] && zs[1..] == xs[1..] + ys;
      AllowedCompose(Next(s, xs[0]), xs[1..], ys, mode);
      RunsUnfold(s, zs);
    }
  }

  ghost predicate HasRun(s: State, t: State, mode: Mode) {
    exists steps :: Runs(s, steps) && Final(s, steps) == t && AllAllowed(s, steps, mode)
  }

  lemma HasRunComposes(s: State, t: State, u: State, mode: Mode)
    requires HasRun(s, t, mode) && HasRun(t, u, mode)
    ensures HasRun(s, u, mode)
  {
    var xs :| Runs(s, xs) && Final(s, xs) == t && AllAllowed(s, xs, mode);
    var ys :| Runs(t, ys) && Final(t, ys) == u && AllAllowed(t, ys, mode);
    AllowedCompose(s, xs, ys, mode);
  }

  lemma HasRunStep(s: State, step: Step, mode: Mode)
    requires Enabled(s, step) && Allowed(s, step, mode)
    ensures HasRun(s, Next(s, step), mode)
  {
    var xs := [step];
    assert Runs(Next(s, step), xs[1..]) && AllAllowed(Next(s, step), xs[1..], mode);
    assert Runs(s, xs) && Final(s, xs) == Next(s, step) && AllAllowed(s, xs, mode);
  }

  /** Reaching a state is having a run that ends in it. */
  lemma ReachesByRun(s: State, t: State, mode: Mode) returns (steps: seq<Step>)
    requires Reaches(s, t, mode)
    ensures Runs(s, steps) && Final(s, steps) == t && AllAllowed(s, steps, mode)
  {
    var r := (a, b) => HasRun(a, b, mode);
    forall a ensures r(a, a) {
      assert Runs(a, []) && Final(a, []) == a && AllAllowed(a, [], mode);
    }
    forall a, b, c | r(a, b) && r(b, c) ensures r(a, c) { HasRunComposes(a, b, c, mode); }
    forall a, step | Enabled(a, step) && Allowed(a, step, mode) ensures r(a, Next(a, step)) {
      HasRunStep(a, step, mode);
    }
    assert Closed(r, mode);
    assert r(s, t);
    steps :| Runs(s, steps) && Final(s, steps) == t && AllAllowed(s, steps, mode);
  }

  lemma ReachesSelf(s: State, mode: Mode)
    ensures Reaches(s, s, mode)
  {
  }

  lemma ReachesMore(s: State, t: State, u: State, mode: Mode)
    requires Reaches(s, t, mode) && Reaches(t, u, mode)
    ensures Reaches(s, u, mode)
  {
  }

  lemma ReachesStep(s: State, step: Step, mode: Mode)
    requires Enabled(s, step) && Allowed(s, step, mode)
    ensures Reaches(s, Next(s, step), mode)
  {
  }

  // ---------------------------------------------------------------- acceptors in a range

  ghost predicate Turned(s: State, t: State, req: Request, lo: nat, hi: nat)
  {
    && |t.acc| == |s.acc| && t.procs == s.procs && t.atts == s.atts && t.decided == s.decided
    && (forall a :: 0 <= a < |s.acc| ==>
          t.acc[a] == if lo <= a < hi then Answered(s.acc[a], req).0 else s.acc[a])
    && (forall a :: lo <= a < hi && a < |s.acc| && Answered(s.acc[a], req).1.Answer? ==>
          Rep(a, req.to, Answered(s.acc[a], req).1.rep) in t.net)
    && (forall pk :: pk in s.net && !(pk.Req? && pk.req == req && lo <= pk.a < hi) ==> pk in t.net)
  }

  /** Acceptors lo to hi - 1 handle their copy of one request. */
  lemma {:induction false} HandleRange(s: State, req: Request, lo: nat, hi: nat, mode: Mode) returns (t: State)
    requires lo <= hi <= |s.acc|
    requires forall a :: lo <= a < hi ==> Req(a, req) in s.net
    ensures Reaches(s, t, mode) && Turned(s, t, req, lo, hi)
    decreases hi - lo
  {
    if lo == hi {
      t := s;
      ReachesSelf(s, mode);
    } else {
      var u := HandleRange(s, req, lo, hi - 1, mode);
      t := Next(u, Handle(hi - 1, req));
      ReachesStep(u, Handle(hi - 1, req), mode);
      ReachesMore(s, u, t, mode);
    }
  }

  ghost predicate RestartedRange(s: State, t: State, hi: nat) {
    && |t.acc| == |s.acc| && t == s.(acc := t.acc)
    && forall a :: 0 <= a < |s.acc| ==> t.acc[a] == if a < hi then Restarted(s.acc[a]) else s.acc[a]
  }

  lemma {:induction false} RestartRange(s: State, hi: nat) returns (t: State)
    requires hi <= |s.acc|
    ensures Reaches(s, t, FORGET) && RestartedRange(s, t, hi)
  {
    if hi == 0 {
      t := s;
      ReachesSelf(s, FORGET);
    } else {
      var u := RestartRange(s, hi - 1);
      t := Next(u, Restart(hi - 1));
      ReachesStep(u, Restart(hi - 1), FORGET);
      ReachesMore(s, u, t, FORGET);
    }
  }

  // ---------------------------------------------------------------- a majority of promises

  /** A report of no vote, of a vote for v, or of a vote below `top`. */
  predicate For(d: DecreeId, v: Choice, top: Ballot, acks: seq<Ack>) {
    acks == [] || (|acks| == 1 && acks[0].d == d && (acks[0].x == v || Lt(acks[0].b, top)))
  }

  ghost predicate PromiseFrom(s: State, ph: Phase, a: nat, v: Choice, top: Ballot) {
    exists acks :: Rep(a, ph.me, Promise(ph.b, acks)) in s.net && For(ph.d, v, top, acks)
  }

  ghost predicate Promisers(s: State, p: nat, lo: nat, hi: nat, v: Choice, top: Ballot) {
    && p in s.procs && s.procs[p].Scouting?
    && forall a :: lo <= a < hi ==> PromiseFrom(s, s.procs[p], a, v, top)
  }

  ghost predicate AllFor(ph: Phase, v: Choice, top: Ballot)
    requires ph.Scouting?
  {
    forall i :: 0 <= i < |ph.heard| ==> For(ph.d, v, top, ph.heard[i].acks)
  }

  /** From s, only p's scout has moved, hearing `more` further promises. */
  ghost predicate HeardMore(s: State, t: State, p: nat, more: nat, v: Choice, top: Ballot) {
    && p in s.procs && s.procs[p].Scouting?
    && p in t.procs && t.procs[p].Scouting? && t.procs[p] == s.procs[p].(heard := t.procs[p].heard)
    && |t.procs[p].heard| == |s.procs[p].heard| + more && t.procs[p].heard[more..] == s.procs[p].heard
    && AllFor(t.procs[p], v, top)
    && t == s.(net := t.net, procs := s.procs[p := t.procs[p]])
    && (forall pk :: pk in s.net && !(pk.Rep? && pk.to == s.procs[p].me) ==> pk in t.net)
  }

  lemma {:induction false} HearRange(s: State, p: nat, lo: nat, hi: nat, v: Choice, top: Ballot, mode: Mode)
    returns (t: State)
    requires lo <= hi && Promisers(s, p, lo, hi, v, top) && AllFor(s.procs[p], v, top)
    requires |s.procs[p].heard| + (hi - lo) < Quorum(|s.acc|)
    ensures Reaches(s, t, mode) && HeardMore(s, t, p, hi - lo, v, top)
    ensures forall a: nat, rep :: (a < lo || hi <= a) && Rep(a, s.procs[p].me, rep) in s.net ==> Rep(a, s.procs[p].me, rep) in t.net
    decreases hi - lo
  {
    if lo == hi {
      t := s;
      ReachesSelf(s, mode);
    } else {
      var u := HearRange(s, p, lo, hi - 1, v, top, mode);
      assert PromiseFrom(s, s.procs[p], hi - 1, v, top);
      t := HearOne(u, p, hi - 1, v, top, mode);
      ReachesMore(s, u, t, mode);
    }
  }

  lemma HearOne(s: State, p: nat, a: nat, v: Choice, top: Ballot, mode: Mode) returns (t: State)
    requires p in s.procs && s.procs[p].Scouting? && PromiseFrom(s, s.procs[p], a, v, top) && AllFor(s.procs[p], v, top)
    requires |s.procs[p].heard| + 1 < Quorum(|s.acc|)
    ensures Reaches(s, t, mode) && HeardMore(s, t, p, 1, v, top)
    ensures forall c: nat, rep :: c != a && Rep(c, s.procs[p].me, rep) in s.net ==> Rep(c, s.procs[p].me, rep) in t.net
  {
    var ph := s.procs[p];
    var acks :| Rep(a, ph.me, Promise(ph.b, acks)) in s.net && For(ph.d, v, top, acks);
    var step := Receive(p, a, Promise(ph.b, acks));
    t := Next(s, step);
    ReachesStep(s, step, mode);
  }

  /** A report that settles on v: a vote for v at or above `top`, or nothing to speak against the proposer's own v. */
  predicate Settles(x: Choice, v: Choice, top: Ballot, acks: seq<Ack>) {
    || (v == x && top == Ballot(0, 0))
    || (acks != [] && acks[0].x == v && Le(top, acks[0].b))
  }

  lemma ChoiceFromReports(ph: Phase, v: Choice, top: Ballot)
    requires ph.Scouting? && AllFor(ph, v, top) && ph.heard != [] && Settles(ph.x, v, top, ph.heard[0].acks)
    ensures var best := ChooseVote(ph.d, Concat(ph.heard)); (if best == [] then ph.x else best[0].x) == v
  {
    var acks := Concat(ph.heard);
    var best := ChooseVote(ph.d, acks);
    ChooseVoteIsHighest(ph.d, acks);
    if ph.heard[0].acks != [] { ConcatHas(ph.heard, ph.heard[0].acks[0]); }
    if best != [] { ConcatHas(ph.heard, best[0]); }
  }

  /** From s, p has put v forward and asks for votes. */
  ghost predicate WentForward(s: State, t: State, p: nat, v: Choice) {
    && p in s.procs
    && var ph := s.procs[p];
       && t.acc == s.acc && t.decided == s.decided
       && t.procs == s.procs[p := Commanding(ph.d, ph.x, ph.b, |s.atts|, v, [])]
       && t.atts == s.atts + [Command(p, ph.d, ph.b, v)]
       && (forall a :: 0 <= a < |s.acc| ==> Req(a, Syn(ph.d, ph.b, |s.atts|, v)) in t.net)
       && (forall pk :: pk in s.net && !(pk.Rep? && pk.to == ph.me) ==> pk in t.net)
  }

  lemma HearLast(s: State, p: nat, a: nat, acks: seq<Ack>, v: Choice, top: Ballot, mode: Mode) returns (t: State)
    requires p in s.procs && s.procs[p].Scouting? && AllFor(s.procs[p], v, top)
    requires Rep(a, s.procs[p].me, Promise(s.procs[p].b, acks)) in s.net && For(s.procs[p].d, v, top, acks)
    requires |s.procs[p].heard| + 1 == Quorum(|s.acc|) && Settles(s.procs[p].x, v, top, acks)
    ensures Reaches(s, t, mode) && WentForward(s, t, p, v)
  {
    var ph := s.procs[p];
    var step := Receive(p, a, Promise(ph.b, acks));
    t := Next(s, step);
    ReachesStep(s, step, mode);
    ChoiceFromReports(ph.(heard := [Heard(a, acks)] + ph.heard), v, top);
  }

  /** p hears the promises of a whole majority; what acceptor w reports settles the value. */
  lemma HearMajority(s: State, p: nat, lo: nat, hi: nat, v: Choice, top: Ballot, w: nat, acks: seq<Ack>, mode: Mode)
    returns (t: State)
    requires lo + Quorum(|s.acc|) == hi && Promisers(s, p, lo, hi, v, top) && s.procs[p].heard == [] && lo <= w < hi
    requires Rep(w, s.procs[p].me, Promise(s.procs[p].b, acks)) in s.net && For(s.procs[p].d, v, top, acks)
    requires Settles(s.procs[p].x, v, top, acks)
    ensures Reaches(s, t, mode) && WentForward(s, t, p, v)
  {
    var u := HearRange(s, p, lo, w, v, top, mode);
    forall a | w + 1 <= a < hi ensures PromiseFrom(u, u.procs[p], a, v, top) {
      assert PromiseFrom(s, s.procs[p], a, v, top);
    }
    var u' := HearRange(u, p, w + 1, hi, v, top, mode);
    ReachesMore(s, u, u', mode);
    t := HearLast(u', p, w, acks, v, top, mode);
    ReachesMore(s, u', t, mode);
    assert t.procs == s.procs[p := t.procs[p]];
  }

  // ---------------------------------------------------------------- a majority of acknowledgements

  ghost predicate Acknowledgers(s: State, p: nat, lo: nat, hi: nat) {
    && p in s.procs && s.procs[p].Commanding?
    && forall a :: lo <= a < hi ==>
         Rep(a, s.procs[p].me, Accepted(s.procs[p].d, s.procs[p].b, s.procs[p].y)) in s.net
  }

  ghost predicate CountedMore(s: State, t: State, p: nat, more: nat) {
    && p in s.procs && s.procs[p].Commanding?
    && p in t.procs && t.procs[p].Commanding? && t.procs[p] == s.procs[p].(heardFrom := t.procs[p].heardFrom)
    && |t.procs[p].heardFrom| == |s.procs[p].heardFrom| + more
    && t == s.(net := t.net, procs := s.procs[p := t.procs[p]])
    && (forall pk :: pk in s.net && !(pk.Rep? && pk.to == s.procs[p].me) ==> pk in t.net)
  }

  lemma {:induction false} CountRange(s: State, p: nat, lo: nat, hi: nat, mode: Mode) returns (t: State)
    requires lo <= hi && Acknowledgers(s, p, lo, hi)
    requires |s.procs[p].heardFrom| + (hi - lo) < Quorum(|s.acc|)
    ensures Reaches(s, t, mode) && CountedMore(s, t, p, hi - lo)
    ensures forall a: nat, rep :: (a < lo || hi <= a) && Rep(a, s.procs[p].me, rep) in s.net ==> Rep(a, s.procs[p].me, rep) in t.net
    decreases hi - lo
  {
    if lo == hi {
      t := s;
      ReachesSelf(s, mode);
    } else {
      var u := CountRange(s, p, lo, hi - 1, mode);
      var ph := u.procs[p];
      var step := Receive(p, hi - 1, Accepted(ph.d, ph.b, ph.y));
      t := Next(u, step);
      ReachesStep(u, step, mode);
      ReachesMore(s, u, t, mode);
    }
  }

  ghost predicate Returned(s: State, t: State, p: nat) {
    && p in s.procs && s.procs[p].Commanding?
    && t.acc == s.acc && t.atts == s.atts && t.procs == s.procs - {p} && s.decided <= t.decided
    && (exists q :: q in t.decided && q.d == s.procs[p].d && q.x == s.procs[p].y)
    && (forall pk :: pk in s.net && !(pk.Rep? && pk.to == s.procs[p].me) ==> pk in t.net)
  }

  /** p hears a whole majority acknowledge its value and returns it. */
  lemma CountMajority(s: State, p: nat, lo: nat, hi: nat, mode: Mode) returns (t: State)
    requires lo + Quorum(|s.acc|) == hi && Acknowledgers(s, p, lo, hi) && s.procs[p].heardFrom == []
    ensures Reaches(s, t, mode) && Returned(s, t, p)
  {
    var u := CountRange(s, p, lo, hi - 1, mode);
    var ph := u.procs[p];
    var step := Receive(p, hi - 1, Accepted(ph.d, ph.b, ph.y));
    t := Next(u, step);
    ReachesStep(u, step, mode);
    ReachesMore(s, u, t, mode);
    var q := Decision(p, ph.d, ph.b, ph.y, SeqSet([hi - 1] + ph.heardFrom));
    assert q in t.decided;
    assert t.procs == s.procs - {p};
  }
}
