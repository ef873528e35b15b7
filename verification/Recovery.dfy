/**
 Regaining a group from the states of old acceptors: how many states are
 needed, and what the recovered copies of a decree must look like for every
 later proposal to return its value.
 */
module Recovery {
  import opened Ballots
  import opened PaxosModel
  import opened PaxosInvariant
  import opened PaxosSteps
  import opened PaxosRounds
  import opened PaxosSafety
  import opened PaxosAlways
  import opened Sync

  // ---------------------------------------------------------------- starting from recovered states

  /** A group about to start: acceptors in any state, nobody proposing, nothing in the network. */
  ghost predicate Starting(s: State) {
    && s.procs == map[] && s.net == {} && s.atts == [] && s.syns == map[] && s.decided == {}
    && forall a, d :: 0 <= a < |s.acc| && d in s.acc[a].store ==> (d, s.acc[a].store[d].x) in s.asked
  }

  /**
   A value to be kept for a decree: the acceptors in `keep` have it at or above
   `top`, and no vote at or above `top` is for another value. With `top` missing
   there is no vote for another value at all.
   */
  datatype Kept = Kept(d: DecreeId, v: Choice, top: Lifted, keep: set<nat>)

  predicate VoteFits(g: Kept, b: Ballot, x: Choice) {
    x == g.v || LiftedLt(Value(b), g.top)
  }

  /** The acceptor has trimmed the decree, or holds the value and will accept nothing below `top`, not even after a restart. */
  predicate Keeper(g: Kept, a: Acceptor) {
    || Before(g.d, a.start)
    || (g.d in a.store && LiftedLe(g.top, Value(a.store[g.d].b)) && LiftedLe(g.top, a.bal) && LiftedLe(g.top, a.disk))
  }

  predicate AcksFor(g: Kept, acks: seq<Ack>) {
    forall i :: 0 <= i < |acks| && acks[i].d == g.d ==> VoteFits(g, acks[i].b, acks[i].x)
  }

  /** A promise about the decree reports the value or something below it, and members of `keep` do report it. */
  predicate ReportOk(g: Kept, src: nat, asked: DecreeId, acks: seq<Ack>) {
    && AcksFor(g, acks)
    && (asked == g.d && src in g.keep ==> acks != [] && acks[0].d == g.d && LiftedLe(g.top, Value(acks[0].b)))
  }

  /** The value is kept by whoever has to keep it, and nobody puts another one forward. */
  ghost predicate OnlyValue(s: State, g: Kept) {
    && g.keep <= Below(|s.acc|)
    && (forall a :: a in g.keep && a < |s.acc| ==> Keeper(g, s.acc[a]))
    && (forall a :: 0 <= a < |s.acc| && g.d in s.acc[a].store ==> VoteFits(g, s.acc[a].store[g.d].b, s.acc[a].store[g.d].x))
    && (forall i :: 0 <= i < |s.atts| && s.atts[i].Command? && s.atts[i].d == g.d ==> s.atts[i].x == g.v)
    && (forall src: nat, to: nat, b, acks :: Rep(src, to, Promise(b, acks)) in s.net && to < |s.atts| ==>
          ReportOk(g, src, s.atts[to].d, acks))
    && (forall p, i :: p in s.procs && s.procs[p].Scouting? && 0 <= i < |s.procs[p].heard| ==>
          ReportOk(g, s.procs[p].heard[i].src, s.procs[p].d, s.procs[p].heard[i].acks))
    && (forall q :: q in s.decided && q.d == g.d ==> q.x == g.v)
  }

  lemma HandleKeepsValue(s: State, a: nat, req: Request, g: Kept)
    requires Shape(s) && OnlyValue(s, g) && a < |s.acc| && Req(a, req) in s.net
    ensures OnlyValue(Handled(s, a, req), g)
  {
    assert RequestOf(s, a, req);
    AnswerKeepsValue(s.acc[a], req, g);
  }

  lemma AnswerKeepsValue(a: Acceptor, req: Request, g: Kept)
    requires req.Syn? && req.d == g.d ==> req.x == g.v
    requires g.d in a.store ==> VoteFits(g, a.store[g.d].b, a.store[g.d].x)
    ensures var (a', answer) := Answered(a, req);
      && (Keeper(g, a) ==> Keeper(g, a'))
      && (g.d in a'.store ==> VoteFits(g, a'.store[g.d].b, a'.store[g.d].x))
      && (answer.Answer? && answer.rep.Promise? ==> AcksFor(g, answer.rep.acks))
      && (answer.Answer? && answer.rep.Promise? && Keeper(g, a) && req.d == g.d ==>
            |answer.rep.acks| == 1 && answer.rep.acks[0].d == g.d && LiftedLe(g.top, Value(answer.rep.acks[0].b)))
  {
  }

  lemma OpensKeepsValue(s: State, t: State, p: nat, ph: Phase, at: Attempt, g: Kept)
    requires Shape(s) && OnlyValue(s, g) && Opens(s, t, p, ph, at)
    requires ph.Commanding? && ph.d == g.d ==> ph.y == g.v
    ensures OnlyValue(t, g)
  {
    forall src: nat, to: nat, b, acks | Rep(src, to, Promise(b, acks)) in t.net && to < |t.atts|
      ensures ReportOk(g, src, t.atts[to].d, acks)
    {
      assert ReplyOf(s, src, to, Promise(b, acks));
    }
  }

  lemma CountKeepsValue(s: State, t: State, p: nat, src: nat, rep: Reply, ph': Phase, g: Kept)
    requires Shape(s) && OnlyValue(s, g) && Counts(s, t, p, src, rep, ph')
    ensures OnlyValue(t, g)
  {
    assert AttemptOf(s, p, s.procs[p]);
    forall q, i | q in t.procs && t.procs[q].Scouting? && 0 <= i < |t.procs[q].heard|
      ensures ReportOk(g, t.procs[q].heard[i].src, t.procs[q].d, t.procs[q].heard[i].acks)
    {
      if q == p && i > 0 { assert t.procs[q].heard[i] == s.procs[p].heard[i - 1]; }
    }
  }

  /** A full scout meets `keep`, so it hears of v and of nothing else. */
  lemma ScoutFindsValue(s: State, p: nat, g: Kept)
    requires Tokens(s) && OnlyValue(s, g) && Scouted(s, p) && s.procs[p].d == g.d
    requires |g.keep| + Quorum(|s.acc|) > |s.acc|
    ensures var best := ChooseVote(g.d, Concat(s.procs[p].heard)); best != [] && best[0].x == g.v
  {
    var ph := s.procs[p];
    ScoutedQuorum(s, p);
    var a := SetsMeet(|s.acc|, g.keep, Sources(ph.heard));
    var i :| 0 <= i < |ph.heard| && ph.heard[i].src == a;
    assert ReportOk(g, a, g.d, ph.heard[i].acks);
    ConcatHas(ph.heard, ph.heard[i].acks[0]);
    ChooseVoteIsHighest(g.d, Concat(ph.heard));
    var best := ChooseVote(g.d, Concat(ph.heard));
    ConcatHas(ph.heard, best[0]);
    var j :| 0 <= j < |ph.heard| && best[0] in ph.heard[j].acks;
    assert ReportOk(g, ph.heard[j].src, g.d, ph.heard[j].acks);
  }

  lemma PromiseKeepsValue(s: State, p: nat, src: nat, rep: Reply, g: Kept)
    requires Shape(s) && Tokens(s) && OnlyValue(s, g) && |g.keep| + Quorum(|s.acc|) > |s.acc|
    requires Enabled(s, Receive(p, src, rep)) && rep.Promise?
    ensures OnlyValue(Received(s, p, src, rep), g)
  {
    var ph := s.procs[p];
    var ph' := ph.(heard := [Heard(src, rep.acks)] + ph.heard);
    var u := s.(net := s.net - {Rep(src, ph.me, rep)}, procs := s.procs[p := ph']);
    CountKeepsShape(s, u, p, src, rep, ph');
    CountKeepsTokens(s, u, p, src, rep, ph');
    CountKeepsValue(s, u, p, src, rep, ph', g);
    if |ph'.heard| == Quorum(|s.acc|) {
      assert AttemptOf(u, p, ph');
      if ph.d == g.d { ScoutFindsValue(u, p, g); }
      var best := ChooseVote(ph.d, Concat(ph'.heard));
      var y := if best == [] then ph.x else best[0].x;
      var j := Justification(Sources(ph'.heard), if best == [] then Bottom else Value(best[0].b));
      PutForwardOpens(u, p, ph.d, ph.x, ph.b, y, j);
      var t := StartCommand(Record(u, ph.d, ph.b, y, j), p, ph.d, ph.x, ph.b, y);
      OpensKeepsValue(u, t, p, t.procs[p], Command(p, ph.d, ph.b, y), g);
      PromisedForgetsCount(s, u, p, src, rep, y, j);
    }
  }

  lemma AcceptedKeepsValue(s: State, p: nat, src: nat, rep: Reply, g: Kept)
    requires Shape(s) && OnlyValue(s, g) && Enabled(s, Receive(p, src, rep)) && rep.Accepted?
    ensures OnlyValue(Received(s, p, src, rep), g)
  {
    var ph := s.procs[p];
    var ph' := ph.(heardFrom := [src] + ph.heardFrom);
    var u := s.(net := s.net - {Rep(src, ph.me, rep)}, procs := s.procs[p := ph']);
    assert AttemptOf(s, p, ph);
    CountKeepsValue(s, u, p, src, rep, ph', g);
    AcknowledgedIsDecide(s, u, p, src, rep);
  }

  lemma ScoutKeepsValue(s: State, p: nat, d': DecreeId, x: Choice, b: Ballot, g: Kept)
    requires Shape(s) && OnlyValue(s, g) && b.pid == p && (d', x) in s.asked
    ensures OnlyValue(StartScout(s, p, d', x, b), g)
  {
    var t := StartScout(s, p, d', x, b);
    OpensKeepsValue(s, t, p, t.procs[p], Scout(p, d', b), g);
  }

  lemma QuietKeepsValue(s: State, t: State, g: Kept)
    requires OnlyValue(s, g) && t == s.(acc := t.acc) && |t.acc| == |s.acc|
    requires forall a :: 0 <= a < |s.acc| && Keeper(g, s.acc[a]) ==> Keeper(g, t.acc[a])
    requires forall a :: 0 <= a < |s.acc| && g.d in t.acc[a].store ==>
      g.d in s.acc[a].store && t.acc[a].store[g.d] == s.acc[a].store[g.d]
    ensures OnlyValue(t, g)
  {
  }

  lemma AbandonKeepsValue(s: State, p: nat, g: Kept)
    requires OnlyValue(s, g)
    ensures OnlyValue(Abandoned(s, p), g)
  {
  }

  lemma NackKeepsValue(s: State, p: nat, src: nat, rep: Reply, g: Kept)
    requires Shape(s) && Tokens(s) && OnlyValue(s, g) && Enabled(s, Receive(p, src, rep)) && rep.Nack?
    ensures OnlyValue(Received(s, p, src, rep), g)
  {
    var ph := s.procs[p];
    var u := s.(net := s.net - {Rep(src, ph.me, rep)});
    assert AttemptOf(s, p, ph);
    DropKeepsShape(s, u, Rep(src, ph.me, rep));
    ScoutKeepsValue(u, p, ph.d, ph.x,
      if ph.Scouting? then NextAfterScout(ph.b, rep.b) else NextAfterCommand(ph.b, rep.b), g);
  }

  lemma TimeoutKeepsValue(s: State, p: nat, g: Kept)
    requires Shape(s) && OnlyValue(s, g) && p in s.procs
    ensures OnlyValue(TimedOut(s, p), g)
  {
    var ph := s.procs[p];
    assert AttemptOf(s, p, ph);
    if ph.Scouting? {
      ScoutKeepsValue(s, p, ph.d, ph.x, ph.b, g);
    } else {
      var k := Ack(ph.d, ph.b, ph.y);
      PutForwardOpens(s, p, ph.d, ph.x, ph.b, ph.y, s.syns[k]);
      var t := TimedOut(s, p);
      OpensKeepsValue(s, t, p, t.procs[p], Command(p, ph.d, ph.b, ph.y), g);
    }
  }

  lemma StepKeepsValue(s: State, step: Step, g: Kept)
    requires Shape(s) && Tokens(s) && OnlyValue(s, g) && |g.keep| + Quorum(|s.acc|) > |s.acc| && Enabled(s, step)
    ensures OnlyValue(Next(s, step), g)
  {
    match step
    case Propose(p, d', x) =>
      var u := s.(asked := s.asked + {(d', x)});
      SameNetwork(s, u);
      ScoutKeepsValue(u, p, d', x, Ballot(0, p), g);
    case Handle(a, req) => HandleKeepsValue(s, a, req, g);
    case Receive(p, src, rep) =>
      if rep.Nack? { NackKeepsValue(s, p, src, rep, g); }
      else if rep.Promise? { PromiseKeepsValue(s, p, src, rep, g); }
      else { AcceptedKeepsValue(s, p, src, rep, g); }
    case Timeout(p) => TimeoutKeepsValue(s, p, g);
    case Abandon(p) => AbandonKeepsValue(s, p, g);
    case Trim(a, d') => QuietKeepsValue(s, Next(s, step), g);
    case Restart(a) => QuietKeepsValue(s, Next(s, step), g);
  }

  lemma {:induction false} RunKeepsValue(s: State, steps: seq<Step>, g: Kept)
    requires Always(s) && OnlyValue(s, g) && |g.keep| + Quorum(|s.acc|) > |s.acc| && Runs(s, steps)
    ensures OnlyValue(Final(s, steps), g)
    decreases |steps|
  {
    if steps != [] {
      StepAlways(s, steps[0]);
      StepKeepsValue(s, steps[0], g);
      SizeStays(s, steps[0]);
      RunKeepsValue(Next(s, steps[0]), steps[1..], g);
    }
  }

  lemma StartingIsAlways(s: State)
    requires Starting(s)
    ensures Always(s)
  {
  }

  /**
   Recovered states, highest value first: if the acceptors in `keep` hold the
   value at or above `top`, with stored ballots that high, if every other vote
   for the decree is for it too or lower, and too few acceptors are outside
   `keep` to form a majority, then whatever happens from then on, refusals,
   reused ballots, interruptions, restarts and trims included, proposals of the
   decree return the value.
   */
  lemma KeptValueStays(s: State, steps: seq<Step>, g: Kept, q: Decision)
    requires Starting(s) && Runs(s, steps)
    requires g.keep <= Below(|s.acc|) && |g.keep| + Quorum(|s.acc|) > |s.acc|
    requires forall a :: a in g.keep ==> Keeper(g, s.acc[a])
    requires forall a :: 0 <= a < |s.acc| && g.d in s.acc[a].store ==> VoteFits(g, s.acc[a].store[g.d].b, s.acc[a].store[g.d].x)
    requires q in Final(s, steps).decided && q.d == g.d
    ensures q.x == g.v
  {
    StartingIsAlways(s);
    assert OnlyValue(s, g);
    RunKeepsValue(s, steps, g);
  }

  /** If no recovered copy of d differs from v, the acceptors' ballots do not matter. */
  lemma RecoveredValueStays(s: State, steps: seq<Step>, d: DecreeId, v: Choice, q: Decision)
    requires Starting(s) && Runs(s, steps)
    requires forall a :: 0 <= a < |s.acc| && d in s.acc[a].store ==> s.acc[a].store[d].x == v
    requires |Holders(s.acc, d)| + Quorum(|s.acc|) > |s.acc|
    requires q in Final(s, steps).decided && q.d == d
    ensures q.x == v
  {
    KeptValueStays(s, steps, Kept(d, v, Bottom, Holders(s.acc, d)), q);
  }

  // ---------------------------------------------------------------- starting from a synchronisation

  /** Copies that agreed before a synchronisation agree after it. */
  lemma CopiesStillAgree(init: seq<Acceptor>, t: SyncState, d: DecreeId, v: Choice)
    requires StoresOk(init, t)
    requires forall c :: 0 <= c < |init| && d in init[c].store ==> init[c].store[d].x == v
    ensures forall a :: 0 <= a < |t.acc| && d in t.acc[a].store ==> t.acc[a].store[d].x == v
  {
    forall a | 0 <= a < |t.acc| && d in t.acc[a].store ensures t.acc[a].store[d].x == v {
      assert Originates(init, d, t.acc[a].store[d]);
    }
  }

  /** Synchronise, then propose: if all copies of a decree agree, every later proposal returns their value. */
  lemma SyncThenPropose(init: seq<Acceptor>, syncing: seq<SyncStep>, s: State, steps: seq<Step>,
                        a: nat, d: DecreeId, q: Decision)
    requires SyncRuns(Begin(init), syncing) && AllAskEnough(Begin(init), syncing)
    requires Completed(SyncFinal(Begin(init), syncing))
    requires Starting(s) && s.acc == SyncFinal(Begin(init), syncing).acc && Runs(s, steps)
    requires a < |init| && d in init[a].store
    requires forall c :: 0 <= c < |init| && d in init[c].store ==> init[c].store[d].x == init[a].store[d].x
    requires q in Final(s, steps).decided && q.d == d
    ensures q.x == init[a].store[d].x
  {
    SyncSpreads(init, syncing);
    CopiesStillAgree(init, SyncFinal(Begin(init), syncing), d, init[a].store[d].x);
    HeldByEnough(init, SyncFinal(Begin(init), syncing), a, d);
    RecoveredValueStays(s, steps, d, init[a].store[d].x, q);
  }

  lemma HeldByEnough(init: seq<Acceptor>, t: SyncState, a: nat, d: DecreeId)
    requires |t.acc| == |init| && a < |init| && d in init[a].store
    requires forall a, d :: 0 <= a < |init| && d in init[a].store ==> |Holders(t.acc, d)| >= Quorum(|init|)
    ensures |Holders(t.acc, d)| + Quorum(|t.acc|) > |t.acc|
  {
  }
}
