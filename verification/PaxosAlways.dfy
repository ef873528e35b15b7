/** What holds in every run of the code, clean or not. */
module PaxosAlways {
  import opened Ballots
  import opened PaxosModel
  import opened PaxosInvariant
  import opened PaxosSteps
  import opened PaxosRounds
  import opened PaxosSafety

  // ---------------------------------------------------------------- the invariant

  predicate AcksAsked(s: State, acks: seq<Ack>) {
    forall i :: 0 <= i < |acks| ==> (acks[i].d, acks[i].x) in s.asked
  }

  /** Every value anywhere was asked for by the caller of some proposal of its decree. */
  ghost predicate Asked(s: State) {
    && (forall a, d :: 0 <= a < |s.acc| && d in s.acc[a].store ==> (d, s.acc[a].store[d].x) in s.asked)
    && (forall i :: 0 <= i < |s.atts| && s.atts[i].Command? ==> (s.atts[i].d, s.atts[i].x) in s.asked)
    && (forall src, to, b, acks :: Rep(src, to, Promise(b, acks)) in s.net ==> AcksAsked(s, acks))
    && (forall p, i :: p in s.procs && s.procs[p].Scouting? && 0 <= i < |s.procs[p].heard| ==>
          AcksAsked(s, s.procs[p].heard[i].acks))
    && (forall q :: q in s.decided ==> (q.d, q.x) in s.asked)
  }

  /** A refusal carries a ballot strictly above the one it refuses. */
  ghost predicate NacksAbove(s: State) {
    forall src: nat, to: nat, b :: Rep(src, to, Nack(b)) in s.net && to < |s.atts| ==> Lt(s.atts[to].b, b)
  }

  predicate Majority(s: State, quorum: set<nat>) {
    quorum <= Below(|s.acc|) && |quorum| == Quorum(|s.acc|)
  }

  ghost predicate Majorities(s: State) {
    && (forall k :: k in s.syns ==> Majority(s, s.syns[k].quorum))
    && (forall q :: q in s.decided ==> Majority(s, q.quorum))
  }

  ghost predicate Always(s: State) {
    Shape(s) && Tokens(s) && Asked(s) && NacksAbove(s) && Majorities(s)
  }

  // ---------------------------------------------------------------- acceptors

  lemma AnswerIsShaped(s: State, a: nat, req: Request)
    requires RequestOf(s, a, req) && Shape(s) && Asked(s)
    ensures var (acc', answer) := Answered(s.acc[a], req);
      && (answer.Answer? ==> ReplyOf(s, a, req.to, answer.rep))
      && (answer.Answer? && answer.rep.Nack? ==> Lt(req.b, answer.rep.b))
      && (answer.Answer? && answer.rep.Promise? ==> AcksAsked(s, answer.rep.acks))
      && (forall d :: d in acc'.store ==> (d, acc'.store[d].x) in s.asked)
  {
  }

  lemma HandleAlways(s: State, a: nat, req: Request)
    requires Always(s) && a < |s.acc| && Req(a, req) in s.net
    ensures Always(Handled(s, a, req))
  {
    var t := Handled(s, a, req);
    var u := s.(net := s.net - {Req(a, req)});
    assert RequestOf(s, a, req);
    AnswerIsShaped(s, a, req);
    HandleAlwaysShape(s, a, req);
  }

  lemma HandleAlwaysShape(s: State, a: nat, req: Request)
    requires Shape(s) && Tokens(s) && a < |s.acc| && Req(a, req) in s.net
    requires Answered(s.acc[a], req).1.Answer? ==> ReplyOf(s, a, req.to, Answered(s.acc[a], req).1.rep)
    ensures Shape(Handled(s, a, req)) && Tokens(Handled(s, a, req))
  {
    var u := s.(net := s.net - {Req(a, req)});
    var (acc', answer) := Answered(s.acc[a], req);
    DropKeepsShape(s, u, Req(a, req));
    var v := u.(votes := Handled(s, a, req).votes);
    TakingFreesToken(s, a, req);
    VotesDoNotMatter(u, v);
    if answer.Silence? {
      assert Handled(s, a, req) == v;
    } else {
      assert RequestOf(s, a, req);
      assert Turns(v, Handled(s, a, req), a, req.to, acc', answer.rep);
      TurnKeepsShape(v, Handled(s, a, req), a, req.to, acc', answer.rep);
      TurnKeepsTokens(v, Handled(s, a, req), a, req.to, acc', answer.rep);
    }
  }

  lemma VotesDoNotMatter(s: State, t: State)
    requires Shape(s) && Tokens(s) && t == s.(votes := t.votes)
    ensures Shape(t) && Tokens(t)
  {
    forall p | p in t.procs ensures AttemptOf(t, p, t.procs[p]) { assert AttemptOf(s, p, s.procs[p]); }
    forall a: nat, req | Req(a, req) in t.net ensures RequestOf(t, a, req) { assert RequestOf(s, a, req); }
    forall p, i | p in t.procs && 0 <= i < Replies(t.procs[p])
      ensures TokenSpent(t, Sender(t.procs[p], i), t.procs[p].me)
    {
      assert TokenSpent(s, Sender(s.procs[p], i), s.procs[p].me);
    }
  }

  // ---------------------------------------------------------------- proposers

  lemma OpensAlways(s: State, t: State, p: nat, ph: Phase, at: Attempt)
    requires Always(s) && Opens(s, t, p, ph, at)
    requires ph.Commanding? ==> (ph.d, ph.y) in s.asked
    requires forall k :: k in t.syns ==> Majority(s, t.syns[k].quorum)
    ensures Always(t)
  {
    OpensKeepsShape(s, t, p, ph, at);
    OpensKeepsTokens(s, t, p, ph, at);
    assert NacksAbove(t) by {
      forall src: nat, to: nat, b | Rep(src, to, Nack(b)) in t.net && to < |t.atts| ensures Lt(t.atts[to].b, b) {
        assert ReplyOf(s, src, to, Nack(b));
      }
    }
    assert Asked(t) by {
      forall src, to, b, acks | Rep(src, to, Promise(b, acks)) in t.net ensures AcksAsked(t, acks) {
        assert AcksAsked(s, acks);
      }
      forall q, i | q in t.procs && t.procs[q].Scouting? && 0 <= i < |t.procs[q].heard|
        ensures AcksAsked(t, t.procs[q].heard[i].acks)
      {
        assert AcksAsked(s, s.procs[q].heard[i].acks);
      }
    }
  }

  lemma ScoutAlways(s: State, p: nat, d: DecreeId, x: Choice, b: Ballot)
    requires Always(s) && b.pid == p && (d, x) in s.asked
    ensures Always(StartScout(s, p, d, x, b))
  {
    var t := StartScout(s, p, d, x, b);
    OpensAlways(s, t, p, t.procs[p], Scout(p, d, b));
  }

  lemma CommandAlways(s: State, p: nat, d: DecreeId, x: Choice, b: Ballot, y: Choice, j: Justification)
    requires Always(s) && b.pid == p && (d, x) in s.asked && (d, y) in s.asked
    requires Ack(d, b, y) in s.syns || Majority(s, j.quorum)
    ensures Always(StartCommand(Record(s, d, b, y, j), p, d, x, b, y))
  {
    var t := StartCommand(Record(s, d, b, y, j), p, d, x, b, y);
    PutForwardOpens(s, p, d, x, b, y, j);
    OpensAlways(s, t, p, t.procs[p], Command(p, d, b, y));
  }

  lemma CountAlways(s: State, t: State, p: nat, src: nat, rep: Reply, ph': Phase)
    requires Always(s) && Counts(s, t, p, src, rep, ph')
    ensures Always(t)
  {
    CountKeepsShape(s, t, p, src, rep, ph');
    CountKeepsTokens(s, t, p, src, rep, ph');
    assert Asked(t) by {
      forall q, i | q in t.procs && t.procs[q].Scouting? && 0 <= i < |t.procs[q].heard|
        ensures AcksAsked(t, t.procs[q].heard[i].acks)
      {
        if q != p { assert AcksAsked(s, s.procs[q].heard[i].acks); }
        else if i > 0 { assert AcksAsked(s, s.procs[p].heard[i - 1].acks); }
        else { assert AcksAsked(s, rep.acks); }
      }
    }
  }

  lemma ChoiceWasAsked(s: State, p: nat)
    requires Shape(s) && Asked(s) && p in s.procs && s.procs[p].Scouting?
    ensures var ph := s.procs[p];
      var best := ChooseVote(ph.d, Concat(ph.heard));
      (ph.d, if best == [] then ph.x else best[0].x) in s.asked
  {
    var ph := s.procs[p];
    var best := ChooseVote(ph.d, Concat(ph.heard));
    ChooseVoteIsHighest(ph.d, Concat(ph.heard));
    if best != [] {
      ConcatHas(ph.heard, best[0]);
      var i :| 0 <= i < |ph.heard| && best[0] in ph.heard[i].acks;
      assert AcksAsked(s, ph.heard[i].acks);
    }
  }

  lemma PromiseAlways(s: State, p: nat, src: nat, rep: Reply)
    requires Always(s) && Enabled(s, Receive(p, src, rep)) && rep.Promise?
    ensures Always(Received(s, p, src, rep))
  {
    var ph := s.procs[p];
    var ph' := ph.(heard := [Heard(src, rep.acks)] + ph.heard);
    var u := s.(net := s.net - {Rep(src, ph.me, rep)}, procs := s.procs[p := ph']);
    CountAlways(s, u, p, src, rep, ph');
    if |ph'.heard| == Quorum(|s.acc|) {
      assert AttemptOf(u, p, ph');
      ScoutedQuorum(u, p);
      ChoiceWasAsked(u, p);
      var best := ChooseVote(ph.d, Concat(ph'.heard));
      var y := if best == [] then ph.x else best[0].x;
      var j := Justification(Sources(ph'.heard), if best == [] then Bottom else Value(best[0].b));
      CommandAlways(u, p, ph.d, ph.x, ph.b, y, j);
      PromisedForgetsCount(s, u, p, src, rep, y, j);
    }
  }

  lemma AcceptedAlways(s: State, p: nat, src: nat, rep: Reply)
    requires Always(s) && Enabled(s, Receive(p, src, rep)) && rep.Accepted?
    ensures Always(Received(s, p, src, rep))
  {
    var ph := s.procs[p];
    var ph' := ph.(heardFrom := [src] + ph.heardFrom);
    var u := s.(net := s.net - {Rep(src, ph.me, rep)}, procs := s.procs[p := ph']);
    CountAlways(s, u, p, src, rep, ph');
    AcknowledgedIsDecide(s, u, p, src, rep);
    if |ph'.heardFrom| == Quorum(|s.acc|) {
      CommandedQuorum(u, p);
      DecideKeepsShape(u, p);
      assert AttemptOf(u, p, ph');
      DecideAlways(u, p);
    }
  }

  lemma DecideAlways(s: State, p: nat)
    requires Always(s) && Commanded(s, p) && Majority(s, SeqSet(s.procs[p].heardFrom)) && AttemptOf(s, p, s.procs[p])
    requires Shape(Decide(s, p)) && Tokens(Decide(s, p))
    ensures Always(Decide(s, p))
  {
    var t := Decide(s, p);
    assert Asked(t) by {
      forall q, i | q in t.procs && t.procs[q].Scouting? && 0 <= i < |t.procs[q].heard|
        ensures AcksAsked(t, t.procs[q].heard[i].acks)
      {
        assert AcksAsked(s, s.procs[q].heard[i].acks);
      }
    }
  }

  lemma NackAlways(s: State, p: nat, src: nat, rep: Reply)
    requires Always(s) && Enabled(s, Receive(p, src, rep)) && rep.Nack?
    ensures Always(Received(s, p, src, rep))
  {
    var ph := s.procs[p];
    var t := s.(net := s.net - {Rep(src, ph.me, rep)});
    assert AttemptOf(s, p, ph);
    DropKeepsShape(s, t, Rep(src, ph.me, rep));
    assert Always(t);
    ScoutAlways(t, p, ph.d, ph.x, if ph.Scouting? then NextAfterScout(ph.b, rep.b) else NextAfterCommand(ph.b, rep.b));
  }

  // ---------------------------------------------------------------- runs

  lemma QuietAlways(s: State, t: State)
    requires Always(s) && t == s.(acc := t.acc, asked := t.asked) && |t.acc| == |s.acc| && s.asked <= t.asked
    requires forall a, d :: 0 <= a < |t.acc| && d in t.acc[a].store ==> d in s.acc[a].store && t.acc[a].store[d] == s.acc[a].store[d]
    ensures Always(t)
  {
    SameNetwork(s, t);
    assert Asked(t) by {
      forall src, to, b, acks | Rep(src, to, Promise(b, acks)) in t.net ensures AcksAsked(t, acks) {
        assert AcksAsked(s, acks);
      }
      forall q, i | q in t.procs && t.procs[q].Scouting? && 0 <= i < |t.procs[q].heard|
        ensures AcksAsked(t, t.procs[q].heard[i].acks)
      {
        assert AcksAsked(s, s.procs[q].heard[i].acks);
      }
    }
  }

  lemma StepAlways(s: State, step: Step)
    requires Always(s) && Enabled(s, step)
    ensures Always(Next(s, step))
  {
    match step
    case Propose(p, d, x) =>
      var t := s.(asked := s.asked + {(d, x)});
      QuietAlways(s, t);
      ScoutAlways(t, p, d, x, Ballot(0, p));
    case Handle(a, req) => HandleAlways(s, a, req);
    case Receive(p, src, rep) =>
      if rep.Nack? { NackAlways(s, p, src, rep); }
      else if rep.Promise? { PromiseAlways(s, p, src, rep); }
      else { AcceptedAlways(s, p, src, rep); }
    case Timeout(p) => TimeoutAlways(s, p);
    case Abandon(p) => AbandonAlways(s, p);
    case Trim(a, d) => QuietAlways(s, Next(s, step));
    case Restart(a) => QuietAlways(s, Next(s, step));
  }

  lemma AbandonAlways(s: State, p: nat)
    requires Always(s)
    ensures Always(Abandoned(s, p))
  {
    var t := Abandoned(s, p);
    AbandonKeepsShape(s, p);
    assert Asked(t) by {
      forall q, i | q in t.procs && t.procs[q].Scouting? && 0 <= i < |t.procs[q].heard|
        ensures AcksAsked(t, t.procs[q].heard[i].acks)
      {
        assert AcksAsked(s, s.procs[q].heard[i].acks);
      }
    }
  }

  lemma TimeoutAlways(s: State, p: nat)
    requires Always(s) && p in s.procs
    ensures Always(TimedOut(s, p))
  {
    var ph := s.procs[p];
    assert AttemptOf(s, p, ph);
    if ph.Scouting? {
      ScoutAlways(s, p, ph.d, ph.x, ph.b);
    } else {
      var k := Ack(ph.d, ph.b, ph.y);
      assert k in s.syns;
      CommandAlways(s, p, ph.d, ph.x, ph.b, ph.y, s.syns[k]);
    }
  }

  lemma {:induction false} RunAlways(s: State, steps: seq<Step>)
    requires Always(s) && Runs(s, steps)
    ensures Always(Final(s, steps))
    decreases |steps|
  {
    if steps != [] {
      StepAlways(s, steps[0]);
      RunAlways(Next(s, steps[0]), steps[1..]);
    }
  }

  /** A proposal returns a value that somebody asked for on that decree. */
  lemma ReturnedWasAsked(n: nat, steps: seq<Step>, q: Decision)
    requires Runs(Init(n), steps) && q in Final(Init(n), steps).decided
    ensures (q.d, q.x) in Final(Init(n), steps).asked
  {
    RunAlways(Init(n), steps);
  }

  /** Proposers count replies, not acceptors; yet what they count is always a majority of distinct acceptors. */
  lemma CountsAreMajorities(n: nat, steps: seq<Step>)
    requires Runs(Init(n), steps)
    ensures var t := Final(Init(n), steps);
      && |t.acc| == n
      && (forall k :: k in t.syns ==> Majority(t, t.syns[k].quorum))
      && (forall q :: q in t.decided ==> Majority(t, q.quorum))
  {
    RunAlways(Init(n), steps);
    GroupSizeStays(Init(n), steps);
  }

  lemma SizeStays(s: State, step: Step)
    requires Enabled(s, step)
    ensures |Next(s, step).acc| == |s.acc|
  {
  }

  lemma {:induction false} GroupSizeStays(s: State, steps: seq<Step>)
    requires Runs(s, steps)
    ensures |Final(s, steps).acc| == |s.acc|
    decreases |steps|
  {
    if steps != [] {
      SizeStays(s, steps[0]);
      GroupSizeStays(Next(s, steps[0]), steps[1..]);
    }
  }

  /** A refusal on its way to a waiting proposer is strictly above the ballot the proposer is using. */
  lemma RefusalIsAbove(n: nat, steps: seq<Step>, p: nat, src: nat, b: Ballot)
    requires Runs(Init(n), steps)
    requires var t := Final(Init(n), steps); p in t.procs && Rep(src, t.procs[p].me, Nack(b)) in t.net
    ensures Lt(Final(Init(n), steps).procs[p].b, b)
  {
    RunAlways(Init(n), steps);
    var t := Final(Init(n), steps);
    assert AttemptOf(t, p, t.procs[p]);
  }

  // ---------------------------------------------------------------- an acceptor's ballot

  predicate Positive(answer: Answer) {
    answer.Answer? && (answer.rep.Promise? || answer.rep.Accepted?)
  }

  /** The ballots of all requests acceptor a answers positively along a run. */
  ghost function Responded(s: State, steps: seq<Step>, a: nat): (r: set<Ballot>)
    requires Runs(s, steps) && a < |s.acc|
    decreases |steps|
  {
    if steps == [] then {} else
      assert |Next(s, steps[0]).acc| == |s.acc|;
      var later := Responded(Next(s, steps[0]), steps[1..], a);
      if steps[0].Handle? && steps[0].a == a && Positive(Answered(s.acc[a], steps[0].req).1)
      then later + {steps[0].req.b} else later
  }

  predicate NoRestarts(steps: seq<Step>) {
    forall i :: 0 <= i < |steps| ==> !steps[i].Restart?
  }

  /** Without restarts an acceptor's ballot never falls, and is the highest it has answered positively. */
  lemma {:induction false} BallotIsHighestAnswered(s: State, steps: seq<Step>, a: nat)
    requires Runs(s, steps) && NoRestarts(steps) && a < |s.acc|
    ensures a < |Final(s, steps).acc|
    ensures var before, after, seen := s.acc[a].bal, Final(s, steps).acc[a].bal, Responded(s, steps, a);
      && LiftedLe(before, after)
      && (after == before || after.b in seen)
      && (forall b :: b in seen ==> LiftedLe(Value(b), after))
    decreases |steps|
  {
    if steps != [] {
      var t := Next(s, steps[0]);
      assert |t.acc| == |s.acc|;
      BallotIsHighestAnswered(t, steps[1..], a);
    }
  }

  /** P1: a Syn is accepted exactly when nothing above its ballot was ever answered positively, and its decree is not trimmed. */
  lemma AcceptsExactly(n: nat, steps: seq<Step>, a: nat, d: DecreeId, b: Ballot, to: nat, x: Choice)
    requires Runs(Init(n), steps) && NoRestarts(steps) && a < n
    ensures a < |Final(Init(n), steps).acc|
    ensures var acc := Final(Init(n), steps).acc[a];
      Positive(Answered(acc, Syn(d, b, to, x)).1)
      <==> !Before(d, acc.start) && forall c :: c in Responded(Init(n), steps, a) ==> Le(c, b)
  {
    BallotIsHighestAnswered(Init(n), steps, a);
  }

  // ---------------------------------------------------------------- an acceptor's store

  /** How an acceptor last came to a higher ballot since it started. */
  datatype Raise = Never | ByPrepare | BySyn

  ghost function RaiseAfter(s: State, step: Step, a: nat, last: Raise): (r: Raise)
    requires a < |s.acc|
  {
    if step == Restart(a) then Never
    else if step.Handle? && step.a == a && Positive(Answered(s.acc[a], step.req).1) && LiftedLt(s.acc[a].bal, Value(step.req.b))
    then (if step.req.Syn? then BySyn else ByPrepare)
    else last
  }

  ghost function LastRaise(s: State, steps: seq<Step>, a: nat, last: Raise): (r: Raise)
    requires Runs(s, steps) && a < |s.acc|
    decreases |steps|
  {
    if steps == [] then last else
      assert |Next(s, steps[0]).acc| == |s.acc|;
      LastRaise(Next(s, steps[0]), steps[1..], a, RaiseAfter(s, steps[0], a, last))
  }

  predicate StoredUnless(acc: Acceptor, last: Raise) {
    LiftedLe(acc.disk, acc.bal) && (acc.disk != acc.bal <==> last == ByPrepare)
  }

  lemma {:induction false} StoredBallot(s: State, steps: seq<Step>, a: nat, last: Raise)
    requires Runs(s, steps) && a < |s.acc| && StoredUnless(s.acc[a], last)
    ensures a < |Final(s, steps).acc| && StoredUnless(Final(s, steps).acc[a], LastRaise(s, steps, a, last))
    decreases |steps|
  {
    if steps != [] {
      var t := Next(s, steps[0]);
      assert |t.acc| == |s.acc|;
      assert StoredUnless(t.acc[a], RaiseAfter(s, steps[0], a, last));
      StoredBallot(t, steps[1..], a, RaiseAfter(s, steps[0], a, last));
    }
  }

  /**
   In every run, a restart of an acceptor forgets a promise exactly when its
   ballot was last raised by a Prepare, even if it has voted at that ballot since.
   */
  lemma ForgetsExactly(n: nat, steps: seq<Step>, a: nat)
    requires Runs(Init(n), steps) && a < n
    ensures ForgetsPromise(Final(Init(n), steps), Restart(a)) <==> LastRaise(Init(n), steps, a, Never) == ByPrepare
  {
    StoredBallot(Init(n), steps, a, Never);
  }

  /** In every run an acceptor stores nothing below the first decree it has not trimmed, and that decree never goes back. */
  lemma {:induction false} NothingBelowStart(s: State, steps: seq<Step>, a: nat)
    requires Runs(s, steps) && a < |s.acc| && forall d :: d in s.acc[a].store ==> !Before(d, s.acc[a].start)
    ensures a < |Final(s, steps).acc|
    ensures var acc := Final(s, steps).acc[a];
      !Before(acc.start, s.acc[a].start) && forall d :: d in acc.store ==> !Before(d, acc.start)
    decreases |steps|
  {
    if steps != [] {
      var t := Next(s, steps[0]);
      assert |t.acc| == |s.acc|;
      StartAdvances(s, steps[0], a);
      NothingBelowStart(t, steps[1..], a);
    }
  }

  lemma StartAdvances(s: State, step: Step, a: nat)
    requires Enabled(s, step) && a < |s.acc| && forall d :: d in s.acc[a].store ==> !Before(d, s.acc[a].start)
    ensures |Next(s, step).acc| == |s.acc|
    ensures var acc := Next(s, step).acc[a];
      !Before(acc.start, s.acc[a].start) && forall d :: d in acc.store ==> !Before(d, acc.start)
  {
  }
}
