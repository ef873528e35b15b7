/** What acceptors and proposers do in every run, told from the steps of the run alone. */
module PaxosHistory {
  import opened Ballots
  import opened PaxosModel
  import opened PaxosInvariant
  import opened PaxosAlways
  import opened PaxosMoves

  // ---------------------------------------------------------------- refusals

  /** Some ballot answered positively is above b. */
  ghost predicate Overtaken(seen: set<Ballot>, b: Ballot) {
    exists c :: c in seen && Lt(b, c)
  }

  /**
   What an acceptor does with a request, from what it has answered positively
   before: nothing for a trimmed decree; otherwise a refusal exactly when it has
   answered a higher ballot, and the refusal carries the highest it has answered.
   */
  lemma AnswersExactly(n: nat, steps: seq<Step>, a: nat, req: Request)
    requires Runs(Init(n), steps) && NoRestarts(steps) && a < n
    ensures a < |Final(Init(n), steps).acc|
    ensures var acc, seen := Final(Init(n), steps).acc[a], Responded(Init(n), steps, a);
      var answer := Answered(acc, req).1;
      && (answer.Silence? <==> Before(req.d, acc.start))
      && (answer.Answer? && answer.rep.Nack? <==> !Before(req.d, acc.start) && Overtaken(seen, req.b))
      && (answer.Answer? && answer.rep.Nack? ==> answer.rep.b in seen && forall c :: c in seen ==> Le(c, answer.rep.b))
  {
    BallotIsHighestAnswered(Init(n), steps, a);
    var acc, seen := Final(Init(n), steps).acc[a], Responded(Init(n), steps, a);
    if Overtaken(seen, req.b) {
      var c :| c in seen && Lt(req.b, c);
      assert LiftedLe(Value(c), acc.bal);
    } else if acc.bal.Value? {
      assert acc.bal.b in seen;
    }
  }

  // ---------------------------------------------------------------- retries

  /**
   A scout that is refused comes back at its proposer's lowest ballot above the
   number it was refused with, whatever gap lies between; and whoever refused it
   promises then, if nobody else has come in between.
   */
  lemma ScoutRetry(n: nat, steps: seq<Step>, p: nat, src: nat, nack: Ballot)
    requires Runs(Init(n), steps)
    requires var s := Final(Init(n), steps);
      Enabled(s, Receive(p, src, Nack(nack))) && s.procs[p].Scouting?
    ensures var s := Final(Init(n), steps);
      var t := Next(s, Receive(p, src, Nack(nack)));
      && p in t.procs && t.procs[p].Scouting? && t.procs[p].d == s.procs[p].d && t.procs[p].x == s.procs[p].x
      && var b' := t.procs[p].b;
         && b'.pid == p && Lt(nack, b') && Lt(s.procs[p].b, b')
         && (forall c: Ballot :: c.pid == p && c.n > nack.n ==> Le(b', c))
         && (src < |t.acc| && t.acc[src].bal == Value(nack) && !Before(t.procs[p].d, t.acc[src].start) ==>
               Positive(Answered(t.acc[src], Prepare(t.procs[p].d, b', t.procs[p].me)).1))
  {
    OwnBallotRefused(n, steps, p, src, nack);
  }

  /**
   A command that is refused comes back with the number it was refused with. That
   is above the refusing ballot, and answered by whoever refused, exactly when the
   pid is higher; and it is the ballot just used exactly when the numbers agree.
   */
  lemma CommandRetry(n: nat, steps: seq<Step>, p: nat, src: nat, nack: Ballot)
    requires Runs(Init(n), steps)
    requires var s := Final(Init(n), steps);
      Enabled(s, Receive(p, src, Nack(nack))) && s.procs[p].Commanding?
    ensures var s := Final(Init(n), steps);
      var t := Next(s, Receive(p, src, Nack(nack)));
      && p in t.procs && t.procs[p].Scouting? && t.procs[p].d == s.procs[p].d && t.procs[p].x == s.procs[p].x
      && var b' := t.procs[p].b;
         && b'.pid == p && Le(s.procs[p].b, b') && (Lt(nack, b') <==> nack.pid < p)
         && (b' == s.procs[p].b <==> ReusesBallot(s, Receive(p, src, Nack(nack))))
         && (src < |t.acc| && t.acc[src].bal == Value(nack) && !Before(t.procs[p].d, t.acc[src].start) ==>
               (Positive(Answered(t.acc[src], Prepare(t.procs[p].d, b', t.procs[p].me)).1) <==> nack.pid <= p))
  {
    OwnBallotRefused(n, steps, p, src, nack);
  }

  lemma OwnBallotRefused(n: nat, steps: seq<Step>, p: nat, src: nat, nack: Ballot)
    requires Runs(Init(n), steps) && Enabled(Final(Init(n), steps), Receive(p, src, Nack(nack)))
    ensures Final(Init(n), steps).procs[p].b.pid == p && Lt(Final(Init(n), steps).procs[p].b, nack)
  {
    RefusalIsAbove(n, steps, p, src, nack);
    RunAlways(Init(n), steps);
    var s := Final(Init(n), steps);
    assert AttemptOf(s, p, s.procs[p]);
  }

  // ---------------------------------------------------------------- rounds

  /** The request that a round sends. */
  function RequestOfRound(ph: Phase): (req: Request) {
    if ph.Scouting? then Prepare(ph.d, ph.b, ph.me) else Syn(ph.d, ph.b, ph.me, ph.y)
  }

  /** If the proposal of p has just opened a round, every acceptor is sent its request. */
  ghost predicate RoundSent(s: State, t: State, p: nat) {
    p in t.procs && t.procs[p].me == |s.atts| ==>
      Replies(t.procs[p]) == 0 && forall a: nat :: a < |s.acc| ==> Req(a, RequestOfRound(t.procs[p])) in t.net
  }

  lemma ScoutSent(s: State, q: nat, d: DecreeId, x: Choice, b: Ballot, p: nat)
    requires p in s.procs ==> s.procs[p].me < |s.atts|
    ensures RoundSent(s, StartScout(s, q, d, x, b), p)
  {
  }

  lemma CommandSent(s: State, q: nat, d: DecreeId, x: Choice, b: Ballot, y: Choice, p: nat)
    requires p in s.procs ==> s.procs[p].me < |s.atts|
    ensures RoundSent(s, StartCommand(s, q, d, x, b, y), p)
  {
  }

  lemma PromiseSent(s: State, q: nat, ph: Phase, src: nat, acks: seq<Ack>, p: nat)
    requires ph.Scouting? && ph.me < |s.atts| && (p in s.procs ==> s.procs[p].me < |s.atts|)
    ensures RoundSent(s, Promised(s, q, ph, src, acks), p)
  {
    var heard := [Heard(src, acks)] + ph.heard;
    if |heard| == Quorum(|s.acc|) {
      var best := ChooseVote(ph.d, Concat(heard));
      var y := if best == [] then ph.x else best[0].x;
      var prev := if best == [] then Bottom else Value(best[0].b);
      CommandSent(Record(s, ph.d, ph.b, y, Justification(Sources(heard), prev)), q, ph.d, ph.x, ph.b, y, p);
    }
  }

  lemma ReceiveSent(s0: State, q: nat, src: nat, rep: Reply, p: nat)
    requires Enabled(s0, Receive(q, src, rep)) && s0.procs[q].me < |s0.atts| && (p in s0.procs ==> s0.procs[p].me < |s0.atts|)
    ensures RoundSent(s0, Next(s0, Receive(q, src, rep)), p)
  {
    var ph := s0.procs[q];
    var s := s0.(net := s0.net - {Rep(src, ph.me, rep)});
    match rep
    case Nack(b) =>
      ScoutSent(s, q, ph.d, ph.x, if ph.Scouting? then NextAfterScout(ph.b, b) else NextAfterCommand(ph.b, b), p);
    case Promise(_, acks) => PromiseSent(s, q, ph, src, acks, p);
    case Accepted(_, _, _) =>
  }

  /**
   In every run, whenever a proposal opens a round, with a utility process of its
   own, every acceptor is sent its request.
   */
  lemma RoundsAreSent(n: nat, steps: seq<Step>, step: Step, p: nat)
    requires Runs(Init(n), steps) && Enabled(Final(Init(n), steps), step)
    ensures RoundSent(Final(Init(n), steps), Next(Final(Init(n), steps), step), p)
  {
    var s := Final(Init(n), steps);
    RunAlways(Init(n), steps);
    assert forall q :: q in s.procs ==> AttemptOf(s, q, s.procs[q]);
    match step
    case Propose(q, d, x) => ScoutSent(s.(asked := s.asked + {(d, x)}), q, d, x, Ballot(0, q), p);
    case Receive(q, src, rep) => ReceiveSent(s, q, src, rep, p);
    case Timeout(q) =>
      var ph := s.procs[q];
      if ph.Scouting? { ScoutSent(s, q, ph.d, ph.x, ph.b, p); } else { CommandSent(s, q, ph.d, ph.x, ph.b, ph.y, p); }
    case Handle(_, _) =>
    case Abandon(_) =>
    case Trim(_, _) =>
    case Restart(_) =>
  }

  /** After a timeout the same round is sent again, to be answered anew. */
  lemma TimeoutRepeats(s: State, p: nat)
    requires p in s.procs
    ensures var t := Next(s, Timeout(p));
      && p in t.procs && t.procs[p].me == |s.atts| && Replies(t.procs[p]) == 0
      && (forall a: nat :: a < |s.acc| ==> Req(a, RequestOfRound(t.procs[p])) in t.net)
      && RequestOfRound(t.procs[p].(me := s.procs[p].me)) == RequestOfRound(s.procs[p]) && t.procs[p].x == s.procs[p].x
  {
  }

  // ---------------------------------------------------------------- trims and votes

  function Later(c: DecreeId, d: DecreeId): (r: DecreeId) {
    if Before(c, d) then d else c
  }

  /** The highest decree acceptor a was told to trim below. */
  function HighestTrim(steps: seq<Step>, a: nat): (d: DecreeId) {
    if steps == [] then INITIAL_DECREE
    else
      var d := HighestTrim(steps[..|steps| - 1], a);
      var step := steps[|steps| - 1];
      if step.Trim? && step.a == a then Later(d, step.d) else d
  }

  /** It is one of them, and none is higher. */
  lemma {:induction false} HighestTrimIsHighest(steps: seq<Step>, a: nat)
    ensures forall i :: 0 <= i < |steps| && steps[i].Trim? && steps[i].a == a ==> !Before(HighestTrim(steps, a), steps[i].d)
    ensures HighestTrim(steps, a) == INITIAL_DECREE || Trim(a, HighestTrim(steps, a)) in steps
  {
    if steps != [] {
      var front := steps[..|steps| - 1];
      HighestTrimIsHighest(front, a);
      forall i | 0 <= i < |steps| && steps[i].Trim? && steps[i].a == a ensures !Before(HighestTrim(steps, a), steps[i].d) {
        if i < |front| { assert front[i] == steps[i]; }
      }
    }
  }

  /** The acceptor holds the decrees it has voted on, but for those trimmed, and each of its votes is one it cast. */
  ghost predicate AccFits(acc: Acceptor, a: nat, votes: set<Cast>) {
    && (forall d :: d in acc.store ==> !Before(d, acc.start) && Cast(a, d, acc.store[d].b, acc.store[d].x) in votes)
    && (forall v :: v in votes && v.a == a && !Before(v.d, acc.start) ==> v.d in acc.store)
  }

  /** Moreover the stored vote is the highest, and no higher than the ballot. */
  ghost predicate AccHighest(acc: Acceptor, a: nat, votes: set<Cast>) {
    && (forall v :: v in votes && v.a == a ==> LiftedLe(Value(v.b), acc.bal))
    && (forall v :: v in votes && v.a == a && v.d in acc.store ==> Le(v.b, acc.store[v.d].b))
  }

  ghost predicate StoreFits(s: State, a: nat)
    requires a < |s.acc|
  {
    AccFits(s.acc[a], a, s.votes)
  }

  ghost predicate StoreHighest(s: State, a: nat)
    requires a < |s.acc|
  {
    AccHighest(s.acc[a], a, s.votes)
  }

  /** Steps of proposers touch no acceptor and cast no vote. */
  lemma ProposerStep(s: State, step: Step)
    requires Enabled(s, step) && !step.Handle? && !step.Trim? && !step.Restart?
    ensures Next(s, step).acc == s.acc && Next(s, step).votes == s.votes
  {
  }

  /** A vote on top of the others, at or above the acceptor's ballot. */
  lemma VoteFits(acc: Acceptor, acc': Acceptor, a: nat, votes: set<Cast>, d: DecreeId, b: Ballot, x: Choice)
    requires AccFits(acc, a, votes) && LiftedLe(acc.bal, Value(b)) && !Before(d, acc.start)
    requires acc'.start == acc.start && acc'.bal == Value(b) && acc'.store == acc.store[d := Vote(b, x)]
    ensures AccFits(acc', a, votes + {Cast(a, d, b, x)})
    ensures AccHighest(acc, a, votes) ==> AccHighest(acc', a, votes + {Cast(a, d, b, x)})
  {
  }

  lemma HandleFits(s: State, c: nat, req: Request, a: nat)
    requires c < |s.acc| && a < |s.acc| && StoreFits(s, a)
    ensures StoreFits(Handled(s, c, req), a) && Handled(s, c, req).acc[a].start == s.acc[a].start
    ensures StoreHighest(s, a) ==> StoreHighest(Handled(s, c, req), a)
  {
    var t := Handled(s, c, req);
    if c == a && t.votes != s.votes {
      VoteFits(s.acc[a], t.acc[a], a, s.votes, req.d, req.b, req.x);
      assert t.votes == s.votes + {Cast(a, req.d, req.b, req.x)};
    } else if c != a {
      assert t.acc[a] == s.acc[a] && forall v :: v in t.votes && v.a == a ==> v in s.votes;
    } else {
      RequestWithoutVote(s, a, req);
    }
  }

  lemma RequestWithoutVote(s: State, a: nat, req: Request)
    requires a < |s.acc| && Handled(s, a, req).votes == s.votes && StoreFits(s, a)
    ensures var t := Handled(s, a, req);
      && t.acc[a].start == s.acc[a].start && StoreFits(t, a) && LiftedLe(s.acc[a].bal, t.acc[a].bal)
      && (StoreHighest(s, a) ==> StoreHighest(t, a))
  {
  }

  lemma TrimFits(s: State, c: nat, d: DecreeId, a: nat)
    requires c < |s.acc| && a < |s.acc| && StoreFits(s, a)
    ensures var t := Next(s, Trim(c, d));
      && StoreFits(t, a) && t.acc[a].start == (if c == a then Later(s.acc[a].start, d) else s.acc[a].start)
      && (StoreHighest(s, a) ==> StoreHighest(t, a))
  {
  }

  lemma RestartFits(s: State, c: nat, a: nat)
    requires c < |s.acc| && a < |s.acc| && StoreFits(s, a)
    ensures var t := Next(s, Restart(c));
      && StoreFits(t, a) && t.acc[a].start == s.acc[a].start
      && (StoreHighest(s, a) && !ForgetsPromise(s, Restart(c)) ==> StoreHighest(t, a))
  {
  }

  lemma StepFits(s: State, step: Step, a: nat)
    requires Enabled(s, step) && a < |s.acc| && StoreFits(s, a)
    ensures |Next(s, step).acc| == |s.acc| && StoreFits(Next(s, step), a)
    ensures Next(s, step).acc[a].start == if step.Trim? && step.a == a then Later(s.acc[a].start, step.d) else s.acc[a].start
    ensures StoreHighest(s, a) && !ForgetsPromise(s, step) ==> StoreHighest(Next(s, step), a)
  {
    if step.Handle? {
      HandleFits(s, step.a, step.req, a);
    } else if step.Trim? {
      TrimFits(s, step.a, step.d, a);
    } else if step.Restart? {
      RestartFits(s, step.a, a);
    } else {
      ProposerStep(s, step);
    }
  }

  /** A run is its last step after the run before it. */
  lemma {:induction false} LastStep(s: State, steps: seq<Step>)
    requires Runs(s, steps) && steps != []
    ensures var front := steps[..|steps| - 1];
      && Runs(s, front) && Enabled(Final(s, front), steps[|steps| - 1])
      && Final(s, steps) == Next(Final(s, front), steps[|steps| - 1])
    decreases |steps|
  {
    var front := steps[..|steps| - 1];
    if |steps| == 1 {
      assert front == [] && Runs(Next(s, steps[0]), steps[1..]);
    } else {
      LastStep(Next(s, steps[0]), steps[1..]);
      assert front[0] == steps[0] && front[1..] == steps[1..][..|steps| - 2];
    }
  }

  lemma {:induction false} LastAllowed(s: State, steps: seq<Step>, mode: Mode)
    requires Runs(s, steps) && steps != [] && AllAllowed(s, steps, mode)
    ensures var front := steps[..|steps| - 1];
      Runs(s, front) && AllAllowed(s, front, mode) && Allowed(Final(s, front), steps[|steps| - 1], mode)
    decreases |steps|
  {
    var front := steps[..|steps| - 1];
    LastStep(s, steps);
    if |steps| == 1 {
      assert front == [];
    } else {
      LastAllowed(Next(s, steps[0]), steps[1..], mode);
      assert front[0] == steps[0] && front[1..] == steps[1..][..|steps| - 2];
    }
  }

  /** No step of the run forgets a promise. */
  ghost predicate Remembers(n: nat, steps: seq<Step>)
    requires Runs(Init(n), steps)
  {
    exists mode: Mode :: !mode.forget && AllAllowed(Init(n), steps, mode)
  }

  lemma FrontRemembers(n: nat, steps: seq<Step>)
    requires Runs(Init(n), steps) && steps != [] && Remembers(n, steps)
    ensures var front := steps[..|steps| - 1];
      Runs(Init(n), front) && Remembers(n, front) && !ForgetsPromise(Final(Init(n), front), steps[|steps| - 1])
  {
    var mode: Mode :| !mode.forget && AllAllowed(Init(n), steps, mode);
    LastAllowed(Init(n), steps, mode);
  }

  /** A run without restarts is one. */
  lemma NoRestartsRemember(n: nat, steps: seq<Step>)
    requires Runs(Init(n), steps) && NoRestarts(steps)
    ensures Remembers(n, steps)
  {
    NothingForgotten(Init(n), steps);
    assert !Mode(true, false, true).forget;
  }

  lemma {:induction false} NothingForgotten(s: State, steps: seq<Step>)
    requires Runs(s, steps) && NoRestarts(steps)
    ensures AllAllowed(s, steps, Mode(true, false, true))
    decreases |steps|
  {
    if steps != [] { NothingForgotten(Next(s, steps[0]), steps[1..]); }
  }

  /** In every run an acceptor has trimmed exactly up to the highest decree it was told to. */
  lemma {:induction false} StoreHistory(n: nat, steps: seq<Step>, a: nat)
    requires Runs(Init(n), steps) && a < n
    ensures var s := Final(Init(n), steps);
      && |s.acc| == n && s.acc[a].start == HighestTrim(steps, a) && StoreFits(s, a)
      && (Remembers(n, steps) ==> StoreHighest(s, a))
    decreases |steps|
  {
    if steps != [] {
      var front := steps[..|steps| - 1];
      LastStep(Init(n), steps);
      StoreHistory(n, front, a);
      StepFits(Final(Init(n), front), steps[|steps| - 1], a);
      if Remembers(n, steps) { FrontRemembers(n, steps); }
    }
  }

  /**
   In every run an acceptor holds a decree exactly when it has voted on it and was
   not told to trim it; what it holds is a vote it cast, and the highest one if no
   step forgot a promise.
   */
  lemma HoldsExactly(n: nat, steps: seq<Step>, a: nat, d: DecreeId)
    requires Runs(Init(n), steps) && a < n
    ensures var s := Final(Init(n), steps);
      && |s.acc| == n && s.acc[a].start == HighestTrim(steps, a)
      && (d in s.acc[a].store <==> !Before(d, HighestTrim(steps, a)) && exists v :: v in s.votes && v.a == a && v.d == d)
      && (d in s.acc[a].store ==> Cast(a, d, s.acc[a].store[d].b, s.acc[a].store[d].x) in s.votes)
      && (d in s.acc[a].store && Remembers(n, steps) ==>
            forall v :: v in s.votes && v.a == a && v.d == d ==> Le(v.b, s.acc[a].store[d].b))
  {
    StoreHistory(n, steps, a);
  }

  /** A promise reports nothing exactly when its sender has not voted on the decree, and otherwise one vote it cast, its highest if no step forgot a promise. */
  lemma PromiseReports(n: nat, steps: seq<Step>, a: nat, d: DecreeId, b: Ballot, to: nat)
    requires Runs(Init(n), steps) && a < n
    ensures var s := Final(Init(n), steps);
      && |s.acc| == n
      && var answer := Answered(s.acc[a], Prepare(d, b, to)).1;
         answer.Answer? && answer.rep.Promise? ==>
           && answer.rep.b == b && |answer.rep.acks| <= 1
           && (answer.rep.acks == [] <==> forall v :: v in s.votes && v.a == a ==> v.d != d)
           && (forall k :: k in answer.rep.acks ==> k.d == d && Cast(a, d, k.b, k.x) in s.votes)
           && (forall k, v :: k in answer.rep.acks && Remembers(n, steps) && v in s.votes && v.a == a && v.d == d ==> Le(v.b, k.b))
  {
    HoldsExactly(n, steps, a, d);
  }
}
