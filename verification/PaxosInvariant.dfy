/**
 What every clean step of a run keeps.

 A step is clean unless it is one of the three on which the code gives up what
 Paxos needs: a command refused by a ballot with the very number it was using,
 in a group where a majority can do without the acceptor that refused; the
 restart of an acceptor whose stored ballot is behind the one it had promised;
 or the interruption of a proposal by a proposer that has put a value forward
 for the decree, as its next proposal starts from the lowest ballot again.
 */
module PaxosInvariant {
  import opened Ballots
  import opened PaxosModel

  // ---------------------------------------------------------------- clean steps

  predicate ReusesBallot(s: State, step: Step) {
    && step.Receive? && step.p in s.procs
    && s.procs[step.p].Commanding? && step.rep.Nack?
    && step.rep.b.n == s.procs[step.p].b.n
  }

  predicate ForgetsPromise(s: State, step: Step) {
    step.Restart? && step.a < |s.acc| && s.acc[step.a].disk != s.acc[step.a].bal
  }

  predicate ForgetsSyn(s: State, step: Step) {
    && step.Abandon? && step.p in s.procs
    && exists k :: k in s.syns && k.b.pid == step.p && k.d == s.procs[step.p].d
  }

  predicate Clean(s: State, step: Step) {
    (ReusesBallot(s, step) ==> |s.acc| <= 2) && !ForgetsPromise(s, step) && !ForgetsSyn(s, step)
  }

  ghost predicate CleanRun(s: State, steps: seq<Step>)
    requires Runs(s, steps)
    decreases |steps|
  {
    steps == [] || (Clean(s, steps[0]) && CleanRun(Next(s, steps[0]), steps[1..]))
  }

  // ---------------------------------------------------------------- the invariant, in parts

  predicate AtLeast(s: State, a: nat, b: Ballot) {
    a < |s.acc| && LiftedLe(Value(b), s.acc[a].bal)
  }

  predicate AttemptOf(s: State, p: nat, ph: Phase) {
    && ph.me < |s.atts| && ph.b.pid == p
    && s.atts[ph.me] == if ph.Scouting? then Scout(p, ph.d, ph.b) else Command(p, ph.d, ph.b, ph.y)
  }

  predicate RequestOf(s: State, a: nat, req: Request) {
    && a < |s.acc| && req.to < |s.atts|
    && var at := s.atts[req.to];
       match req
       case Prepare(d, b, _) => at.Scout? && at.d == d && at.b == b
       case Syn(d, b, _, x) => at.Command? && at.d == d && at.b == b && at.x == x
  }

  predicate ReplyOf(s: State, src: nat, to: nat, rep: Reply) {
    && src < |s.acc| && to < |s.atts|
    && (rep.Promise? ==> s.atts[to].Scout?)
    && (rep.Accepted? ==> s.atts[to].Command?)
  }

  /** Packets and proposals refer to the utility process they were made for. */
  ghost predicate Shape(s: State) {
    && (forall p :: p in s.procs ==> AttemptOf(s, p, s.procs[p]) && (s.procs[p].d, s.procs[p].x) in s.asked)
    && (forall a: nat, req :: Req(a, req) in s.net ==> RequestOf(s, a, req))
    && (forall src: nat, to: nat, rep :: Rep(src, to, rep) in s.net ==> ReplyOf(s, src, to, rep))
    && (forall i :: 0 <= i < |s.atts| ==> s.atts[i].b.pid == s.atts[i].p)
    && (forall i :: 0 <= i < |s.atts| && s.atts[i].Command? ==>
          Ack(s.atts[i].d, s.atts[i].b, s.atts[i].x) in s.syns)
  }

  function Sender(ph: Phase, i: nat): (a: nat)
    requires i < if ph.Scouting? then |ph.heard| else |ph.heardFrom|
  {
    if ph.Scouting? then ph.heard[i].src else ph.heardFrom[i]
  }

  function Replies(ph: Phase): (k: nat) {
    if ph.Scouting? then |ph.heard| else |ph.heardFrom|
  }

  /** No acceptor answers one utility process twice, so counting replies counts acceptors. */
  ghost predicate Tokens(s: State) {
    && (forall a: nat, req, rep :: Req(a, req) in s.net ==> Rep(a, req.to, rep) !in s.net)
    && (forall a: nat, to: nat, r1, r2 :: Rep(a, to, r1) in s.net && Rep(a, to, r2) in s.net ==> r1 == r2)
    && (forall p, i :: p in s.procs && 0 <= i < Replies(s.procs[p]) ==>
          TokenSpent(s, Sender(s.procs[p], i), s.procs[p].me))
    && (forall p :: p in s.procs ==> Distinct(s.procs[p]))
  }

  ghost predicate TokenSpent(s: State, a: nat, me: nat) {
    && a < |s.acc|
    && (forall req: Request :: req.to == me ==> Req(a, req) !in s.net)
    && (forall rep :: Rep(a, me, rep) !in s.net)
  }

  predicate Distinct(ph: Phase) {
    forall i, j :: 0 <= i < j < Replies(ph) ==> Sender(ph, i) != Sender(ph, j)
  }

  /** An acceptor's memory against the votes it has cast. */
  ghost predicate Memory(s: State) {
    && (forall v :: v in s.votes ==> VoteKept(s, v))
    && (forall a, d :: 0 <= a < |s.acc| && d in s.acc[a].store ==>
          Cast(a, d, s.acc[a].store[d].b, s.acc[a].store[d].x) in s.votes)
  }

  predicate VoteKept(s: State, v: Cast) {
    && AtLeast(s, v.a, v.b)
    && Ack(v.d, v.b, v.x) in s.syns
    && (Before(v.d, s.acc[v.a].start)
        || (v.d in s.acc[v.a].store && Le(v.b, s.acc[v.a].store[v.d].b)))
  }

  /** A promise reports a vote of its sender, the highest below its ballot that it has cast or will ever cast. */
  ghost predicate PromiseOk(s: State, src: nat, d: DecreeId, b: Ballot, acks: seq<Ack>) {
    && AtLeast(s, src, b)
    && |acks| <= 1
    && (acks != [] ==> acks[0].d == d && Le(acks[0].b, b) && acks[0] in s.syns)
    && (acks != [] ==> Cast(src, d, acks[0].b, acks[0].x) in s.votes)
    && (forall v :: v in s.votes && v.a == src && v.d == d && Lt(v.b, b) ==>
          acks != [] && Le(v.b, acks[0].b))
  }

  ghost predicate ReplyOk(s: State, src: nat, to: nat, rep: Reply)
    requires to < |s.atts|
  {
    var at := s.atts[to];
    match rep
    case Promise(_, acks) => PromiseOk(s, src, at.d, at.b, acks)
    case Nack(b) => AtLeast(s, src, b) && Lt(at.b, b)
    case Accepted(_, _, _) => at.Command? && Cast(src, at.d, at.b, at.x) in s.votes
  }

  ghost predicate HeardOk(s: State, ph: Phase, i: nat)
    requires i < Replies(ph)
  {
    if ph.Scouting? then PromiseOk(s, ph.heard[i].src, ph.d, ph.b, ph.heard[i].acks)
    else Cast(ph.heardFrom[i], ph.d, ph.b, ph.y) in s.votes
  }

  ghost predicate Answers(s: State) {
    && (forall src: nat, to: nat, rep :: Rep(src, to, rep) in s.net && to < |s.atts| ==> ReplyOk(s, src, to, rep))
    && (forall p, i :: p in s.procs && 0 <= i < Replies(s.procs[p]) ==> HeardOk(s, s.procs[p], i))
  }

  /** Lamport's B3 for one value put forward: its majority voted below it only for the same value, or not at all. */
  ghost predicate Justified(s: State, k: Ack, j: Justification) {
    && j.quorum <= Below(|s.acc|) && |j.quorum| >= Quorum(|s.acc|)
    && (forall a :: a in j.quorum ==> AtLeast(s, a, k.b))
    && (k.d, k.x) in s.asked
    && (j.prev.Value? ==> Lt(j.prev.b, k.b) && Ack(k.d, j.prev.b, k.x) in s.syns)
    && (forall v :: v in s.votes && v.a in j.quorum && v.d == k.d && Lt(v.b, k.b) ==>
          j.prev.Value? && Le(v.b, j.prev.b))
  }

  ghost predicate Forward(s: State) {
    && (forall k :: k in s.syns ==> Justified(s, k, s.syns[k]))
    && (forall k1, k2 :: k1 in s.syns && k2 in s.syns && k1.d == k2.d && k1.b == k2.b ==> k1 == k2)
  }

  ghost predicate Settled(s: State) {
    forall q :: q in s.decided ==>
      && q.quorum <= Below(|s.acc|) && |q.quorum| >= Quorum(|s.acc|) && q.b.pid == q.p
      && (forall a :: a in q.quorum ==> Cast(a, q.d, q.b, q.x) in s.votes)
  }

  /** Acceptor a has a promise to utility process `me` on its way or counted. */
  ghost predicate HasPromised(s: State, ph: Phase, a: nat, acks: seq<Ack>) {
    || (exists b :: Rep(a, ph.me, Promise(b, acks)) in s.net)
    || (ph.Scouting? && Heard(a, acks) in ph.heard)
  }

  /** Some acceptor of a group of at most two refuses the ballot in use for good. */
  ghost predicate Blocked(s: State, ph: Phase) {
    |s.acc| <= 2 &&
    exists a :: 0 <= a < |s.acc| && Refuses(s, ph, a)
  }

  ghost predicate Refuses(s: State, ph: Phase, a: nat)
    requires a < |s.acc|
  {
    && LiftedLt(Value(ph.b), s.acc[a].bal)
    && (forall acks :: !HasPromised(s, ph, a, acks))
  }

  ghost predicate Finished(s: State, p: nat, d: DecreeId, b: Ballot) {
    exists q :: q in s.decided && q.p == p && q.d == d && Le(b, q.b)
  }

  /** A proposer's earlier Syns are below its present ballot, or belong to a finished proposal, or are blocked. */
  ghost predicate OwnSyn(s: State, p: nat, k: Ack) {
    || Finished(s, p, k.d, k.b)
    || (&& p in s.procs && s.procs[p].d == k.d
        && var ph := s.procs[p];
           || Lt(k.b, ph.b)
           || (k.b == ph.b && (ph.Commanding? || Blocked(s, ph))))
  }

  ghost predicate Fresh(s: State) {
    forall k :: k in s.syns ==> OwnSyn(s, k.b.pid, k)
  }

  /** A proposer that starts over on a decree it has finished hears nothing, or hears its own value. */
  ghost predicate StartsOver(s: State, ph: Phase, q: Decision) {
    forall a: nat, acks: seq<Ack> :: a in q.quorum && HasPromised(s, ph, a, acks) ==>
      && !Lt(ph.b, q.b)
      && (ph.b == q.b ==> acks != [] && acks[0].b == q.b)
  }

  ghost predicate Again(s: State) {
    forall p, q :: p in s.procs && s.procs[p].Scouting? && q in s.decided && q.p == p && q.d == s.procs[p].d ==>
      StartsOver(s, s.procs[p], q)
  }

  ghost predicate Inv(s: State) {
    Shape(s) && Tokens(s) && Memory(s) && Answers(s) && Forward(s) && Settled(s) && Fresh(s) && Again(s)
  }
}
