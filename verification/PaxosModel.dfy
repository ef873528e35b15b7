/**
 Basic Paxos as the Haskell code runs it: acceptors, the scout and command
 rounds of a proposer, and the proposer's retry loop, joined by a network that
 may lose, delay and reorder packets but does not duplicate them.

 A run is a sequence of steps from the initial state of a group of n acceptors.
 Any pid may propose, any number of times, one proposal at a time; a proposal
 may be interrupted.
 */
module PaxosModel {
  import opened Ballots

  type Choice = int

  /** A vote as it travels in promises and acknowledgements. */
  datatype Ack = Ack(d: DecreeId, b: Ballot, x: Choice)
  datatype Vote = Vote(b: Ballot, x: Choice)

  /** `start` is the first decree not trimmed, `bal` the ballot held in memory, `disk` the ballot put in the store. */
  datatype Acceptor = Acceptor(start: DecreeId, bal: Lifted, disk: Lifted, store: map<DecreeId, Vote>)

  /** Requests name the utility process, `to`, that waits for the reply. */
  datatype Request =
    | Prepare(d: DecreeId, b: Ballot, to: nat)
    | Syn(d: DecreeId, b: Ballot, to: nat, x: Choice)

  datatype Reply =
    | Promise(b: Ballot, acks: seq<Ack>)
    | Nack(b: Ballot)
    | Accepted(d: DecreeId, b: Ballot, x: Choice)

  datatype Packet =
    | Req(a: nat, req: Request)
    | Rep(src: nat, to: nat, rep: Reply)

  /** What each utility process was started for; its pid is its index in the list of all of them. */
  datatype Attempt =
    | Scout(p: nat, d: DecreeId, b: Ballot)
    | Command(p: nat, d: DecreeId, b: Ballot, x: Choice)

  datatype Heard = Heard(src: nat, acks: seq<Ack>)

  /** Where a proposal stands; `x` is the value its caller asked for. */
  datatype Phase =
    | Scouting(d: DecreeId, x: Choice, b: Ballot, me: nat, heard: seq<Heard>)
    | Commanding(d: DecreeId, x: Choice, b: Ballot, me: nat, y: Choice, heardFrom: seq<nat>)

  /** The majority that promised when a value was put forward, and the highest vote it reported. */
  datatype Justification = Justification(quorum: set<nat>, prev: Lifted)

  datatype Cast = Cast(a: nat, d: DecreeId, b: Ballot, x: Choice)
  datatype Decision = Decision(p: nat, d: DecreeId, b: Ballot, x: Choice, quorum: set<nat>)

  /**
   The first four fields are the state of the system. The rest is its history:
   every Syn sent with what justified it, every vote ever cast, every value
   asked for, and every value a proposal returned.
   */
  datatype State = State(
    acc: seq<Acceptor>,
    procs: map<nat, Phase>,
    net: set<Packet>,
    atts: seq<Attempt>,
    syns: map<Ack, Justification>,
    votes: set<Cast>,
    asked: set<(DecreeId, Choice)>,
    decided: set<Decision>)

  datatype Step =
    | Propose(p: nat, d: DecreeId, x: Choice)
    | Handle(a: nat, req: Request)
    | Receive(p: nat, src: nat, rep: Reply)
    | Timeout(p: nat)
    | Abandon(p: nat)
    | Trim(a: nat, d: DecreeId)
    | Restart(a: nat)

  // ---------------------------------------------------------------- acceptor

  datatype Answer = Silence | Answer(rep: Reply)

  function Lookup(store: map<DecreeId, Vote>, d: DecreeId): (acks: seq<Ack>) {
    if d in store then [Ack(d, store[d].b, store[d].x)] else []
  }

  /**
   One turn of the acceptor loop. A positive answer to a Prepare raises the
   ballot in memory only; a Syn writes the ballot to the store when it is
   strictly above the one in memory, and then stores the vote.
   */
  function Answered(a: Acceptor, req: Request): (r: (Acceptor, Answer)) {
    if Before(req.d, a.start) then (a, Silence)
    else if LiftedLe(a.bal, Value(req.b)) then
      match req
      case Prepare(d, b, _) =>
        (a.(bal := Value(b)), Answer(Promise(b, Lookup(a.store, d))))
      case Syn(d, b, _, x) =>
        (a.(bal := Value(b),
            disk := if LiftedLt(a.bal, Value(b)) then Value(b) else a.disk,
            store := a.store[d := Vote(b, x)]),
         Answer(Accepted(d, b, x)))
    else
      (a, Answer(Nack(a.bal.b)))
  }

  function Trimmed(a: Acceptor, d: DecreeId): (r: Acceptor) {
    a.(start := if Before(a.start, d) then d else a.start,
       store := map c | c in a.store && !Before(c, d) :: a.store[c])
  }

  /** A restarted acceptor reads its ballot back from the store. */
  function Restarted(a: Acceptor): (r: Acceptor) {
    a.(bal := a.disk)
  }

  // ---------------------------------------------------------------- proposer

  /** The last of the highest-ballot votes for decree d, scanning from the left with `best` in hand. */
  function HighestFrom(d: DecreeId, acks: seq<Ack>, best: seq<Ack>): (r: seq<Ack>)
    requires |best| <= 1
    decreases |acks|
    ensures |r| <= 1
  {
    if acks == [] then best
    else if acks[0].d == d && (best == [] || Le(best[0].b, acks[0].b))
    then HighestFrom(d, acks[1..], [acks[0]])
    else HighestFrom(d, acks[1..], best)
  }

  /** At most one vote: the one whose value a scout must put forward. */
  function ChooseVote(d: DecreeId, acks: seq<Ack>): (r: seq<Ack>)
    ensures |r| <= 1
  {
    HighestFrom(d, acks, [])
  }

  function Concat(heard: seq<Heard>): (acks: seq<Ack>) {
    if heard == [] then [] else heard[0].acks + Concat(heard[1..])
  }

  function Sources(heard: seq<Heard>): (s: set<nat>) {
    set i | 0 <= i < |heard| :: heard[i].src
  }

  function SeqSet(s: seq<nat>): (r: set<nat>) {
    set i | 0 <= i < |s| :: s[i]
  }

  function Prepares(n: nat, d: DecreeId, b: Ballot, to: nat): (r: set<Packet>) {
    set a | a in Below(n) :: Req(a, Prepare(d, b, to))
  }

  function Syns(n: nat, d: DecreeId, b: Ballot, to: nat, y: Choice): (r: set<Packet>) {
    set a | a in Below(n) :: Req(a, Syn(d, b, to, y))
  }

  function StartScout(s: State, p: nat, d: DecreeId, x: Choice, b: Ballot): (r: State) {
    s.(procs := s.procs[p := Scouting(d, x, b, |s.atts|, [])],
       net := s.net + Prepares(|s.acc|, d, b, |s.atts|),
       atts := s.atts + [Scout(p, d, b)])
  }

  function StartCommand(s: State, p: nat, d: DecreeId, x: Choice, b: Ballot, y: Choice): (r: State) {
    s.(procs := s.procs[p := Commanding(d, x, b, |s.atts|, y, [])],
       net := s.net + Syns(|s.acc|, d, b, |s.atts|, y),
       atts := s.atts + [Command(p, d, b, y)])
  }

  /** The history entry for putting y forward: a value sent before keeps its first justification. */
  function Record(s: State, d: DecreeId, b: Ballot, y: Choice, j: Justification): (r: State) {
    if Ack(d, b, y) in s.syns then s else s.(syns := s.syns[Ack(d, b, y) := j])
  }

  /** The ballot tried after a scout was refused. */
  function NextAfterScout(b: Ballot, nack: Ballot): (r: Ballot) {
    if Lt(b, nack) then Ballot(nack.n + 1, b.pid) else b
  }

  /** The ballot tried after a command was refused: the number is copied, not increased. */
  function NextAfterCommand(b: Ballot, nack: Ballot): (r: Ballot) {
    Ballot(nack.n, b.pid)
  }

  function Promised(s: State, p: nat, ph: Phase, src: nat, acks: seq<Ack>): (r: State)
    requires ph.Scouting?
  {
    var heard := [Heard(src, acks)] + ph.heard;
    if |heard| == Quorum(|s.acc|) then
      var best := ChooseVote(ph.d, Concat(heard));
      var y := if best == [] then ph.x else best[0].x;
      var prev := if best == [] then Bottom else Value(best[0].b);
      StartCommand(Record(s, ph.d, ph.b, y, Justification(Sources(heard), prev)), p, ph.d, ph.x, ph.b, y)
    else s.(procs := s.procs[p := ph.(heard := heard)])
  }

  function Acknowledged(s: State, p: nat, ph: Phase, src: nat): (r: State)
    requires ph.Commanding?
  {
    var heard := [src] + ph.heardFrom;
    if |heard| == Quorum(|s.acc|)
    then s.(procs := s.procs - {p},
            decided := s.decided + {Decision(p, ph.d, ph.b, ph.y, SeqSet(heard))})
    else s.(procs := s.procs[p := ph.(heardFrom := heard)])
  }

  // ---------------------------------------------------------------- the system

  function Init(n: nat): (s: State) {
    State(seq(n, _ => Acceptor(INITIAL_DECREE, Bottom, Bottom, map[])), map[], {}, [], map[], {}, {}, {})
  }

  predicate Fits(ph: Phase, rep: Reply) {
    rep.Nack? || (ph.Scouting? && rep.Promise?) || (ph.Commanding? && rep.Accepted?)
  }

  predicate Enabled(s: State, step: Step) {
    match step
    case Propose(p, d, x) => p !in s.procs
    case Handle(a, req) => a < |s.acc| && Req(a, req) in s.net
    case Receive(p, src, rep) => p in s.procs && Rep(src, s.procs[p].me, rep) in s.net && Fits(s.procs[p], rep)
    case Timeout(p) => p in s.procs
    case Abandon(p) => p in s.procs
    case Trim(a, d) => a < |s.acc|
    case Restart(a) => a < |s.acc|
  }

  function Handled(s: State, a: nat, req: Request): (r: State)
    requires a < |s.acc|
  {
    var (acc', answer) := Answered(s.acc[a], req);
    var net := s.net - {Req(a, req)};
    s.(acc := s.acc[a := acc'],
       net := if answer.Silence? then net else net + {Rep(a, req.to, answer.rep)},
       votes := if answer.Answer? && answer.rep.Accepted? && req.Syn?
                then s.votes + {Cast(a, req.d, req.b, req.x)} else s.votes)
  }

  function Received(s0: State, p: nat, src: nat, rep: Reply): (r: State)
    requires p in s0.procs && Fits(s0.procs[p], rep)
  {
    var ph := s0.procs[p];
    var s := s0.(net := s0.net - {Rep(src, ph.me, rep)});
    match rep
    case Nack(b) =>
      StartScout(s, p, ph.d, ph.x,
                 if ph.Scouting? then NextAfterScout(ph.b, b) else NextAfterCommand(ph.b, b))
    case Promise(_, acks) => Promised(s, p, ph, src, acks)
    case Accepted(_, _, _) => Acknowledged(s, p, ph, src)
  }

  function TimedOut(s: State, p: nat): (r: State)
    requires p in s.procs
  {
    var ph := s.procs[p];
    if ph.Scouting? then StartScout(s, p, ph.d, ph.x, ph.b)
    else StartCommand(s, p, ph.d, ph.x, ph.b, ph.y)
  }

  /** A proposal is interrupted; its process lives on and may propose again. */
  function Abandoned(s: State, p: nat): (r: State) {
    s.(procs := s.procs - {p})
  }

  function Next(s: State, step: Step): (r: State)
    requires Enabled(s, step)
  {
    match step
    case Propose(p, d, x) =>
      StartScout(s.(asked := s.asked + {(d, x)}), p, d, x, Ballot(0, p))
    case Handle(a, req) => Handled(s, a, req)
    case Receive(p, src, rep) => Received(s, p, src, rep)
    case Timeout(p) => TimedOut(s, p)
    case Abandon(p) => Abandoned(s, p)
    case Trim(a, d) => s.(acc := s.acc[a := Trimmed(s.acc[a], d)])
    case Restart(a) => s.(acc := s.acc[a := Restarted(s.acc[a])])
  }

  ghost predicate Runs(s: State, steps: seq<Step>)
    decreases |steps|
  {
    steps == [] || (Enabled(s, steps[0]) && Runs(Next(s, steps[0]), steps[1..]))
  }

  ghost function Final(s: State, steps: seq<Step>): (r: State)
    requires Runs(s, steps)
    decreases |steps|
  {
    if steps == [] then s else Final(Next(s, steps[0]), steps[1..])
  }

  /** What the protocol is for: proposals of one decree never return two values. */
  predicate Agreement(s: State) {
    forall d1, d2 :: d1 in s.decided && d2 in s.decided && d1.d == d2.d ==> d1.x == d2.x
  }
}
