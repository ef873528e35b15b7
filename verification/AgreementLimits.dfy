/**
 Exactly which groups agree in every run.

 The code reuses a ballot when a command is refused by a ballot of the same
 number; with three or more acceptors that is enough for two proposals of one
 decree to return different values. It does not store the ballot it promises,
 and it starts every proposal from the lowest ballot; restarts, or interrupted
 proposals, are enough for any group with an acceptor in it.
 */
module AgreementLimits {
  import opened Ballots
  import opened PaxosModel
  import opened PaxosInvariant
  import opened PaxosSafety
  import opened PaxosMoves

  const D := INITIAL_DECREE
  const B0 := Ballot(0, 0)
  const B1 := Ballot(0, 1)
  const B2 := Ballot(0, 2)

  // ---------------------------------------------------------------- whole rounds

  ghost predicate SentTo(s: State, req: Request, lo: nat, hi: nat) {
    forall a :: lo <= a < hi ==> Req(a, req) in s.net
  }

  /** Acceptors in the range have trimmed nothing and would accept ballot b. */
  ghost predicate Ready(s: State, lo: nat, hi: nat, b: Ballot) {
    hi <= |s.acc| && forall a :: lo <= a < hi ==> s.acc[a].start == D && LiftedLe(s.acc[a].bal, Value(b))
  }

  /** Requests survive, except those addressed on behalf of `to`. */
  ghost predicate KeepsRequests(s: State, t: State, to: nat) {
    forall pk :: pk in s.net && pk.Req? && pk.req.to != to ==> pk in t.net
  }

  /** Replies survive, except those addressed to `to`. */
  ghost predicate KeepsReplies(s: State, t: State, to: nat) {
    forall pk :: pk in s.net && pk.Rep? && pk.to != to ==> pk in t.net
  }

  lemma OpenProposal(s: State, p: nat, x: Choice, mode: Mode, d: DecreeId := D) returns (t: State)
    requires p !in s.procs
    ensures Reaches(s, t, mode) && t.acc == s.acc && t.decided == s.decided && |t.atts| == |s.atts| + 1
    ensures t.procs == s.procs[p := Scouting(d, x, Ballot(0, p), |s.atts|, [])]
    ensures SentTo(t, Prepare(d, Ballot(0, p), |s.atts|), 0, |s.acc|) && s.net <= t.net
  {
    t := Next(s, Propose(p, d, x));
    ReachesStep(s, Propose(p, d, x), mode);
  }

  ghost predicate Raised(s: State, t: State, lo: nat, hi: nat, b: Ballot) {
    && |t.acc| == |s.acc|
    && forall a :: 0 <= a < |s.acc| ==> t.acc[a] == if lo <= a < hi then s.acc[a].(bal := Value(b)) else s.acc[a]
  }

  lemma PromiseRange(s: State, b: Ballot, me: nat, lo: nat, hi: nat, mode: Mode, d: DecreeId := D)
    returns (t: State)
    requires lo <= hi && Ready(s, lo, hi, b) && SentTo(s, Prepare(d, b, me), lo, hi)
    ensures Reaches(s, t, mode) && Raised(s, t, lo, hi, b)
    ensures t.procs == s.procs && t.atts == s.atts && t.decided == s.decided
    ensures forall a :: lo <= a < hi ==> Rep(a, me, Promise(b, Lookup(s.acc[a].store, d))) in t.net
    ensures KeepsRequests(s, t, me) && forall pk :: pk in s.net && (pk.Rep? || pk.a < lo || hi <= pk.a) ==> pk in t.net
  {
    t := HandleRange(s, Prepare(d, b, me), lo, hi, mode);
    forall a | lo <= a < hi ensures Rep(a, me, Promise(b, Lookup(s.acc[a].store, d))) in t.net {
      assert Answered(s.acc[a], Prepare(d, b, me)).1.Answer?;
    }
  }

  ghost predicate Reports(s: State, lo: nat, hi: nat, v: Choice, top: Ballot, d: DecreeId := D) {
    hi <= |s.acc| && forall a :: lo <= a < hi ==> For(d, v, top, Lookup(s.acc[a].store, d))
  }

  ghost predicate GoesForward(s: State, t: State, p: nat, v: Choice) {
    && p in s.procs && t.decided == s.decided && |t.atts| == |s.atts| + 1
    && var ph := s.procs[p];
       && t.procs == s.procs[p := Commanding(ph.d, ph.x, ph.b, |s.atts|, v, [])]
       && SentTo(t, Syn(ph.d, ph.b, |s.atts|, v), 0, |s.acc|)
       && KeepsRequests(s, t, ph.me) && KeepsReplies(s, t, ph.me)
  }

  /** A majority in the range promises to p; what w reports settles on v: p puts v forward. */
  lemma ScoutMajority(s: State, p: nat, lo: nat, hi: nat, v: Choice, top: Ballot, w: nat, mode: Mode) returns (t: State)
    requires p in s.procs && s.procs[p].Scouting? && s.procs[p].heard == []
    requires lo + Quorum(|s.acc|) == hi && Ready(s, lo, hi, s.procs[p].b) && Reports(s, lo, hi, v, top, s.procs[p].d)
    requires SentTo(s, Prepare(s.procs[p].d, s.procs[p].b, s.procs[p].me), lo, hi)
    requires lo <= w < hi && Settles(s.procs[p].x, v, top, Lookup(s.acc[w].store, s.procs[p].d))
    ensures Reaches(s, t, mode) && Raised(s, t, lo, hi, s.procs[p].b) && GoesForward(s, t, p, v)
  {
    var ph := s.procs[p];
    var u := PromiseRange(s, ph.b, ph.me, lo, hi, mode, ph.d);
    forall a | lo <= a < hi ensures PromiseFrom(u, ph, a, v, top) {
      assert Rep(a, ph.me, Promise(ph.b, Lookup(s.acc[a].store, ph.d))) in u.net;
    }
    t := HearMajority(u, p, lo, hi, v, top, w, Lookup(s.acc[w].store, ph.d), mode);
    ReachesMore(s, u, t, mode);
  }

  ghost predicate Voted(s: State, t: State, lo: nat, hi: nat, b: Ballot, y: Choice, d: DecreeId := D) {
    && |t.acc| == |s.acc|
    && forall a :: 0 <= a < |s.acc| ==>
         if lo <= a < hi
         then t.acc[a] == Acceptor(s.acc[a].start, Value(b),
                                   if LiftedLt(s.acc[a].bal, Value(b)) then Value(b) else s.acc[a].disk,
                                   s.acc[a].store[d := Vote(b, y)])
         else t.acc[a] == s.acc[a]
  }

  lemma AcceptRange(s: State, b: Ballot, me: nat, y: Choice, lo: nat, hi: nat, mode: Mode, d: DecreeId := D)
    returns (t: State)
    requires lo <= hi && Ready(s, lo, hi, b) && SentTo(s, Syn(d, b, me, y), lo, hi)
    ensures Reaches(s, t, mode) && Voted(s, t, lo, hi, b, y, d)
    ensures t.procs == s.procs && t.atts == s.atts && t.decided == s.decided
    ensures forall a :: lo <= a < hi ==> Rep(a, me, Accepted(d, b, y)) in t.net
    ensures KeepsRequests(s, t, me) && forall pk :: pk in s.net && pk.Rep? ==> pk in t.net
  {
    t := HandleRange(s, Syn(d, b, me, y), lo, hi, mode);
    forall a | lo <= a < hi ensures Rep(a, me, Accepted(d, b, y)) in t.net {
      assert Answered(s.acc[a], Syn(d, b, me, y)).1.Answer?;
    }
  }

  ghost predicate Has(s: State, y: Choice, d: DecreeId := D) {
    exists q :: q in s.decided && q.d == d && q.x == y
  }

  /** A majority in the range votes for p's value: p returns it. */
  lemma VoteMajority(s: State, p: nat, lo: nat, hi: nat, mode: Mode) returns (t: State)
    requires p in s.procs && s.procs[p].Commanding? && s.procs[p].heardFrom == []
    requires lo + Quorum(|s.acc|) == hi && Ready(s, lo, hi, s.procs[p].b)
    requires SentTo(s, Syn(s.procs[p].d, s.procs[p].b, s.procs[p].me, s.procs[p].y), lo, hi)
    ensures Reaches(s, t, mode) && Voted(s, t, lo, hi, s.procs[p].b, s.procs[p].y, s.procs[p].d)
    ensures t.procs == s.procs - {p} && t.atts == s.atts && s.decided <= t.decided && Has(t, s.procs[p].y, s.procs[p].d)
    ensures KeepsRequests(s, t, s.procs[p].me) && KeepsReplies(s, t, s.procs[p].me)
  {
    var ph := s.procs[p];
    var u := AcceptRange(s, ph.b, ph.me, ph.y, lo, hi, mode, ph.d);
    t := CountMajority(u, p, lo, hi, mode);
    ReachesMore(s, u, t, mode);
  }

  // ---------------------------------------------------------------- restarts

  /** Acceptors of a group that has just started. */
  ghost predicate Blank(s: State, n: nat, lo: nat) {
    |s.acc| == n && forall a :: lo <= a < n ==> s.acc[a] == Acceptor(D, Bottom, Bottom, map[])
  }

  /** In a new group, proposer p gets a majority's promise; its Syns are on their way. */
  lemma FirstScout(n: nat, p: nat, x: Choice, mode: Mode) returns (t: State)
    requires n >= 1
    ensures Reaches(Init(n), t, mode) && Blank(t, n, Quorum(n)) && |t.atts| == 2 && t.decided == {}
    ensures forall a :: 0 <= a < Quorum(n) <= n ==> t.acc[a] == Acceptor(D, Value(Ballot(0, p)), Bottom, map[])
    ensures t.procs == map[p := Commanding(D, x, Ballot(0, p), 1, x, [])]
    ensures SentTo(t, Syn(D, Ballot(0, p), 1, x), 0, n)
  {
    var s1 := OpenProposal(Init(n), p, x, mode);
    t := ScoutMajority(s1, p, 0, Quorum(n), x, B0, 0, mode);
    ReachesMore(Init(n), s1, t, mode);
    assert t.procs == map[p := Commanding(D, x, Ballot(0, p), 1, x, [])];
  }

  /** Proposer 1's Syns are on their way when the majority that promised to it restarts. */
  lemma RestartForgets(n: nat) returns (t: State)
    requires n >= 1
    ensures Reaches(Init(n), t, FORGET) && Blank(t, n, 0) && |t.atts| == 2 && t.decided == {}
    ensures t.procs == map[1 := Commanding(D, 20, B1, 1, 20, [])]
    ensures SentTo(t, Syn(D, B1, 1, 20), 0, n)
  {
    var s := FirstScout(n, 1, 20, FORGET);
    t := RestartRange(s, Quorum(n));
    ReachesMore(Init(n), s, t, FORGET);
  }

  /** With restarts, a group of any size can return two values for one decree. */
  lemma RestartsBreakAgreement(n: nat) returns (t: State)
    requires n >= 1
    ensures Reaches(Init(n), t, FORGET) && !Agreement(t)
  {
    var m := Quorum(n);
    var s1 := RestartForgets(n);
    var s2 := OpenProposal(s1, 0, 10, FORGET);
    ReachesMore(Init(n), s1, s2, FORGET);
    var s3 := ScoutMajority(s2, 0, 0, m, 10, B0, 0, FORGET);
    ReachesMore(Init(n), s2, s3, FORGET);
    var s4 := VoteMajority(s3, 0, 0, m, FORGET);
    ReachesMore(Init(n), s3, s4, FORGET);
    t := VoteMajority(s4, 1, 0, m, FORGET);
    ReachesMore(Init(n), s4, t, FORGET);
    assert Has(t, 10) && Has(t, 20);
  }

  // ---------------------------------------------------------------- a ballot used twice

  /** Proposer 0 has got one vote, that of the last acceptor, for 10. */
  ghost predicate OneOldVote(s: State, n: nat) {
    && n >= 3 && |s.acc| == n && |s.atts| == 2 && s.procs.Keys == {0} && s.decided == {}
    && Ready(s, 0, n, B0)
    && (forall a :: 0 <= a < n - 1 ==> s.acc[a].store == map[])
    && s.acc[n - 1].store == map[D := Vote(B0, 10)]
  }

  lemma OldVote(n: nat, mode: Mode) returns (t: State)
    requires n >= 3
    ensures Reaches(Init(n), t, mode) && OneOldVote(t, n)
  {
    var s := FirstScout(n, 0, 10, mode);
    t := AcceptRange(s, B0, 1, 10, n - 1, n, mode);
    ReachesMore(Init(n), s, t, mode);
  }

  /** Proposer 1 has put 20 forward at B1 after hearing of no vote; its Syns are on their way. */
  ghost predicate FirstSyn(s: State, n: nat) {
    && n >= 3 && |s.acc| == n && |s.atts| == 4 && s.procs.Keys == {0, 1} && s.decided == {}
    && s.procs[1] == Commanding(D, 20, B1, 3, 20, [])
    && Ready(s, 0, n, B1) && (forall a :: 0 <= a < Quorum(n) ==> s.acc[a].bal == Value(B1))
    && (forall a :: 0 <= a < n - 1 ==> s.acc[a].store == map[])
    && s.acc[n - 1].store == map[D := Vote(B0, 10)]
    && SentTo(s, Syn(D, B1, 3, 20), 0, n)
  }

  lemma SendFirstSyn(s: State, n: nat, mode: Mode) returns (t: State)
    requires OneOldVote(s, n)
    ensures Reaches(s, t, mode) && FirstSyn(t, n)
  {
    var m := Quorum(n);
    var s1 := OpenProposal(s, 1, 20, mode);
    t := ScoutMajority(s1, 1, 0, m, 20, B0, 0, mode);
    ReachesMore(s, s1, t, mode);
  }

  /** Acceptor 0 has promised B2 to proposer 2 and refused proposer 1, who scouts again at B1. */
  ghost predicate SameBallotAgain(s: State, n: nat) {
    && n >= 3 && |s.acc| == n && |s.atts| == 6 && s.procs.Keys == {0, 1, 2} && s.decided == {}
    && s.procs[1] == Scouting(D, 20, B1, 5, []) && s.procs[2] == Scouting(D, 30, B2, 4, [])
    && Ready(s, 1, n, B1) && (forall a :: 1 <= a < Quorum(n) ==> s.acc[a].bal == Value(B1))
    && s.acc[0].start == D && s.acc[0].bal == Value(B2)
    && (forall a :: 0 <= a < n - 1 ==> s.acc[a].store == map[])
    && s.acc[n - 1].store == map[D := Vote(B0, 10)]
    && SentTo(s, Prepare(D, B1, 5), 0, n) && Leftovers(s, n)
  }

  /** What proposer 1's first command and proposer 2's scout left in the network. */
  ghost predicate Leftovers(s: State, n: nat) {
    && SentTo(s, Syn(D, B1, 3, 20), 1, n) && SentTo(s, Prepare(D, B2, 4), 1, n)
    && Rep(0, 4, Promise(B2, [])) in s.net
  }

  /** Acceptor 0 has promised B2 to proposer 2. */
  ghost predicate Overtaken(s: State, n: nat) {
    && n >= 3 && |s.acc| == n && |s.atts| == 5 && s.procs.Keys == {0, 1, 2} && s.decided == {}
    && s.procs[1] == Commanding(D, 20, B1, 3, 20, []) && s.procs[2] == Scouting(D, 30, B2, 4, [])
    && Ready(s, 1, n, B1) && (forall a :: 1 <= a < Quorum(n) ==> s.acc[a].bal == Value(B1))
    && s.acc[0].start == D && s.acc[0].bal == Value(B2)
    && (forall a :: 0 <= a < n - 1 ==> s.acc[a].store == map[])
    && s.acc[n - 1].store == map[D := Vote(B0, 10)]
    && Leftovers(s, n)
  }

  lemma Overtake(s: State, n: nat) returns (t: State)
    requires FirstSyn(s, n)
    ensures Reaches(s, t, REUSE) && Overtaken(t, n) && Req(0, Syn(D, B1, 3, 20)) in t.net
  {
    var s1 := OpenProposal(s, 2, 30, REUSE);
    t := PromiseRange(s1, B2, 4, 0, 1, REUSE);
    ReachesMore(s, s1, t, REUSE);
  }

  lemma Refuse(s: State, n: nat) returns (t: State)
    requires Overtaken(s, n) && Req(0, Syn(D, B1, 3, 20)) in s.net
    ensures Reaches(s, t, REUSE) && Overtaken(t, n) && Rep(0, 3, Nack(B2)) in t.net
  {
    var refusal := Handle(0, Syn(D, B1, 3, 20));
    t := Next(s, refusal);
    ReachesStep(s, refusal, REUSE);
  }

  /** The refused command goes back to a scout at the very same ballot. */
  lemma Retry(s: State, n: nat) returns (t: State)
    requires Overtaken(s, n) && Rep(0, 3, Nack(B2)) in s.net
    ensures Reaches(s, t, REUSE) && SameBallotAgain(t, n)
  {
    var step := Receive(1, 0, Nack(B2));
    t := Next(s, step);
    ReachesStep(s, step, REUSE);
  }

  /** Proposer 1 has returned 10; its first Syns, for 20, are still on their way. */
  ghost predicate TenReturned(s: State, n: nat) {
    && n >= 3 && |s.acc| == n && |s.atts| == 7 && s.procs.Keys == {0, 2} && Has(s, 10)
    && s.procs[2] == Scouting(D, 30, B2, 4, [])
    && (forall a :: 1 <= a < n ==> s.acc[a].start == D && s.acc[a].bal == Value(B1))
    && s.acc[0].start == D && s.acc[0].bal == Value(B2) && s.acc[0].store == map[] && Leftovers(s, n)
  }

  /** Proposer 1 asks for votes again, this time for 10, at the same ballot. */
  ghost predicate SecondSyn(s: State, n: nat) {
    && n >= 3 && |s.acc| == n && |s.atts| == 7 && s.procs.Keys == {0, 1, 2}
    && s.procs[1] == Commanding(D, 20, B1, 6, 10, []) && s.procs[2] == Scouting(D, 30, B2, 4, [])
    && (forall a :: 1 <= a < n ==> s.acc[a].start == D && s.acc[a].bal == Value(B1))
    && s.acc[0].start == D && s.acc[0].bal == Value(B2) && s.acc[0].store == map[]
    && SentTo(s, Syn(D, B1, 6, 10), 0, n) && Leftovers(s, n)
  }

  lemma SendSecondSyn(s: State, n: nat) returns (t: State)
    requires SameBallotAgain(s, n)
    ensures Reaches(s, t, REUSE) && SecondSyn(t, n)
  {
    t := ScoutMajority(s, 1, n - Quorum(n), n, 10, B0, n - 1, REUSE);
  }

  lemma ReturnTen(s: State, n: nat) returns (t: State)
    requires SecondSyn(s, n)
    ensures Reaches(s, t, REUSE) && TenReturned(t, n)
  {
    t := VoteMajority(s, 1, n - Quorum(n), n, REUSE);
  }

  /** The late Syns have overwritten 10 by 20 at the same ballot, and that is what proposer 2 will hear. */
  ghost predicate TwentyReported(s: State, n: nat) {
    && n >= 3 && |s.acc| == n && s.procs.Keys == {0, 2} && Has(s, 10)
    && s.procs[2] == Scouting(D, 30, B2, 4, []) && Ready(s, 0, Quorum(n), B2)
    && Rep(0, 4, Promise(B2, [])) in s.net
    && forall a :: 1 <= a < Quorum(n) ==> Rep(a, 4, Promise(B2, [Ack(D, B1, 20)])) in s.net
  }

  lemma ReportTwenty(s: State, n: nat) returns (t: State)
    requires TenReturned(s, n)
    ensures Reaches(s, t, REUSE) && TwentyReported(t, n)
  {
    var m := Quorum(n);
    var s1 := AcceptRange(s, B1, 3, 20, 1, m, REUSE);
    t := PromiseRange(s1, B2, 4, 1, m, REUSE);
    ReachesMore(s, s1, t, REUSE);
    forall a | 1 <= a < m ensures Rep(a, 4, Promise(B2, [Ack(D, B1, 20)])) in t.net {
      assert Lookup(s1.acc[a].store, D) == [Ack(D, B1, 20)];
    }
  }

  lemma ReturnTwenty(s: State, n: nat) returns (t: State)
    requires TwentyReported(s, n)
    ensures Reaches(s, t, REUSE) && Has(t, 10) && Has(t, 20)
  {
    var m := Quorum(n);
    forall a | 0 <= a < m ensures PromiseFrom(s, s.procs[2], a, 20, B0) {
      var acks := if a == 0 then [] else [Ack(D, B1, 20)];
      assert Rep(a, 4, Promise(B2, acks)) in s.net && For(D, 20, B0, acks);
    }
    var s1 := HearMajority(s, 2, 0, m, 20, B0, m - 1, [Ack(D, B1, 20)], REUSE);
    t := VoteMajority(s1, 2, 0, m, REUSE);
    ReachesMore(s, s1, t, REUSE);
  }

  /** Without any restart, a group of three or more can return two values for one decree. */
  lemma ReuseBreaksAgreement(n: nat) returns (t: State)
    requires n >= 3
    ensures Reaches(Init(n), t, REUSE) && !Agreement(t)
  {
    t := OldVote(n, REUSE);
    var u := SendFirstSyn(t, n, REUSE);
    ReachesMore(Init(n), t, u, REUSE);
    t := Overtake(u, n);
    ReachesMore(Init(n), u, t, REUSE);
    u := Refuse(t, n);
    ReachesMore(Init(n), t, u, REUSE);
    t := Retry(u, n);
    ReachesMore(Init(n), u, t, REUSE);
    u := SendSecondSyn(t, n);
    ReachesMore(Init(n), t, u, REUSE);
    t := ReturnTen(u, n);
    ReachesMore(Init(n), u, t, REUSE);
    u := ReportTwenty(t, n);
    ReachesMore(Init(n), t, u, REUSE);
    t := ReturnTwenty(u, n);
    ReachesMore(Init(n), u, t, REUSE);
  }

  // ---------------------------------------------------------------- an interrupted proposal

  /** Proposer 1 was interrupted with its Syns for 20 on their way, has proposed again and returned 10. */
  ghost predicate ReturnedAgain(s: State, n: nat) {
    && n >= 1 && |s.acc| == n && s.procs == map[] && Has(s, 10)
    && (forall a :: 0 <= a < Quorum(n) ==> s.acc[a].start == D && s.acc[a].bal == Value(B1))
    && SentTo(s, Syn(D, B1, 1, 20), 0, n)
  }

  lemma InterruptAndReturn(n: nat) returns (t: State)
    requires n >= 1
    ensures Reaches(Init(n), t, INTERRUPT) && ReturnedAgain(t, n)
  {
    var m := Quorum(n);
    var s := FirstScout(n, 1, 20, INTERRUPT);
    var s1 := Next(s, Abandon(1));
    ReachesStep(s, Abandon(1), INTERRUPT);
    ReachesMore(Init(n), s, s1, INTERRUPT);
    var s2 := OpenProposal(s1, 1, 10, INTERRUPT);
    ReachesMore(Init(n), s1, s2, INTERRUPT);
    var s3 := ScoutMajority(s2, 1, 0, m, 10, B0, 0, INTERRUPT);
    ReachesMore(Init(n), s2, s3, INTERRUPT);
    t := VoteMajority(s3, 1, 0, m, INTERRUPT);
    ReachesMore(Init(n), s3, t, INTERRUPT);
    assert t.procs == map[];
  }

  /** With interrupted proposals, a group of any size can return two values for one decree. */
  lemma InterruptionsBreakAgreement(n: nat) returns (t: State)
    requires n >= 1
    ensures Reaches(Init(n), t, INTERRUPT) && !Agreement(t)
  {
    var m := Quorum(n);
    var s := InterruptAndReturn(n);
    var s1 := AcceptRange(s, B1, 1, 20, 0, m, INTERRUPT);
    ReachesMore(Init(n), s, s1, INTERRUPT);
    var s2 := OpenProposal(s1, 2, 30, INTERRUPT);
    ReachesMore(Init(n), s1, s2, INTERRUPT);
    var s3 := ScoutMajority(s2, 2, 0, m, 20, B0, 0, INTERRUPT);
    ReachesMore(Init(n), s2, s3, INTERRUPT);
    t := VoteMajority(s3, 2, 0, m, INTERRUPT);
    ReachesMore(Init(n), s3, t, INTERRUPT);
    assert Has(t, 10) && Has(t, 20);
  }

  // ---------------------------------------------------------------- the exact condition

  ghost predicate AllRunsAgree(n: nat, mode: Mode) {
    forall steps :: Runs(Init(n), steps) && AllAllowed(Init(n), steps, mode) ==> Agreement(Final(Init(n), steps))
  }

  /** A run that meets no unclean step is clean; in a group of at most two a reused ballot is no unclean step. */
  lemma {:induction false} AllowedRunsAreClean(s: State, steps: seq<Step>, mode: Mode)
    requires Runs(s, steps) && AllAllowed(s, steps, mode)
    requires !mode.forget && !mode.interrupt && (mode.reuse ==> |s.acc| <= 2)
    ensures CleanRun(s, steps)
    decreases |steps|
  {
    if steps != [] {
      assert |Next(s, steps[0]).acc| == |s.acc|;
      AllowedRunsAreClean(Next(s, steps[0]), steps[1..], mode);
    }
  }

  lemma {:induction false} MoreAllowed(s: State, steps: seq<Step>, mode: Mode, mode': Mode)
    requires Runs(s, steps) && AllAllowed(s, steps, mode)
    requires (mode.reuse ==> mode'.reuse) && (mode.forget ==> mode'.forget) && (mode.interrupt ==> mode'.interrupt)
    ensures AllAllowed(s, steps, mode')
    decreases |steps|
  {
    if steps != [] { MoreAllowed(Next(s, steps[0]), steps[1..], mode, mode'); }
  }

  /** A group of any size meets the reused ballot in a clean run; with at most two acceptors it is harmless. */
  lemma ReuseIsMet(n: nat) returns (t: State)
    requires n >= 1
    ensures Reaches(Init(n), t, CLEAN)
    ensures Enabled(t, Receive(0, 0, Nack(B1))) && ReusesBallot(t, Receive(0, 0, Nack(B1)))
  {
    var s := FirstScout(n, 0, 10, CLEAN);
    var s1 := OpenProposal(s, 1, 20, CLEAN);
    ReachesMore(Init(n), s, s1, CLEAN);
    var s2 := PromiseRange(s1, B1, 2, 0, 1, CLEAN);
    ReachesMore(Init(n), s1, s2, CLEAN);
    var refusal := Handle(0, Syn(D, B0, 1, 10));
    t := Next(s2, refusal);
    ReachesStep(s2, refusal, CLEAN);
    ReachesMore(Init(n), s2, t, CLEAN);
  }

  /** A group without acceptors never returns anything. */
  lemma {:induction false} EmptyGroupDecidesNothing(s: State, steps: seq<Step>)
    requires |s.acc| == 0 && s.net == {} && s.decided == {} && Runs(s, steps)
    ensures Final(s, steps).decided == {}
    decreases |steps|
  {
    if steps != [] {
      var t := Next(s, steps[0]);
      assert t.net == {};
      EmptyGroupDecidesNothing(t, steps[1..]);
    }
  }

  /** A run that breaks agreement with only some kinds of unclean step rules out every mode that has them. */
  lemma BreaksAgreement(n: nat, t: State, mode: Mode, mode': Mode)
    requires Reaches(Init(n), t, mode) && !Agreement(t)
    requires (mode.reuse ==> mode'.reuse) && (mode.forget ==> mode'.forget) && (mode.interrupt ==> mode'.interrupt)
    ensures !AllRunsAgree(n, mode')
  {
    var steps := ReachesByRun(Init(n), t, mode);
    MoreAllowed(Init(n), steps, mode, mode');
  }

  /**
   All runs agree exactly when the group has no acceptor, or no step forgets a
   promise or a value put forward, and either no ballot is reused or the group
   has at most two acceptors.
   */
  lemma AgreementExactly(n: nat, mode: Mode)
    ensures AllRunsAgree(n, mode) <==> n == 0 || (!mode.forget && !mode.interrupt && (!mode.reuse || n <= 2))
  {
    if n == 0 {
      forall steps | Runs(Init(0), steps) ensures Agreement(Final(Init(0), steps)) {
        EmptyGroupDecidesNothing(Init(0), steps);
      }
    } else if mode.forget {
      var t := RestartsBreakAgreement(n);
      BreaksAgreement(n, t, FORGET, mode);
    } else if mode.interrupt {
      var t := InterruptionsBreakAgreement(n);
      BreaksAgreement(n, t, INTERRUPT, mode);
    } else if mode.reuse && n >= 3 {
      var t := ReuseBreaksAgreement(n);
      BreaksAgreement(n, t, REUSE, mode);
    } else {
      forall steps | Runs(Init(n), steps) && AllAllowed(Init(n), steps, mode) ensures Agreement(Final(Init(n), steps)) {
        AllowedRunsAreClean(Init(n), steps, mode);
        CleanRunsAgree(n, steps);
      }
    }
  }
}
