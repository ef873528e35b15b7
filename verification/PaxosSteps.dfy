/** Every clean step keeps the invariant: one lemma for each building block of a step. */
module PaxosSteps {
  import opened Ballots
  import opened PaxosModel
  import opened PaxosInvariant

  lemma InitHolds(n: nat)
    ensures Inv(Init(n))
  {
  }

  // ---------------------------------------------------------------- what only grows

  /** From s to t ballots rise, histories grow, and new votes are at or above every ballot their caster had reached. */
  ghost predicate Extends(s: State, t: State) {
    && |s.acc| == |t.acc|
    && (forall a, b :: AtLeast(s, a, b) ==> AtLeast(t, a, b))
    && (forall k :: k in s.syns ==> k in t.syns && t.syns[k] == s.syns[k])
    && s.votes <= t.votes && s.asked <= t.asked && s.decided <= t.decided
    && (forall v, b :: v in t.votes && v !in s.votes && AtLeast(s, v.a, b) ==> !Lt(v.b, b))
  }

  lemma PromiseCarries(s: State, t: State, src: nat, d: DecreeId, b: Ballot, acks: seq<Ack>)
    requires Extends(s, t) && PromiseOk(s, src, d, b, acks)
    ensures PromiseOk(t, src, d, b, acks)
  {
  }

  lemma JustificationsCarry(s: State, t: State)
    requires Extends(s, t) && Forward(s) && t.syns == s.syns
    ensures Forward(t)
  {
    forall k | k in s.syns ensures Justified(t, k, s.syns[k]) {
      assert Justified(s, k, s.syns[k]);
    }
  }

  /** Replies that were right stay right, wherever they are. */
  lemma AnswersCarry(s: State, t: State)
    requires Extends(s, t) && Answers(s)
    requires |s.atts| <= |t.atts| && (forall i :: 0 <= i < |s.atts| ==> t.atts[i] == s.atts[i])
    requires forall src: nat, to: nat, rep :: Rep(src, to, rep) in t.net ==> Rep(src, to, rep) in s.net && to < |s.atts|
    requires forall p :: p in t.procs ==> Replies(t.procs[p]) == 0 || (p in s.procs && t.procs[p] == s.procs[p])
    ensures Answers(t)
  {
    forall src: nat, to: nat, rep | Rep(src, to, rep) in t.net && to < |t.atts| ensures ReplyOk(t, src, to, rep) {
      assert ReplyOk(s, src, to, rep);
      if rep.Promise? { PromiseCarries(s, t, src, s.atts[to].d, s.atts[to].b, rep.acks); }
    }
    forall p, i | p in t.procs && 0 <= i < Replies(t.procs[p]) ensures HeardOk(t, t.procs[p], i) {
      var ph := s.procs[p];
      assert HeardOk(s, ph, i);
      if ph.Scouting? { PromiseCarries(s, t, ph.heard[i].src, ph.d, ph.b, ph.heard[i].acks); }
    }
  }

  lemma BlockedCarries(s: State, t: State, ph: Phase)
    requires Extends(s, t) && Blocked(s, ph)
    requires forall a, acks :: HasPromised(t, ph, a, acks) ==> HasPromised(s, ph, a, acks) || AtMost(t, a, ph.b)
    ensures Blocked(t, ph)
  {
    var a :| 0 <= a < |s.acc| && Refuses(s, ph, a);
    assert AtLeast(s, a, s.acc[a].bal.b);
    assert AtLeast(t, a, s.acc[a].bal.b);
    assert Refuses(t, ph, a);
  }

  predicate AtMost(s: State, a: nat, b: Ballot) {
    a < |s.acc| && LiftedLe(s.acc[a].bal, Value(b))
  }

  ghost predicate SamePhase(s: State, t: State, p: nat) {
    (p in s.procs <==> p in t.procs) && (p in s.procs ==> t.procs[p] == s.procs[p])
  }

  /** In t nobody has promised to ph but those who had in s, and those whose ballot is no higher than ph's. */
  ghost predicate NoStrayPromise(s: State, t: State, ph: Phase) {
    forall a, acks :: HasPromised(t, ph, a, acks) ==> HasPromised(s, ph, a, acks) || AtMost(t, a, ph.b)
  }

  lemma OwnSynCarries(s: State, t: State, p: nat, k: Ack)
    requires Extends(s, t) && OwnSyn(s, p, k) && SamePhase(s, t, p)
    requires p in s.procs ==> NoStrayPromise(s, t, s.procs[p])
    ensures OwnSyn(t, p, k)
  {
    if Finished(s, p, k.d, k.b) {
      assert Finished(t, p, k.d, k.b);
    } else if Blocked(s, s.procs[p]) {
      BlockedCarries(s, t, s.procs[p]);
    }
  }

  lemma FreshCarries(s: State, t: State)
    requires Extends(s, t) && Fresh(s) && t.syns == s.syns
    requires forall p :: SamePhase(s, t, p)
    requires forall p :: p in s.procs ==> NoStrayPromise(s, t, s.procs[p])
    ensures Fresh(t)
  {
    forall k | k in t.syns ensures OwnSyn(t, k.b.pid, k) { OwnSynCarries(s, t, k.b.pid, k); }
  }

  lemma StartsOverCarries(s: State, t: State, ph: Phase, q: Decision)
    requires StartsOver(s, ph, q)
    requires forall a, acks :: HasPromised(t, ph, a, acks) ==> HasPromised(s, ph, a, acks)
    ensures StartsOver(t, ph, q)
  {
  }

  // ---------------------------------------------------------------- losing a packet

  lemma DropKeepsShape(s: State, t: State, pk: Packet)
    requires Shape(s) && Tokens(s) && t == s.(net := s.net - {pk})
    ensures Shape(t) && Tokens(t)
  {
    forall p, i | p in t.procs && 0 <= i < Replies(t.procs[p])
      ensures TokenSpent(t, Sender(t.procs[p], i), t.procs[p].me)
    {
      assert TokenSpent(s, Sender(s.procs[p], i), s.procs[p].me);
    }
  }

  lemma DropKeepsRest(s: State, t: State, pk: Packet)
    requires Memory(s) && Fresh(s) && Again(s) && Settled(s) && t == s.(net := s.net - {pk})
    ensures Memory(t) && Fresh(t) && Again(t) && Settled(t)
  {
    FreshCarries(s, t);
    forall p, q | p in t.procs && t.procs[p].Scouting? && q in t.decided && q.p == p && q.d == t.procs[p].d
      ensures StartsOver(t, t.procs[p], q)
    {
      StartsOverCarries(s, t, s.procs[p], q);
    }
    forall v | v in t.votes ensures VoteKept(t, v) { assert VoteKept(s, v); }
  }

  lemma DropKeeps(s: State, pk: Packet)
    requires Inv(s)
    ensures Inv(s.(net := s.net - {pk}))
  {
    var t := s.(net := s.net - {pk});
    DropKeepsShape(s, t, pk);
    DropKeepsRest(s, t, pk);
    AnswersCarry(s, t) by { assert Shape(s); }
    JustificationsCarry(s, t);
  }

  // ---------------------------------------------------------------- starting a round

  /** From s, proposer p has opened a round with a new utility process and sent its requests. */
  ghost predicate Opens(s: State, t: State, p: nat, ph: Phase, at: Attempt) {
    && t.acc == s.acc && t.votes == s.votes && t.asked == s.asked && t.decided == s.decided
    && (forall k :: k in s.syns ==> k in t.syns && t.syns[k] == s.syns[k])
    && t.atts == s.atts + [at] && at.p == p && ph.b.pid == p && (ph.d, ph.x) in s.asked
    && t.procs == s.procs[p := ph] && ph.me == |s.atts| && Replies(ph) == 0
    && at == (if ph.Scouting? then Scout(p, ph.d, ph.b) else Command(p, ph.d, ph.b, ph.y))
    && (ph.Commanding? ==> Ack(ph.d, ph.b, ph.y) in t.syns)
    && (forall pk :: pk in t.net ==> pk in s.net || (pk.Req? && pk.req.to == |s.atts| && RequestOf(t, pk.a, pk.req)))
  }

  lemma OpensKeepsShape(s: State, t: State, p: nat, ph: Phase, at: Attempt)
    requires Shape(s) && Opens(s, t, p, ph, at)
    ensures Shape(t)
  {
    forall p' | p' in t.procs ensures AttemptOf(t, p', t.procs[p']) {
      assert p' != p ==> AttemptOf(s, p', s.procs[p']);
    }
    forall a: nat, req | Req(a, req) in t.net ensures RequestOf(t, a, req) {
      assert Req(a, req) in s.net ==> RequestOf(s, a, req);
    }
    forall src: nat, to: nat, rep | Rep(src, to, rep) in t.net ensures ReplyOf(t, src, to, rep) {
      assert ReplyOf(s, src, to, rep);
    }
  }

  lemma OpensKeepsTokens(s: State, t: State, p: nat, ph: Phase, at: Attempt)
    requires Shape(s) && Tokens(s) && Opens(s, t, p, ph, at)
    ensures Tokens(t)
  {
    forall p', i | p' in t.procs && 0 <= i < Replies(t.procs[p'])
      ensures TokenSpent(t, Sender(t.procs[p'], i), t.procs[p'].me)
    {
      assert TokenSpent(s, Sender(s.procs[p'], i), s.procs[p'].me);
      assert AttemptOf(s, p', s.procs[p']);
    }
  }

  lemma OpensKeepsAgain(s: State, t: State, p: nat, ph: Phase, at: Attempt)
    requires Shape(s) && Again(s) && Opens(s, t, p, ph, at)
    ensures Again(t)
  {
    forall p', q | p' in t.procs && t.procs[p'].Scouting? && q in t.decided && q.p == p' && q.d == t.procs[p'].d
      ensures StartsOver(t, t.procs[p'], q)
    {
      if p' != p { StartsOverCarries(s, t, s.procs[p'], q); }
    }
  }

  lemma OpensKeepsFresh(s: State, t: State, p: nat, ph: Phase, at: Attempt)
    requires Shape(s) && Fresh(s) && Opens(s, t, p, ph, at)
    requires forall k :: k in t.syns && k.b.pid == p ==>
      || Finished(s, p, k.d, k.b)
      || (k.d == ph.d && (Lt(k.b, ph.b) || (k.b == ph.b && (ph.Commanding? || (|s.acc| <= 2 && Refused(s, ph.b))))))
    requires forall k :: k in t.syns && k.b.pid != p ==> k in s.syns
    ensures Fresh(t)
  {
    assert Extends(s, t);
    forall k | k in t.syns ensures OwnSyn(t, k.b.pid, k) {
      if k.b.pid != p {
        OwnSynCarries(s, t, k.b.pid, k);
      } else if Finished(s, p, k.d, k.b) {
        assert Finished(t, p, k.d, k.b);
      } else if !Lt(k.b, ph.b) && ph.Scouting? {
        var a :| 0 <= a < |s.acc| && LiftedLt(Value(ph.b), s.acc[a].bal);
        assert Refuses(t, ph, a);
      }
    }
  }

  lemma MemoryCarries(s: State, t: State)
    requires Memory(s) && t.acc == s.acc && t.votes == s.votes
    requires forall k :: k in s.syns ==> k in t.syns
    ensures Memory(t)
  {
    forall v | v in t.votes ensures VoteKept(t, v) { assert VoteKept(s, v); }
  }

  /** Ballot b is above, or equal to and blocked, everything p has sent for d in this proposal. */
  ghost predicate MayScout(s: State, p: nat, d: DecreeId, b: Ballot) {
    forall k :: k in s.syns && k.b.pid == p ==>
      || Finished(s, p, k.d, k.b)
      || (k.d == d && (Lt(k.b, b) || (k.b == b && |s.acc| <= 2 && Refused(s, b))))
  }

  ghost predicate Refused(s: State, b: Ballot) {
    exists a :: 0 <= a < |s.acc| && LiftedLt(Value(b), s.acc[a].bal)
  }

  lemma OpensKeeps(s: State, t: State, p: nat, ph: Phase, at: Attempt)
    requires Inv(s) && Opens(s, t, p, ph, at)
    ensures Shape(t) && Tokens(t) && Memory(t) && Answers(t) && Settled(t) && Again(t)
  {
    OpensKeepsShape(s, t, p, ph, at);
    OpensKeepsTokens(s, t, p, ph, at);
    OpensKeepsAgain(s, t, p, ph, at);
    MemoryCarries(s, t);
    AnswersCarry(s, t) by { assert Shape(s); }
  }

  lemma StartScoutKeeps(s: State, p: nat, d: DecreeId, x: Choice, b: Ballot)
    requires Inv(s) && b.pid == p && (d, x) in s.asked && MayScout(s, p, d, b)
    ensures Inv(StartScout(s, p, d, x, b))
  {
    var t := StartScout(s, p, d, x, b);
    var ph := t.procs[p];
    OpensKeeps(s, t, p, ph, Scout(p, d, b));
    OpensKeepsFresh(s, t, p, ph, Scout(p, d, b));
    JustificationsCarry(s, t);
  }

  /** Everything p has sent for any decree is finished with, or is for d at or below b. */
  ghost predicate MayCommand(s: State, p: nat, d: DecreeId, b: Ballot) {
    forall k :: k in s.syns && k.b.pid == p ==> Finished(s, p, k.d, k.b) || (k.d == d && Le(k.b, b))
  }

  lemma ForwardGrows(s: State, t: State, k: Ack, j: Justification)
    requires Extends(s, t) && Forward(s) && s.votes == t.votes
    requires k in s.syns || (Justified(s, k, j) && forall k' :: k' in s.syns ==> !(k'.d == k.d && k'.b == k.b))
    requires t.syns == if k in s.syns then s.syns else s.syns[k := j]
    ensures Forward(t)
  {
    forall k' | k' in t.syns ensures Justified(t, k', t.syns[k']) {
      if k' in s.syns { assert Justified(s, k', s.syns[k']); }
    }
  }

  lemma PutForwardOpens(s: State, p: nat, d: DecreeId, x: Choice, b: Ballot, y: Choice, j: Justification)
    requires b.pid == p && (d, x) in s.asked
    ensures var t := StartCommand(Record(s, d, b, y, j), p, d, x, b, y);
      Opens(s, t, p, t.procs[p], Command(p, d, b, y)) && Extends(s, t)
  {
  }

  /** A value already put forward at b, or a justified one at a ballot never used, may be put forward. */
  lemma PutForwardKeeps(s: State, p: nat, d: DecreeId, x: Choice, b: Ballot, y: Choice, j: Justification)
    requires Inv(s) && b.pid == p && (d, x) in s.asked && MayCommand(s, p, d, b)
    requires var k := Ack(d, b, y);
      k in s.syns || (Justified(s, k, j) && forall k' :: k' in s.syns ==> !(k'.d == d && k'.b == b))
    ensures Inv(StartCommand(Record(s, d, b, y, j), p, d, x, b, y))
  {
    var t := StartCommand(Record(s, d, b, y, j), p, d, x, b, y);
    var ph := t.procs[p];
    PutForwardOpens(s, p, d, x, b, y, j);
    OpensKeeps(s, t, p, ph, Command(p, d, b, y));
    OpensKeepsFresh(s, t, p, ph, Command(p, d, b, y));
    ForwardGrows(s, t, Ack(d, b, y), j);
  }

  // ---------------------------------------------------------------- an acceptor's turn

  /** Acceptor a owes utility process `to` nothing any more and has not been counted by it. */
  ghost predicate TokenFree(s: State, a: nat, to: nat) {
    && (forall req: Request :: req.to == to ==> Req(a, req) !in s.net)
    && (forall rep :: Rep(a, to, rep) !in s.net)
    && (forall p, i :: p in s.procs && s.procs[p].me == to && 0 <= i < Replies(s.procs[p]) ==> Sender(s.procs[p], i) != a)
  }

  lemma TakingFreesToken(s: State, a: nat, req: Request)
    requires Shape(s) && Tokens(s) && Req(a, req) in s.net
    ensures TokenFree(s.(net := s.net - {Req(a, req)}), a, req.to)
  {
    var t := s.(net := s.net - {Req(a, req)});
    forall p, i | p in t.procs && t.procs[p].me == req.to && 0 <= i < Replies(t.procs[p])
      ensures Sender(t.procs[p], i) != a
    {
      assert TokenSpent(s, Sender(s.procs[p], i), s.procs[p].me);
    }
    forall req': Request | req'.to == req.to ensures Req(a, req') !in t.net {
      if Req(a, req') in s.net { assert RequestOf(s, a, req') && RequestOf(s, a, req); }
    }
  }

  /** From s, acceptor a has answered utility process `to`, changing its own state to acc'. */
  ghost predicate Turns(s: State, t: State, a: nat, to: nat, acc': Acceptor, rep: Reply) {
    && a < |s.acc| && to < |s.atts| && TokenFree(s, a, to)
    && t.acc == s.acc[a := acc'] && t.net == s.net + {Rep(a, to, rep)}
    && t.procs == s.procs && t.atts == s.atts && t.syns == s.syns && t.asked == s.asked && t.decided == s.decided
    && ReplyOf(s, a, to, rep)
  }

  lemma TurnKeepsShape(s: State, t: State, a: nat, to: nat, acc': Acceptor, rep: Reply)
    requires Shape(s) && Turns(s, t, a, to, acc', rep)
    ensures Shape(t)
  {
    forall a: nat, req | Req(a, req) in t.net ensures RequestOf(t, a, req) {
      assert RequestOf(s, a, req);
    }
    forall p | p in t.procs ensures AttemptOf(t, p, t.procs[p]) {
      assert AttemptOf(s, p, s.procs[p]);
    }
  }

  lemma TurnKeepsTokens(s: State, t: State, a: nat, to: nat, acc': Acceptor, rep: Reply)
    requires Tokens(s) && Turns(s, t, a, to, acc', rep)
    ensures Tokens(t)
  {
    forall p, i | p in t.procs && 0 <= i < Replies(t.procs[p])
      ensures TokenSpent(t, Sender(t.procs[p], i), t.procs[p].me)
    {
      assert TokenSpent(s, Sender(s.procs[p], i), s.procs[p].me);
    }
  }

  lemma TurnKeepsAnswers(s: State, t: State, a: nat, to: nat, acc': Acceptor, rep: Reply)
    requires Shape(s) && Answers(s) && Extends(s, t) && Turns(s, t, a, to, acc', rep) && ReplyOk(t, a, to, rep)
    ensures Answers(t)
  {
    var u := t.(net := s.net);
    AnswersCarry(s, u);
    forall src: nat, to': nat, rep' | Rep(src, to', rep') in t.net && to' < |t.atts| ensures ReplyOk(t, src, to', rep') {
      if Rep(src, to', rep') in s.net { assert ReplyOk(u, src, to', rep'); }
    }
    forall p, i | p in t.procs && 0 <= i < Replies(t.procs[p]) ensures HeardOk(t, t.procs[p], i) {
      assert HeardOk(u, u.procs[p], i);
    }
  }

  lemma TurnKeepsFresh(s: State, t: State, a: nat, to: nat, acc': Acceptor, rep: Reply)
    requires Shape(s) && Fresh(s) && Extends(s, t) && Turns(s, t, a, to, acc', rep)
    requires rep.Promise? ==> acc'.bal == Value(s.atts[to].b)
    ensures Fresh(t)
  {
    forall p | p in s.procs ensures NoStrayPromise(s, t, s.procs[p]) {
      assert AttemptOf(s, p, s.procs[p]);
    }
    FreshCarries(s, t);
  }

  /** An acceptor that voted in finished proposal q promises only at or above q's ballot, and reports its vote. */
  lemma VoterReports(s: State, a: nat, q: Decision, b: Ballot)
    requires Settled(s) && Memory(s) && q in s.decided && a in q.quorum && a < |s.acc|
    requires !Before(q.d, s.acc[a].start) && LiftedLe(s.acc[a].bal, Value(b))
    ensures !Lt(b, q.b)
    ensures var acks := Lookup(s.acc[a].store, q.d); b == q.b ==> acks != [] && acks[0].b == q.b
  {
    assert VoteKept(s, Cast(a, q.d, q.b, q.x));
    var w := s.acc[a].store[q.d];
    assert VoteKept(s, Cast(a, q.d, w.b, w.x));
  }

  lemma TurnKeepsAgain(s: State, t: State, a: nat, to: nat, acc': Acceptor, rep: Reply)
    requires Shape(s) && Again(s) && Settled(s) && Memory(s) && Turns(s, t, a, to, acc', rep)
    requires rep.Promise? ==>
      var at := s.atts[to];
      !Before(at.d, s.acc[a].start) && LiftedLe(s.acc[a].bal, Value(at.b)) && rep.acks == Lookup(s.acc[a].store, at.d)
    ensures Again(t)
  {
    forall p, q | p in t.procs && t.procs[p].Scouting? && q in t.decided && q.p == p && q.d == t.procs[p].d
      ensures StartsOver(t, t.procs[p], q)
    {
      var ph := s.procs[p];
      assert StartsOver(s, ph, q);
      assert AttemptOf(s, p, ph);
      forall a': nat, acks: seq<Ack> | a' in q.quorum && HasPromised(t, ph, a', acks)
        ensures !Lt(ph.b, q.b) && (ph.b == q.b ==> acks != [] && acks[0].b == q.b)
      {
        if !HasPromised(s, ph, a', acks) {
          assert a' == a && rep.Promise? && rep.acks == acks && ph.me == to;
          VoterReports(s, a, q, ph.b);
        }
      }
    }
  }

  lemma TurnKeeps(s: State, t: State, a: nat, to: nat, acc': Acceptor, rep: Reply)
    requires Inv(s) && Extends(s, t) && Turns(s, t, a, to, acc', rep) && Memory(t) && ReplyOk(t, a, to, rep)
    requires rep.Promise? ==>
      var at := s.atts[to];
      && acc'.bal == Value(at.b) && !Before(at.d, s.acc[a].start)
      && LiftedLe(s.acc[a].bal, Value(at.b)) && rep.acks == Lookup(s.acc[a].store, at.d)
    ensures Inv(t)
  {
    TurnKeepsShape(s, t, a, to, acc', rep);
    TurnKeepsTokens(s, t, a, to, acc', rep);
    TurnKeepsAnswers(s, t, a, to, acc', rep);
    TurnKeepsFresh(s, t, a, to, acc', rep);
    TurnKeepsAgain(s, t, a, to, acc', rep);
    JustificationsCarry(s, t);
  }

  /** An acceptor's own update, with the vote it casts if any, against the votes so far. */
  lemma MemoryMoves(s: State, t: State, a: nat, req: Request)
    requires Memory(s) && Shape(s) && a < |s.acc| && RequestOf(s, a, req)
    requires t == Handled(s, a, req)
    ensures Memory(t) && Extends(s, t)
  {
    var acc' := Answered(s.acc[a], req).0;
    forall b | AtLeast(s, a, b) ensures AtLeast(t, a, b) { }
    forall v | v in t.votes ensures VoteKept(t, v) {
      if v in s.votes { assert VoteKept(s, v); }
    }
    forall a', d | 0 <= a' < |t.acc| && d in t.acc[a'].store
      ensures Cast(a', d, t.acc[a'].store[d].b, t.acc[a'].store[d].x) in t.votes
    {
    }
  }

  lemma AnswerIsRight(s: State, t: State, a: nat, req: Request)
    requires Memory(s) && Shape(s) && a < |s.acc| && RequestOf(s, a, req)
    requires t == Handled(s, a, req) && Memory(t) && Answered(s.acc[a], req).1.Answer?
    ensures ReplyOk(t, a, req.to, Answered(s.acc[a], req).1.rep)
  {
    var rep := Answered(s.acc[a], req).1.rep;
    if rep.Promise? {
      if req.d in s.acc[a].store {
        var w := s.acc[a].store[req.d];
        assert VoteKept(s, Cast(a, req.d, w.b, w.x));
      }
      forall v | v in t.votes && v.a == a && v.d == req.d && Lt(v.b, req.b)
        ensures rep.acks != [] && Le(v.b, rep.acks[0].b)
      {
        assert VoteKept(s, v);
      }
    }
  }

  lemma HandledTurns(s: State, t: State, a: nat, req: Request)
    requires RequestOf(s, a, req) && TokenFree(s, a, req.to) && t == Handled(s, a, req)
    requires Answered(s.acc[a], req).1.Answer?
    ensures var (acc', answer) := Answered(s.acc[a], req); Turns(s, t, a, req.to, acc', answer.rep)
  {
    assert Req(a, req) !in s.net;
    assert s.net - {Req(a, req)} == s.net;
  }

  lemma HandleKeepsAfterTaking(s: State, a: nat, req: Request)
    requires Inv(s) && RequestOf(s, a, req) && TokenFree(s, a, req.to)
    ensures Inv(Handled(s, a, req))
  {
    var t := Handled(s, a, req);
    MemoryMoves(s, t, a, req);
    var (acc', answer) := Answered(s.acc[a], req);
    if answer.Silence? {
      assert t == s by { assert s.net - {Req(a, req)} == s.net; }
    } else {
      AnswerIsRight(s, t, a, req);
      HandledTurns(s, t, a, req);
      TurnKeeps(s, t, a, req.to, acc', answer.rep);
    }
  }

  lemma HandleKeeps(s: State, a: nat, req: Request)
    requires Inv(s) && a < |s.acc| && Req(a, req) in s.net
    ensures Inv(Handled(s, a, req))
  {
    var s' := s.(net := s.net - {Req(a, req)});
    DropKeeps(s, Req(a, req));
    TakingFreesToken(s, a, req);
    assert RequestOf(s, a, req);
    HandleKeepsAfterTaking(s', a, req);
    TakenThenHandled(s, a, req);
  }

  lemma TakenThenHandled(s: State, a: nat, req: Request)
    requires a < |s.acc|
    ensures Handled(s.(net := s.net - {Req(a, req)}), a, req) == Handled(s, a, req)
  {
    assert s.net - {Req(a, req)} - {Req(a, req)} == s.net - {Req(a, req)};
  }

  /** Trimming an acceptor drops only votes for decrees it will not answer about again. */
  lemma TrimKeepsMemory(s: State, a: nat, d: DecreeId)
    requires Memory(s) && a < |s.acc|
    ensures Memory(s.(acc := s.acc[a := Trimmed(s.acc[a], d)]))
  {
    var t := s.(acc := s.acc[a := Trimmed(s.acc[a], d)]);
    forall v | v in t.votes ensures VoteKept(t, v) { assert VoteKept(s, v); }
  }

  lemma TrimKeeps(s: State, a: nat, d: DecreeId)
    requires Inv(s) && a < |s.acc|
    ensures Inv(s.(acc := s.acc[a := Trimmed(s.acc[a], d)]))
  {
    var t := s.(acc := s.acc[a := Trimmed(s.acc[a], d)]);
    TrimKeepsMemory(s, a, d);
    SameNetwork(s, t);
    SameDecisions(s, t);
    AnswersCarry(s, t) by { assert Shape(s); }
    JustificationsCarry(s, t);
    FreshCarries(s, t);
  }

  lemma SameNetwork(s: State, t: State)
    requires Shape(s) && Tokens(s)
    requires t == s.(acc := t.acc, asked := t.asked) && |t.acc| == |s.acc| && s.asked <= t.asked
    ensures Shape(t) && Tokens(t)
  {
    forall p, i | p in t.procs && 0 <= i < Replies(t.procs[p])
      ensures TokenSpent(t, Sender(t.procs[p], i), t.procs[p].me)
    {
      assert TokenSpent(s, Sender(s.procs[p], i), s.procs[p].me);
    }
    forall a: nat, req | Req(a, req) in t.net ensures RequestOf(t, a, req) { assert RequestOf(s, a, req); }
    forall p | p in t.procs ensures AttemptOf(t, p, t.procs[p]) { assert AttemptOf(s, p, s.procs[p]); }
  }

  lemma SameDecisions(s: State, t: State)
    requires Again(s) && t == s.(acc := t.acc, asked := t.asked)
    ensures Again(t)
  {
    forall p, q | p in t.procs && t.procs[p].Scouting? && q in t.decided && q.p == p && q.d == t.procs[p].d
      ensures StartsOver(t, t.procs[p], q)
    {
      StartsOverCarries(s, t, s.procs[p], q);
    }
  }
}
