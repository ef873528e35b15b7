/** What a proposer does with the replies it counts, and that it keeps the invariant. */
module PaxosRounds {
  import opened Ballots
  import opened PaxosModel
  import opened PaxosInvariant
  import opened PaxosSteps

  // ---------------------------------------------------------------- counting

  lemma {:induction false} DistinctSize(s: seq<nat>)
    requires forall i, j :: 0 <= i < j < |s| ==> s[i] != s[j]
    ensures |SeqSet(s)| == |s|
  {
    if s != [] {
      DistinctSize(s[1..]);
      assert SeqSet(s) == SeqSet(s[1..]) + {s[0]};
    }
  }

  function Senders(heard: seq<Heard>): (r: seq<nat>)
    ensures |r| == |heard| && SeqSet(r) == Sources(heard)
  {
    var r := seq(|heard|, i requires 0 <= i < |heard| => heard[i].src);
    assert forall i :: 0 <= i < |heard| ==> heard[i].src == r[i];
    assert forall a :: a in SeqSet(r) <==> a in Sources(heard);
    r
  }

  // ---------------------------------------------------------------- choosing

  lemma {:induction false} HighestIsHighest(d: DecreeId, acks: seq<Ack>, best: seq<Ack>)
    requires |best| <= 1 && (best != [] ==> best[0].d == d)
    ensures var r := HighestFrom(d, acks, best);
      && (best != [] ==> r != [] && Le(best[0].b, r[0].b))
      && (forall k :: k in acks && k.d == d ==> r != [] && Le(k.b, r[0].b))
      && (r != [] ==> r[0].d == d && (r == best || r[0] in acks))
    decreases |acks|
  {
    if acks != [] {
      var best' := if acks[0].d == d && (best == [] || Le(best[0].b, acks[0].b)) then [acks[0]] else best;
      HighestIsHighest(d, acks[1..], best');
    }
  }

  /** The chosen vote is one of the votes for the decree, at the highest ballot; there is none exactly when nobody voted. */
  lemma ChooseVoteIsHighest(d: DecreeId, acks: seq<Ack>)
    ensures var r := ChooseVote(d, acks);
      && (r == [] <==> forall k :: k in acks ==> k.d != d)
      && (r != [] ==> r[0] in acks && r[0].d == d && forall k :: k in acks && k.d == d ==> Le(k.b, r[0].b))
  {
    HighestIsHighest(d, acks, []);
  }

  lemma {:induction false} ConcatHas(heard: seq<Heard>, k: Ack)
    ensures k in Concat(heard) <==> exists i :: 0 <= i < |heard| && k in heard[i].acks
  {
    if heard != [] {
      ConcatHas(heard[1..], k);
      if k in Concat(heard[1..]) {
        var i :| 0 <= i < |heard[1..]| && k in heard[1..][i].acks;
        assert k in heard[i + 1].acks;
      }
    }
  }

  // ---------------------------------------------------------------- recording a reply

  /** From s, proposer p has taken a reply from src out of the network and counted it. */
  ghost predicate Counts(s: State, t: State, p: nat, src: nat, rep: Reply, ph': Phase) {
    && p in s.procs && Rep(src, s.procs[p].me, rep) in s.net
    && t == s.(net := s.net - {Rep(src, s.procs[p].me, rep)}, procs := s.procs[p := ph'])
    && var ph := s.procs[p];
       || (ph.Scouting? && rep.Promise? && ph' == ph.(heard := [Heard(src, rep.acks)] + ph.heard))
       || (ph.Commanding? && rep.Accepted? && ph' == ph.(heardFrom := [src] + ph.heardFrom))
  }

  lemma CountKeepsShape(s: State, t: State, p: nat, src: nat, rep: Reply, ph': Phase)
    requires Shape(s) && Counts(s, t, p, src, rep, ph')
    ensures Shape(t)
  {
    forall q | q in t.procs ensures AttemptOf(t, q, t.procs[q]) { assert AttemptOf(s, q, s.procs[q]); }
  }

  lemma CountSpendsToken(s: State, t: State, p: nat, src: nat, rep: Reply, ph': Phase)
    requires Shape(s) && Tokens(s) && Counts(s, t, p, src, rep, ph')
    ensures TokenSpent(t, src, ph'.me) && Distinct(ph')
  {
    var ph := s.procs[p];
    assert ReplyOf(s, src, ph.me, rep);
    forall i | 0 <= i < Replies(ph) ensures Sender(ph, i) != src && Sender(ph', i + 1) == Sender(ph, i) {
      assert TokenSpent(s, Sender(ph, i), ph.me);
    }
    assert Distinct(ph);
    forall i, j | 0 <= i < j < Replies(ph') ensures Sender(ph', i) != Sender(ph', j) {
      assert Sender(ph', j) == Sender(ph, j - 1);
      if i > 0 { assert Sender(ph', i) == Sender(ph, i - 1); }
    }
  }

  lemma CountKeepsTokens(s: State, t: State, p: nat, src: nat, rep: Reply, ph': Phase)
    requires Shape(s) && Tokens(s) && Counts(s, t, p, src, rep, ph')
    ensures Tokens(t)
  {
    CountSpendsToken(s, t, p, src, rep, ph');
    forall q, i | q in t.procs && 0 <= i < Replies(t.procs[q])
      ensures TokenSpent(t, Sender(t.procs[q], i), t.procs[q].me)
    {
      if q != p {
        assert TokenSpent(s, Sender(s.procs[q], i), s.procs[q].me);
      } else if i > 0 {
        assert TokenSpent(s, Sender(s.procs[p], i - 1), s.procs[p].me);
      }
    }
  }

  lemma CountKeepsAnswers(s: State, t: State, p: nat, src: nat, rep: Reply, ph': Phase)
    requires Shape(s) && Answers(s) && Counts(s, t, p, src, rep, ph')
    ensures Answers(t)
  {
    var ph := s.procs[p];
    assert AttemptOf(s, p, ph);
    assert ReplyOk(s, src, ph.me, rep);
    forall q, i | q in t.procs && 0 <= i < Replies(t.procs[q]) ensures HeardOk(t, t.procs[q], i) {
      if q != p { assert HeardOk(s, s.procs[q], i); }
      else if i > 0 { assert HeardOk(s, ph, i - 1); }
    }
    forall src: nat, to: nat, rep | Rep(src, to, rep) in t.net && to < |t.atts| ensures ReplyOk(t, src, to, rep) {
      assert ReplyOk(s, src, to, rep);
    }
  }

  /** Counting a promise moves it from the network into the count; nobody else's promises change. */
  lemma CountMovesPromise(s: State, t: State, p: nat, src: nat, rep: Reply, ph': Phase)
    requires Shape(s) && Counts(s, t, p, src, rep, ph')
    ensures forall a, acks :: HasPromised(t, ph', a, acks) ==> HasPromised(s, s.procs[p], a, acks)
    ensures forall q, a, acks :: q in s.procs && q != p && HasPromised(t, s.procs[q], a, acks) ==> HasPromised(s, s.procs[q], a, acks)
  {
  }

  lemma CountKeepsFresh(s: State, t: State, p: nat, src: nat, rep: Reply, ph': Phase)
    requires Shape(s) && Fresh(s) && Counts(s, t, p, src, rep, ph')
    ensures Fresh(t)
  {
    CountMovesPromise(s, t, p, src, rep, ph');
    forall k | k in t.syns ensures OwnSyn(t, k.b.pid, k) {
      assert OwnSyn(s, k.b.pid, k);
      if k.b.pid != p {
        OwnSynCarries(s, t, k.b.pid, k);
      } else if Finished(s, p, k.d, k.b) {
        assert Finished(t, p, k.d, k.b);
      } else if Blocked(s, s.procs[p]) {
        var a :| 0 <= a < |s.acc| && Refuses(s, s.procs[p], a);
        assert Refuses(t, ph', a);
      }
    }
  }

  lemma CountKeepsAgain(s: State, t: State, p: nat, src: nat, rep: Reply, ph': Phase)
    requires Shape(s) && Again(s) && Counts(s, t, p, src, rep, ph')
    ensures Again(t)
  {
    CountMovesPromise(s, t, p, src, rep, ph');
    forall p', q | p' in t.procs && t.procs[p'].Scouting? && q in t.decided && q.p == p' && q.d == t.procs[p'].d
      ensures StartsOver(t, t.procs[p'], q)
    {
      assert StartsOver(s, s.procs[p'], q);
    }
  }

  lemma CountKeeps(s: State, t: State, p: nat, src: nat, rep: Reply, ph': Phase)
    requires Inv(s) && Counts(s, t, p, src, rep, ph')
    ensures Inv(t)
  {
    CountKeepsShape(s, t, p, src, rep, ph');
    CountKeepsTokens(s, t, p, src, rep, ph');
    CountKeepsAnswers(s, t, p, src, rep, ph');
    CountKeepsFresh(s, t, p, src, rep, ph');
    CountKeepsAgain(s, t, p, src, rep, ph');
    MemoryCarries(s, t);
    JustificationsCarry(s, t);
  }

  // ---------------------------------------------------------------- a full count of promises

  ghost predicate Scouted(s: State, p: nat) {
    p in s.procs && s.procs[p].Scouting? && |s.procs[p].heard| == Quorum(|s.acc|)
  }

  lemma ScoutedQuorum(s: State, p: nat)
    requires Tokens(s) && Scouted(s, p)
    ensures Sources(s.procs[p].heard) <= Below(|s.acc|) && |Sources(s.procs[p].heard)| == Quorum(|s.acc|)
    ensures forall i :: 0 <= i < |s.procs[p].heard| ==> HasPromised(s, s.procs[p], s.procs[p].heard[i].src, s.procs[p].heard[i].acks)
  {
    var ph := s.procs[p];
    assert Distinct(ph);
    var src := Senders(ph.heard);
    forall i, j | 0 <= i < j < |src| ensures src[i] != src[j] { assert Sender(ph, i) != Sender(ph, j); }
    DistinctSize(src);
    forall a | a in Sources(ph.heard) ensures a in Below(|s.acc|) {
      var i :| 0 <= i < |ph.heard| && ph.heard[i].src == a;
      assert TokenSpent(s, Sender(ph, i), ph.me);
    }
  }

  /** If p has already put a value forward at this ballot, it has finished the decree, and a full scout reports that very vote. */
  lemma ReusedBallotIsReported(s: State, p: nat, k: Ack) returns (i: nat)
    requires Inv(s) && Scouted(s, p) && k in s.syns && k.d == s.procs[p].d && k.b == s.procs[p].b
    ensures Finished(s, p, k.d, k.b)
    ensures i < |s.procs[p].heard| && s.procs[p].heard[i].acks == [k]
  {
    i := ReusedBallotHeard(s, p, k);
    assert HeardOk(s, s.procs[p], i);
    SameBallotSameVote(s, s.procs[p], s.procs[p].heard[i], k);
  }

  lemma SameBallotSameVote(s: State, ph: Phase, h: Heard, k: Ack)
    requires Forward(s) && PromiseOk(s, h.src, ph.d, ph.b, h.acks) && k in s.syns && k.d == ph.d
    requires h.acks != [] && h.acks[0].b == k.b
    ensures h.acks == [k]
  {
  }

  /** A proposer back at a ballot it has used, on a decree it has not finished, never fills its scout. */
  lemma ReusedScoutStaysShort(s: State, p: nat, k: Ack)
    requires Inv(s) && p in s.procs && s.procs[p].Scouting?
    requires k in s.syns && k.d == s.procs[p].d && k.b == s.procs[p].b && !Finished(s, p, k.d, k.b)
    ensures |s.procs[p].heard| != Quorum(|s.acc|)
  {
    if Scouted(s, p) { var i := ReusedBallotIsReported(s, p, k); }
  }

  lemma ReusedBallotHeard(s: State, p: nat, k: Ack) returns (i: nat)
    requires Shape(s) && Tokens(s) && Settled(s) && Fresh(s) && Again(s) && Scouted(s, p)
    requires k in s.syns && k.d == s.procs[p].d && k.b == s.procs[p].b
    ensures Finished(s, p, k.d, k.b)
    ensures i < |s.procs[p].heard| && s.procs[p].heard[i].acks != [] && s.procs[p].heard[i].acks[0].b == k.b
  {
    var ph := s.procs[p];
    var n := |s.acc|;
    assert AttemptOf(s, p, ph);
    ScoutedQuorum(s, p);
    assert OwnSyn(s, p, k);
    var q2 := Sources(ph.heard);
    if Finished(s, p, k.d, k.b) {
      var q :| q in s.decided && q.p == p && q.d == k.d && Le(k.b, q.b);
      assert StartsOver(s, ph, q);
      var a := SetsMeet(n, q.quorum, q2);
      i :| 0 <= i < |ph.heard| && ph.heard[i].src == a;
      assert HasPromised(s, ph, a, ph.heard[i].acks);
    } else {
      var a :| 0 <= a < n && Refuses(s, ph, a);
      SmallQuorumIsAll(n, q2, a);
      assert false;
    }
  }

  lemma ReportsAreInConcat(s: State, p: nat, i: nat)
    requires Answers(s) && p in s.procs && s.procs[p].Scouting? && i < |s.procs[p].heard|
    ensures var acks := s.procs[p].heard[i].acks;
      acks != [] ==> acks[0].d == s.procs[p].d && acks[0] in Concat(s.procs[p].heard)
  {
    var ph := s.procs[p];
    assert HeardOk(s, ph, i);
    if ph.heard[i].acks != [] { ConcatHas(ph.heard, ph.heard[i].acks[0]); }
  }

  lemma BestIsReported(s: State, p: nat)
    requires Answers(s) && p in s.procs && s.procs[p].Scouting?
    ensures var best := ChooseVote(s.procs[p].d, Concat(s.procs[p].heard));
      best != [] ==> best[0] in s.syns && Le(best[0].b, s.procs[p].b) && best[0].d == s.procs[p].d
  {
    var ph := s.procs[p];
    var best := ChooseVote(ph.d, Concat(ph.heard));
    ChooseVoteIsHighest(ph.d, Concat(ph.heard));
    if best != [] {
      ConcatHas(ph.heard, best[0]);
      var i :| 0 <= i < |ph.heard| && best[0] in ph.heard[i].acks;
      assert HeardOk(s, ph, i);
    }
  }

  /** Nobody who promised has voted, or will vote, between the highest reported vote and the ballot. */
  lemma NothingInBetween(s: State, p: nat, v: Cast)
    requires Answers(s) && p in s.procs && s.procs[p].Scouting?
    requires v in s.votes && v.a in Sources(s.procs[p].heard) && v.d == s.procs[p].d && Lt(v.b, s.procs[p].b)
    ensures var best := ChooseVote(s.procs[p].d, Concat(s.procs[p].heard)); best != [] && Le(v.b, best[0].b)
  {
    var ph := s.procs[p];
    var i :| 0 <= i < |ph.heard| && ph.heard[i].src == v.a;
    assert HeardOk(s, ph, i);
    ReportsAreInConcat(s, p, i);
    ChooseVoteIsHighest(ph.d, Concat(ph.heard));
  }

  /** The value chosen from a full scout is justified by the votes its majority reported. */
  lemma ChoiceIsJustified(s: State, p: nat)
    requires Shape(s) && Tokens(s) && Answers(s) && Forward(s) && Scouted(s, p)
    ensures var ph := s.procs[p];
      var best := ChooseVote(ph.d, Concat(ph.heard));
      var y := if best == [] then ph.x else best[0].x;
      var prev := if best == [] then Bottom else Value(best[0].b);
      (best == [] || best[0].b != ph.b) ==> Justified(s, Ack(ph.d, ph.b, y), Justification(Sources(ph.heard), prev))
  {
    var ph := s.procs[p];
    var best := ChooseVote(ph.d, Concat(ph.heard));
    BestIsReported(s, p);
    ScoutedQuorum(s, p);
    forall a | a in Sources(ph.heard) ensures AtLeast(s, a, ph.b) {
      var i :| 0 <= i < |ph.heard| && ph.heard[i].src == a;
      assert HeardOk(s, ph, i);
    }
    forall v | v in s.votes && v.a in Sources(ph.heard) && v.d == ph.d && Lt(v.b, ph.b)
      ensures best != [] && Le(v.b, best[0].b)
    {
      NothingInBetween(s, p, v);
    }
    if best != [] { assert Justified(s, best[0], s.syns[best[0]]); }
  }

  /** A full scout leads to a Syn that is fresh and justified, or repeats one sent before. */
  lemma ChoiceMayGoForward(s: State, p: nat)
    requires Inv(s) && Scouted(s, p)
    ensures var ph := s.procs[p];
      var best := ChooseVote(ph.d, Concat(ph.heard));
      var y := if best == [] then ph.x else best[0].x;
      var prev := if best == [] then Bottom else Value(best[0].b);
      var k := Ack(ph.d, ph.b, y);
      || k in s.syns
      || (&& Justified(s, k, Justification(Sources(ph.heard), prev))
          && forall k' :: k' in s.syns ==> !(k'.d == ph.d && k'.b == ph.b))
  {
    var ph := s.procs[p];
    var best := ChooseVote(ph.d, Concat(ph.heard));
    BestIsReported(s, p);
    if best == [] || best[0].b != ph.b {
      ChoiceIsJustified(s, p);
      forall k' | k' in s.syns ensures !(k'.d == ph.d && k'.b == ph.b) {
        if k'.d == ph.d && k'.b == ph.b {
          var i := ReusedBallotIsReported(s, p, k');
          ReportsAreInConcat(s, p, i);
          ChooseVoteIsHighest(ph.d, Concat(ph.heard));
          assert false;
        }
      }
    }
  }

  lemma ScoutedMayCommand(s: State, p: nat)
    requires Shape(s) && Fresh(s) && p in s.procs
    ensures MayCommand(s, p, s.procs[p].d, s.procs[p].b)
  {
    forall k | k in s.syns && k.b.pid == p
      ensures Finished(s, p, k.d, k.b) || (k.d == s.procs[p].d && Le(k.b, s.procs[p].b))
    {
      assert OwnSyn(s, p, k);
    }
  }

  // ---------------------------------------------------------------- a full count of acknowledgements

  ghost predicate Commanded(s: State, p: nat) {
    p in s.procs && s.procs[p].Commanding? && |s.procs[p].heardFrom| == Quorum(|s.acc|)
  }

  function Decide(s: State, p: nat): (r: State)
    requires p in s.procs && s.procs[p].Commanding?
  {
    var ph := s.procs[p];
    s.(procs := s.procs - {p},
       decided := s.decided + {Decision(p, ph.d, ph.b, ph.y, SeqSet(ph.heardFrom))})
  }

  lemma DecideKeepsSettled(s: State, p: nat)
    requires Shape(s) && Tokens(s) && Answers(s) && Settled(s) && Commanded(s, p)
    ensures Settled(Decide(s, p))
  {
    var ph := s.procs[p];
    assert AttemptOf(s, p, ph);
    CommandedQuorum(s, p);
    forall a | a in SeqSet(ph.heardFrom) ensures Cast(a, ph.d, ph.b, ph.y) in s.votes {
      var i :| 0 <= i < |ph.heardFrom| && ph.heardFrom[i] == a;
      assert HeardOk(s, ph, i);
    }
  }

  lemma CommandedQuorum(s: State, p: nat)
    requires Tokens(s) && Commanded(s, p)
    ensures SeqSet(s.procs[p].heardFrom) <= Below(|s.acc|) && |SeqSet(s.procs[p].heardFrom)| == Quorum(|s.acc|)
  {
    var ph := s.procs[p];
    assert Distinct(ph);
    forall i, j | 0 <= i < j < |ph.heardFrom| ensures ph.heardFrom[i] != ph.heardFrom[j] {
      assert Sender(ph, i) != Sender(ph, j);
    }
    DistinctSize(ph.heardFrom);
    forall a | a in SeqSet(ph.heardFrom) ensures a in Below(|s.acc|) {
      var i :| 0 <= i < |ph.heardFrom| && ph.heardFrom[i] == a;
      assert TokenSpent(s, Sender(ph, i), ph.me);
    }
  }

  lemma DecideKeepsFresh(s: State, p: nat)
    requires Shape(s) && Fresh(s) && Commanded(s, p)
    ensures Fresh(Decide(s, p))
  {
    var t := Decide(s, p);
    var ph := s.procs[p];
    var q := Decision(p, ph.d, ph.b, ph.y, SeqSet(ph.heardFrom));
    forall k | k in t.syns ensures OwnSyn(t, k.b.pid, k) {
      assert OwnSyn(s, k.b.pid, k);
      if k.b.pid != p {
        OwnSynCarries(s, t, k.b.pid, k);
      } else if !Finished(s, p, k.d, k.b) {
        assert q in t.decided && Le(k.b, q.b);
        assert Finished(t, p, k.d, k.b);
      } else {
        assert Finished(t, p, k.d, k.b);
      }
    }
  }

  lemma DecideKeeps(s: State, p: nat)
    requires Inv(s) && Commanded(s, p)
    ensures Inv(Decide(s, p))
  {
    DecideKeepsSettled(s, p);
    DecideKeepsFresh(s, p);
    DecideKeepsShape(s, p);
    DecideKeepsAgain(s, p);
    DecideKeepsHistory(s, p);
  }

  lemma DecideKeepsHistory(s: State, p: nat)
    requires Shape(s) && Memory(s) && Answers(s) && Forward(s) && Commanded(s, p)
    ensures Memory(Decide(s, p)) && Answers(Decide(s, p)) && Forward(Decide(s, p))
  {
    var t := Decide(s, p);
    assert Extends(s, t);
    MemoryCarries(s, t);
    AnswersCarry(s, t);
    JustificationsCarry(s, t);
  }

  lemma AbandonKeepsShape(s: State, p: nat)
    requires Shape(s) && Tokens(s)
    ensures Shape(Abandoned(s, p)) && Tokens(Abandoned(s, p))
  {
    var t := Abandoned(s, p);
    forall p', i | p' in t.procs && 0 <= i < Replies(t.procs[p'])
      ensures TokenSpent(t, Sender(t.procs[p'], i), t.procs[p'].me)
    {
      assert TokenSpent(s, Sender(s.procs[p'], i), s.procs[p'].me);
    }
  }

  lemma DecideKeepsShape(s: State, p: nat)
    requires Shape(s) && Tokens(s) && p in s.procs && s.procs[p].Commanding?
    ensures Shape(Decide(s, p)) && Tokens(Decide(s, p))
  {
    var t := Decide(s, p);
    forall p', i | p' in t.procs && 0 <= i < Replies(t.procs[p'])
      ensures TokenSpent(t, Sender(t.procs[p'], i), t.procs[p'].me)
    {
      assert TokenSpent(s, Sender(s.procs[p'], i), s.procs[p'].me);
    }
  }

  lemma DecideKeepsAgain(s: State, p: nat)
    requires Again(s) && Commanded(s, p)
    ensures Again(Decide(s, p))
  {
    var t := Decide(s, p);
    forall p', q | p' in t.procs && t.procs[p'].Scouting? && q in t.decided && q.p == p' && q.d == t.procs[p'].d
      ensures StartsOver(t, t.procs[p'], q)
    {
      StartsOverCarries(s, t, s.procs[p'], q);
    }
  }
}
