/** The set of acknowledgements the Promela model keeps, one per decree, in parallel arrays. */
module AckSets {
  import opened Ballots
  import P = PaxosModel
  import PaxosRounds

  /** The fields of a message that matter here; `bottom` means there is no ballot. */
  datatype Msg = Msg(bottom: bool, n: nat, bpid: nat, mpid: int, x: int, d: nat, hasDecree: bool)

  function BallotOf(m: Msg): (b: Lifted) {
    if m.bottom then Bottom else Value(Ballot(m.n, m.bpid))
  }

  datatype Entry = Entry(b: Lifted, apid: int, x: int)

  function EntryOf(m: Msg): (e: Entry) {
    Entry(BallotOf(m), m.mpid, m.x)
  }

  /** A message is taken when its decree is new or its ballot is strictly higher. */
  predicate Takes(acks: map<nat, Entry>, m: Msg) {
    m.hasDecree && (m.d !in acks || CmpLifted(acks[m.d].b, BallotOf(m)) < 0)
  }

  function Merge(acks: map<nat, Entry>, m: Msg): (r: map<nat, Entry>) {
    if Takes(acks, m) then acks[m.d := EntryOf(m)] else acks
  }

  class Acks {
    const bottoms: array<bool>
    const ns: array<nat>
    const bpids: array<nat>
    const apids: array<int>
    const axs: array<int>
    const filled: array<bool>

    ghost predicate Valid()
      reads this
    {
      && bottoms.Length == ns.Length == bpids.Length == apids.Length == axs.Length == filled.Length
      && bottoms != filled && ns != bpids && apids != axs
    }

    ghost function Repr(): (r: set<object>)
      reads this
    {
      {bottoms, ns, bpids, apids, axs, filled}
    }

    function At(i: nat): (e: Entry)
      requires Valid() && i < filled.Length
      reads this, bottoms, ns, bpids, apids, axs
    {
      Entry(if bottoms[i] then Bottom else Value(Ballot(ns[i], bpids[i])), apids[i], axs[i])
    }

    ghost function Contents(): (r: map<nat, Entry>)
      requires Valid()
      reads this, Repr()
    {
      map i | 0 <= i < filled.Length && filled[i] :: At(i)
    }

    constructor (len: nat)
      ensures Valid() && fresh(Repr()) && filled.Length == len && Contents() == map[]
    {
      bottoms := new bool[len];
      ns := new nat[len];
      bpids := new nat[len];
      apids := new int[len];
      axs := new int[len];
      filled := new bool[len](_ => false);
    }

    /** Removes all decrees. */
    method Clear()
      requires Valid()
      modifies filled
      ensures Valid() && Contents() == map[]
    {
      var i := 0;
      while i < filled.Length
        invariant 0 <= i <= filled.Length
        invariant forall j :: 0 <= j < i ==> !filled[j]
      {
        filled[i] := false;
        i := i + 1;
      }
    }

    /** Adds a message if its decree is not there or its ballot is strictly higher. */
    method AddAck(m: Msg)
      requires Valid() && (m.hasDecree ==> m.d < filled.Length)
      modifies Repr()
      ensures Valid() && Contents() == Merge(old(Contents()), m)
    {
      ghost var before := Contents();
      if m.hasDecree {
        var d := m.d;
        if !filled[d] || BallotCmp(bottoms[d], ns[d], bpids[d], m.bottom, m.n, m.bpid) < 0 {
          assert Takes(before, m);
          bottoms[d], ns[d], bpids[d] := m.bottom, m.n, m.bpid;
          apids[d], axs[d] := m.mpid, m.x;
          filled[d] := true;
          assert At(d) == EntryOf(m);
          assert forall i :: 0 <= i < filled.Length && i != d ==> At(i) == old(At(i)) && filled[i] == old(filled[i]);
        }
      }
    }
  }

  // ---------------------------------------------------------------- folding

  /** All messages of a round, in the order they came. */
  function Fold(ms: seq<Msg>): (r: map<nat, Entry>) {
    if ms == [] then map[] else Merge(Fold(ms[..|ms| - 1]), ms[|ms| - 1])
  }

  predicate Carries(m: Msg, d: nat) {
    m.hasDecree && m.d == d
  }

  predicate Highest(ms: seq<Msg>, d: nat, b: Lifted) {
    forall i :: 0 <= i < |ms| && Carries(ms[i], d) ==> LiftedLe(BallotOf(ms[i]), b)
  }

  /** Message i is the first among those for d with the highest ballot. */
  predicate FirstHighest(ms: seq<Msg>, d: nat, i: nat) {
    && i < |ms| && Carries(ms[i], d) && Highest(ms, d, BallotOf(ms[i]))
    && forall j :: 0 <= j < i && Carries(ms[j], d) ==> LiftedLt(BallotOf(ms[j]), BallotOf(ms[i]))
  }

  /** The entry stored for d is that of message i, the first with the highest ballot. */
  ghost predicate StoredFrom(ms: seq<Msg>, d: nat, i: nat) {
    FirstHighest(ms, d, i) && d in Fold(ms) && Fold(ms)[d] == EntryOf(ms[i])
  }

  /** Adding one message on the right. */
  lemma StoredStep(front: seq<Msg>, m: Msg, d: nat, i: nat) returns (j: nat)
    requires StoredFrom(front, d, i) || (Carries(m, d) && d !in Fold(front) && forall k :: 0 <= k < |front| ==> !Carries(front[k], d))
    ensures StoredFrom(front + [m], d, j)
  {
    var ms := front + [m];
    assert ms[..|ms| - 1] == front;
    j := if Carries(m, d) && Takes(Fold(front), m) then |front| else i;
  }

  /** Nothing is stored for a decree nobody carried; otherwise it is the first message with the highest ballot. */
  lemma {:induction false} FoldIsFirstHighest(ms: seq<Msg>, d: nat)
    ensures d in Fold(ms) <==> exists i :: 0 <= i < |ms| && Carries(ms[i], d)
    ensures d in Fold(ms) ==> exists i: nat :: StoredFrom(ms, d, i)
  {
    if ms != [] {
      var k := |ms| - 1;
      var front := ms[..k];
      FoldIsFirstHighest(front, d);
      assert ms == front + [ms[k]];
      if d in Fold(front) {
        var i: nat :| StoredFrom(front, d, i);
        var j := StoredStep(front, ms[k], d, i);
      } else if Carries(ms[k], d) {
        var j := StoredStep(front, ms[k], d, 0);
      }
    }
  }

  lemma FirstHighestIsUnique(ms: seq<Msg>, d: nat, i: nat, j: nat)
    requires FirstHighest(ms, d, i) && FirstHighest(ms, d, j)
    ensures i == j
  {
  }

  /** All messages for d with the highest ballot carry the same value. */
  ghost predicate TopsAgree(ms: seq<Msg>, d: nat) {
    forall i, j :: 0 <= i < |ms| && 0 <= j < |ms| && Top(ms, d, i) && Top(ms, d, j) ==> ms[i].x == ms[j].x
  }

  predicate Top(ms: seq<Msg>, d: nat, i: nat)
    requires i < |ms|
  {
    Carries(ms[i], d) && Highest(ms, d, BallotOf(ms[i]))
  }

  ghost predicate SameValue(ms: seq<Msg>, ms': seq<Msg>, d: nat) {
    (d in Fold(ms) <==> d in Fold(ms')) && (d in Fold(ms) ==> Fold(ms)[d].x == Fold(ms')[d].x)
  }

  lemma SameElements(ms: seq<Msg>, ms': seq<Msg>, i: nat) returns (j: nat)
    requires multiset(ms) == multiset(ms') && i < |ms|
    ensures j < |ms'| && ms'[j] == ms[i]
  {
    assert ms[i] in multiset(ms');
    j :| 0 <= j < |ms'| && ms'[j] == ms[i];
  }

  lemma HighestAnyOrder(ms: seq<Msg>, ms': seq<Msg>, d: nat, b: Lifted)
    requires multiset(ms) == multiset(ms') && Highest(ms, d, b)
    ensures Highest(ms', d, b)
  {
    forall i | 0 <= i < |ms'| && Carries(ms'[i], d) ensures LiftedLe(BallotOf(ms'[i]), b) {
      var j := SameElements(ms', ms, i);
    }
  }

  lemma StoredInAnyOrder(ms: seq<Msg>, ms': seq<Msg>, d: nat) returns (i: nat)
    requires multiset(ms) == multiset(ms') && d in Fold(ms')
    ensures i < |ms| && Top(ms, d, i) && EntryOf(ms[i]) == Fold(ms')[d]
  {
    FoldIsFirstHighest(ms', d);
    var j: nat :| StoredFrom(ms', d, j);
    i := SameElements(ms', ms, j);
    HighestAnyOrder(ms', ms, d, BallotOf(ms'[j]));
  }

  lemma AgreeingTopsAnyOrder(ms: seq<Msg>, ms': seq<Msg>, d: nat)
    requires multiset(ms) == multiset(ms') && TopsAgree(ms, d)
    ensures SameValue(ms, ms', d)
  {
    FoldIsFirstHighest(ms, d);
    FoldIsFirstHighest(ms', d);
    if d in Fold(ms') {
      var j := StoredInAnyOrder(ms, ms', d);
      var i := StoredInAnyOrder(ms, ms, d);
    } else if d in Fold(ms) {
      var i := StoredInAnyOrder(ms', ms, d);
    }
  }

  /** The same messages with number i moved to the front. */
  function Fronted(ms: seq<Msg>, i: nat): (r: seq<Msg>)
    requires i < |ms|
    ensures multiset(r) == multiset(ms)
  {
    assert ms == ms[..i] + [ms[i]] + ms[i + 1..];
    [ms[i]] + ms[..i] + ms[i + 1..]
  }

  lemma FrontedTopWins(ms: seq<Msg>, d: nat, i: nat)
    requires i < |ms| && Top(ms, d, i)
    ensures d in Fold(Fronted(ms, i)) && Fold(Fronted(ms, i))[d] == EntryOf(ms[i])
  {
    var r := Fronted(ms, i);
    HighestAnyOrder(ms, r, d, BallotOf(ms[i]));
    assert r[0] == ms[i];
    assert FirstHighest(r, d, 0);
    FoldIsFirstHighest(r, d);
    var j: nat :| StoredFrom(r, d, j);
    FirstHighestIsUnique(r, d, 0, j);
  }

  /** The value stored for d is the same in every order of arrival exactly when the highest messages agree on it. */
  lemma OrderExactly(ms: seq<Msg>, d: nat)
    ensures (forall ms' :: multiset(ms') == multiset(ms) ==> SameValue(ms, ms', d)) <==> TopsAgree(ms, d)
  {
    if TopsAgree(ms, d) {
      forall ms' | multiset(ms') == multiset(ms) ensures SameValue(ms, ms', d) {
        AgreeingTopsAnyOrder(ms, ms', d);
      }
    } else {
      var i, j :| 0 <= i < |ms| && 0 <= j < |ms| && Top(ms, d, i) && Top(ms, d, j) && ms[i].x != ms[j].x;
      FrontedTopWins(ms, d, i);
      FrontedTopWins(ms, d, j);
      assert !(SameValue(ms, Fronted(ms, i), d) && SameValue(ms, Fronted(ms, j), d));
    }
  }

  // ---------------------------------------------------------------- the model against the code

  const ANY := DecreeId(0, 0)

  function AsAck(v: P.Vote): (k: P.Ack) {
    P.Ack(ANY, v.b, v.x)
  }

  function AsAcks(votes: seq<P.Vote>): (r: seq<P.Ack>)
    ensures |r| == |votes| && forall i :: 0 <= i < |votes| ==> r[i] == AsAck(votes[i])
  {
    seq(|votes|, i requires 0 <= i < |votes| => AsAck(votes[i]))
  }

  function Reversed(votes: seq<P.Vote>): (r: seq<P.Vote>)
    ensures |r| == |votes| && forall i :: 0 <= i < |votes| ==> r[i] == votes[|votes| - 1 - i]
  {
    seq(|votes|, i requires 0 <= i < |votes| => votes[|votes| - 1 - i])
  }

  /** The choice from a list of votes, in list order. */
  function ListChoice(votes: seq<P.Vote>): (x: int)
    requires votes != []
  {
    var best := P.ChooseVote(ANY, AsAcks(votes));
    if best == [] then 0 else best[0].x
  }

  /** What the code puts forward when these votes are reported in this order: each reply is put in front of those before it. */
  function CodeChoice(votes: seq<P.Vote>): (x: int)
    requires votes != []
  {
    ListChoice(Reversed(votes))
  }

  /** A promise of the Promela acceptor: the vote's value, but under the ballot b of the request it answers. */
  function AsPromise(v: P.Vote, b: Ballot): (m: Msg) {
    Msg(false, b.n, b.pid, 0, v.x, 0, true)
  }

  function AsPromises(votes: seq<P.Vote>, b: Ballot): (r: seq<Msg>)
    ensures |r| == |votes| && forall i :: 0 <= i < |votes| ==> r[i] == AsPromise(votes[i], b)
  {
    seq(|votes|, i requires 0 <= i < |votes| => AsPromise(votes[i], b))
  }

  /** What the Promela scout puts forward when these votes are reported in this order. */
  ghost function ModelChoice(votes: seq<P.Vote>, b: Ballot): (x: int)
    requires votes != []
  {
    var acks := Fold(AsPromises(votes, b));
    if 0 in acks then acks[0].x else 0
  }

  /** All its promises having one ballot, the Promela scout takes the first. */
  lemma ModelTakesFirst(votes: seq<P.Vote>, b: Ballot)
    requires votes != []
    ensures ModelChoice(votes, b) == votes[0].x
  {
    var ms := AsPromises(votes, b);
    assert Carries(ms[0], 0);
    assert FirstHighest(ms, 0, 0);
    FoldIsFirstHighest(ms, 0);
    var i: nat :| StoredFrom(ms, 0, i);
    FirstHighestIsUnique(ms, 0, 0, i);
  }

  lemma {:induction false} LowerLose(d: DecreeId, rest: seq<P.Ack>, k: P.Ack)
    requires forall i :: 0 <= i < |rest| ==> Lt(rest[i].b, k.b)
    ensures P.HighestFrom(d, rest, [k]) == [k]
  {
    if rest != [] { LowerLose(d, rest[1..], k); }
  }

  lemma {:induction false} LastTopWins(d: DecreeId, front: seq<P.Ack>, k: P.Ack, rest: seq<P.Ack>, best: seq<P.Ack>)
    requires k.d == d && |best| <= 1 && (best != [] ==> Le(best[0].b, k.b))
    requires forall i :: 0 <= i < |front| ==> Le(front[i].b, k.b)
    requires forall i :: 0 <= i < |rest| ==> Lt(rest[i].b, k.b)
    ensures P.HighestFrom(d, front + [k] + rest, best) == [k]
    decreases |front|
  {
    var acks := front + [k] + rest;
    if front == [] {
      assert acks[1..] == rest;
      LowerLose(d, rest, k);
    } else {
      assert acks[1..] == front[1..] + [k] + rest;
      var best' := if acks[0].d == d && (best == [] || Le(best[0].b, acks[0].b)) then [acks[0]] else best;
      LastTopWins(d, front[1..], k, rest, best');
    }
  }

  lemma {:induction false} LastTopVote(votes: seq<P.Vote>) returns (t: nat)
    requires votes != []
    ensures LastTop(votes, t)
  {
    t := |votes| - 1;
    if |votes| > 1 {
      var front := votes[..|votes| - 1];
      var u := LastTopVote(front);
      assert forall i :: 0 <= i < |front| ==> front[i] == votes[i];
      if Lt(votes[t].b, votes[u].b) { t := u; }
    }
  }

  /** In list order, vote t is the last of the highest ones. */
  predicate LastTop(votes: seq<P.Vote>, t: nat) {
    && t < |votes| && (forall i :: 0 <= i < |votes| ==> Le(votes[i].b, votes[t].b))
    && (forall i :: t < i < |votes| ==> Lt(votes[i].b, votes[t].b))
  }

  /** The choice from a list is the value of the last of its highest votes. */
  lemma LastTopIsChoice(votes: seq<P.Vote>, t: nat)
    requires LastTop(votes, t)
    ensures ListChoice(votes) == votes[t].x
  {
    var acks := AsAcks(votes);
    assert acks == acks[..t] + [acks[t]] + acks[t + 1..];
    LastTopWins(ANY, acks[..t], acks[t], acks[t + 1..], []);
  }

  /** In order of arrival, vote t is the first of the highest ones. */
  predicate FirstTop(votes: seq<P.Vote>, t: nat) {
    && t < |votes| && (forall i :: 0 <= i < |votes| ==> Le(votes[i].b, votes[t].b))
    && (forall i :: 0 <= i < t ==> Lt(votes[i].b, votes[t].b))
  }

  /** The code's choice is the value of the first of the highest votes to arrive, and there always is one. */
  lemma CodeTakesFirstTop(votes: seq<P.Vote>) returns (t: nat)
    requires votes != []
    ensures FirstTop(votes, t) && CodeChoice(votes) == votes[t].x
  {
    var r := Reversed(votes);
    var u := LastTopVote(r);
    LastTopIsChoice(r, u);
    t := |votes| - 1 - u;
    forall i | 0 <= i < |votes| ensures Le(votes[i].b, votes[t].b) && (i < t ==> Lt(votes[i].b, votes[t].b)) {
      assert r[|votes| - 1 - i] == votes[i];
    }
  }

  ghost predicate Unanimous(votes: seq<P.Vote>) {
    forall i, j :: 0 <= i < |votes| && 0 <= j < |votes| ==> votes[i].x == votes[j].x
  }

  function Without(votes: seq<P.Vote>, i: nat): (r: seq<P.Vote>)
    requires i < |votes|
    ensures |r| == |votes| - 1 && multiset(votes) == multiset(r) + multiset{votes[i]}
    ensures forall j :: 0 <= j < i ==> r[j] == votes[j]
  {
    assert votes == votes[..i] + [votes[i]] + votes[i + 1..];
    votes[..i] + votes[i + 1..]
  }

  ghost predicate OneBallot(votes: seq<P.Vote>) {
    forall i, j :: 0 <= i < |votes| && 0 <= j < |votes| ==> votes[i].b == votes[j].b
  }

  /** The votes with number u first and number t second. */
  lemma Arranged(votes: seq<P.Vote>, u: nat, t: nat) returns (r: seq<P.Vote>)
    requires u < |votes| && t < |votes| && u != t
    ensures multiset(r) == multiset(votes) && |r| == |votes| >= 2
    ensures r[0] == votes[u] && r[1] == votes[t]
  {
    if u < t { r := Front(votes, u, t); } else { r := Front(votes, t, u); r := Swapped(r); }
  }

  lemma Front(votes: seq<P.Vote>, lo: nat, hi: nat) returns (r: seq<P.Vote>)
    requires lo < hi < |votes|
    ensures multiset(r) == multiset(votes) && |r| == |votes| >= 2 && r[0] == votes[lo] && r[1] == votes[hi]
  {
    var most := Without(votes, hi);
    var rest := Without(most, lo);
    r := [votes[lo]] + ([votes[hi]] + rest);
  }

  lemma Swapped(votes: seq<P.Vote>) returns (r: seq<P.Vote>)
    requires |votes| >= 2
    ensures multiset(r) == multiset(votes) && |r| == |votes| && r[0] == votes[1] && r[1] == votes[0]
  {
    r := [votes[1]] + ([votes[0]] + votes[2..]);
    assert votes == [votes[0]] + ([votes[1]] + votes[2..]);
  }

  lemma SameReports(votes: seq<P.Vote>, votes': seq<P.Vote>, i: nat) returns (j: nat)
    requires multiset(votes') == multiset(votes) && i < |votes'|
    ensures j < |votes| && votes'[i] == votes[j]
  {
    assert votes'[i] in multiset(votes);
    j :| 0 <= j < |votes| && votes[j] == votes'[i];
  }

  /** Both scouts make the same choice when these votes are reported in this order. */
  ghost predicate Alike(votes: seq<P.Vote>, b: Ballot) {
    votes != [] && ModelChoice(votes, b) == CodeChoice(votes)
  }

  lemma AlikeChoice(votes: seq<P.Vote>, votes': seq<P.Vote>, b: Ballot)
    requires votes != [] && (Unanimous(votes) || OneBallot(votes)) && multiset(votes') == multiset(votes)
    ensures Alike(votes', b)
  {
    assert |multiset(votes')| == |multiset(votes)|;
    ModelTakesFirst(votes', b);
    var t := CodeTakesFirstTop(votes');
    var i := SameReports(votes, votes', 0);
    var j := SameReports(votes, votes', t);
  }

  /** A low vote and a highest one for another value, unless all votes have one value or one ballot. */
  lemma LowAndTop(votes: seq<P.Vote>) returns (u: nat, t: nat)
    requires votes != [] && !Unanimous(votes) && !OneBallot(votes)
    ensures u < |votes| && t < |votes| && votes[u].x != votes[t].x && Lt(votes[u].b, votes[t].b)
    ensures forall i :: 0 <= i < |votes| ==> Le(votes[i].b, votes[t].b)
  {
    t := CodeTakesFirstTop(votes);
    if low: nat :| low < |votes| && Lt(votes[low].b, votes[t].b) && votes[low].x != votes[t].x {
      u := low;
    } else {
      u :| 0 <= u < |votes| && votes[u].b != votes[t].b;
      t :| 0 <= t < |votes| && votes[t].x != votes[u].x;
    }
  }

  /**
   The Promela scout makes the code's choice in every order of arrival exactly
   when all reported votes have one value or all have one ballot. It takes the
   first report, having lost the ballots of the votes; the code takes the first
   of the highest.
   */
  lemma ModelAgreesExactly(votes: seq<P.Vote>, b: Ballot)
    requires votes != []
    ensures (forall votes' :: multiset(votes') == multiset(votes) ==> Alike(votes', b)) <==> Unanimous(votes) || OneBallot(votes)
  {
    if Unanimous(votes) || OneBallot(votes) {
      forall votes' | multiset(votes') == multiset(votes) ensures Alike(votes', b) { AlikeChoice(votes, votes', b); }
    } else {
      var u, t := LowAndTop(votes);
      var r := Arranged(votes, u, t);
      ModelTakesFirst(r, b);
      SecondIsTop(votes, r, t);
      assert !Alike(r, b);
    }
  }

  lemma SecondIsTop(votes: seq<P.Vote>, r: seq<P.Vote>, t: nat)
    requires multiset(r) == multiset(votes) && |r| >= 2 && t < |votes| && r[1] == votes[t] && Lt(r[0].b, r[1].b)
    requires forall i :: 0 <= i < |votes| ==> Le(votes[i].b, votes[t].b)
    ensures CodeChoice(r) == r[1].x
  {
    var k := CodeTakesFirstTop(r);
    var j := SameReports(votes, r, k);
  }
}
