/** Ballot numbers, decree numbers and majorities. */
module Ballots {

  /** A ballot is ordered by its proposal number first, by its proposer's pid second. */
  datatype Ballot = Ballot(n: nat, pid: nat)

  predicate Lt(a: Ballot, b: Ballot) {
    a.n < b.n || (a.n == b.n && a.pid < b.pid)
  }

  predicate Le(a: Ballot, b: Ballot) {
    a == b || Lt(a, b)
  }

  /** The state of an acceptor that has answered nobody yet is below every ballot. */
  datatype Lifted = Bottom | Value(b: Ballot)

  predicate LiftedLe(x: Lifted, y: Lifted) {
    x.Bottom? || (y.Value? && Le(x.b, y.b))
  }

  predicate LiftedLt(x: Lifted, y: Lifted) {
    y.Value? && (x.Bottom? || Lt(x.b, y.b))
  }

  /** Decrees are ordered by legislature first, by number second. */
  datatype DecreeId = DecreeId(legislature: nat, number: nat)

  predicate Before(c: DecreeId, d: DecreeId) {
    c.legislature < d.legislature || (c.legislature == d.legislature && c.number < d.number)
  }

  const INITIAL_DECREE := DecreeId(0, 0)

  /** The three-way comparison of the Promela model, on the same fields it takes. */
  function BallotCmp(bottom0: bool, n0: nat, pid0: nat, bottom1: bool, n1: nat, pid1: nat): (r: int) {
    if bottom0 then (if bottom1 then 0 else -1)
    else if bottom1 then 1
    else if n0 < n1 then -1
    else if n0 > n1 then 1
    else if pid0 < pid1 then -1
    else if pid0 == pid1 then 0 else 1
  }

  function CmpLifted(x: Lifted, y: Lifted): (r: int) {
    BallotCmp(x.Bottom?, if x.Bottom? then 0 else x.b.n, if x.Bottom? then 0 else x.b.pid,
              y.Bottom?, if y.Bottom? then 0 else y.b.n, if y.Bottom? then 0 else y.b.pid)
  }

  /** The comparison is a total order, with the missing ballot below all others. */
  lemma CmpIsOrder(x: Lifted, y: Lifted, z: Lifted)
    ensures CmpLifted(x, y) < 0 <==> LiftedLt(x, y)
    ensures CmpLifted(x, y) == 0 <==> x == y
    ensures CmpLifted(x, y) == -CmpLifted(y, x)
    ensures CmpLifted(x, y) <= 0 && CmpLifted(y, z) <= 0 ==> CmpLifted(x, z) <= 0
  {
  }

  /** The number of positive replies a proposer waits for. */
  function Quorum(n: nat): (q: nat)
    ensures q + q > n
    ensures n <= 2 && n != 0 ==> q == n
  {
    n / 2 + 1
  }

  lemma {:induction false} SubsetSize<T>(a: set<T>, b: set<T>)
    requires a <= b
    ensures |a| <= |b|
  {
    if a != {} {
      var x :| x in a;
      SubsetSize(a - {x}, b - {x});
    }
  }

  function Below(n: nat): (s: set<nat>)
    ensures |s| == n
    ensures forall a :: a in s <==> 0 <= a < n
  {
    if n == 0 then {} else Below(n - 1) + {n - 1}
  }

  /** Two sets of acceptors too large to be apart share a member; two majorities always do. */
  lemma SetsMeet(n: nat, p: set<nat>, q: set<nat>) returns (a: nat)
    requires p <= Below(n) && q <= Below(n) && |p| + |q| > n
    ensures a in p && a in q
  {
    if p * q == {} {
      assert |p + q| == |p| + |q|;
      SubsetSize(p + q, Below(n));
      assert false;
    }
    a :| a in p * q;
  }

  /** In a group of at most two acceptors the only majority is everybody. */
  lemma SmallQuorumIsAll(n: nat, q: set<nat>, a: nat)
    requires n <= 2 && q <= Below(n) && |q| >= Quorum(n) && a < n
    ensures a in q
  {
    if a !in q {
      assert |q + {a}| == |q| + 1;
      SubsetSize(q + {a}, Below(n));
    }
  }
}
