/** `io.github.eliahburns.partition.PartitionPolicy`: a policy maps an element
    to the index of the partition it is sent to. The round-robin policy keeps
    a counter that every call increments and answers
    `abs(counter % numPartitions)`. */
module Policies {
  import opened Lang

  function Abs(x: int): (r: nat)
    ensures r == x || r == -x
  {
    if x < 0 then -x else x
  }

  /** The JVM remainder `a % b` on `Long`: it truncates toward zero, so the
      result takes the sign of the dividend (Dafny's own `%` never goes
      negative). */
  function TruncRem(a: int, b: int): (r: int)
    requires b != 0
    ensures Abs(r) < Abs(b)
    ensures a >= 0 ==> r >= 0
    ensures a <= 0 ==> r <= 0
  {
    if a >= 0 then a % Abs(b) else -((-a) % Abs(b))
  }

  /** `TruncRem(a, b)` differs from `a` by a multiple of `b`; with its
      bound and sign this fixes it as the JVM remainder. */
  lemma TruncRemCongruent(a: int, b: int)
    requires b != 0
    ensures (a - TruncRem(a, b)) % Abs(b) == 0
  {
    var n, r := Abs(b), TruncRem(a, b);
    if a >= 0 {
      ModUnique(a - r, n, a / n, 0);
    } else {
      assert -a == ((-a) / n) * n + (-a) % n;
      ModUnique(a - r, n, -((-a) / n), 0);
    }
  }

  /** The index the round-robin policy returns once its counter has been
      incremented to `count`. */
  function RoundRobinIndex(numPartitions: int, count: int): (r: int)
    requires numPartitions != 0
    ensures 0 <= r < Abs(numPartitions)
    ensures numPartitions > 0 && count >= 0 ==> r == count % numPartitions
  {
    Abs(TruncRem(count, numPartitions))
  }

  /** `RoundRobinPartitionPolicy`: the counter starts at 0 and each call
      returns the index for the incremented counter. The element plays no
      part in the choice. The counter is a plain field here: the atomicity
      of `AtomicLong` and its overflow are not modelled. */
  class RoundRobinPartitionPolicy<E> {
    const numPartitions: int
    var count: int

    /** The counter only ever grows from 0. */
    ghost predicate Valid()
      reads this
    {
      count >= 0
    }

    constructor (numPartitions: int)
      ensures Valid() && this.numPartitions == numPartitions && count == 0
    {
      this.numPartitions := numPartitions;
      count := 0;
    }

    /** `invoke(e)`: increments the counter by one and returns
        `abs(count % numPartitions)`. With `numPartitions == 0` the JVM
        throws on the division, so the model requires it to be non-zero. */
    method Invoke(e: E) returns (index: int)
      requires Valid() && numPartitions != 0
      modifies this
      ensures Valid() && count == old(count) + 1
      ensures index == RoundRobinIndex(numPartitions, count)
      ensures 0 <= index < Abs(numPartitions)
    {
      count := count + 1;
      index := Abs(TruncRem(count, numPartitions));
    }
  }

  /** `PartitionPolicy<E>`, the function type `(E) -> Int`, restricted to the
      two kinds of policy the library is used with: a stateless keyed
      function (the same element always maps to the same index) and the
      round-robin object. */
  datatype PartitionPolicy<!E> =
    | Keyed(select: E -> int)
    | RoundRobin(rr: RoundRobinPartitionPolicy<E>)
  {
    /** The state the policy reads and updates. */
    function Frame(): set<object> {
      if RoundRobin? then {rr} else {}
    }

    /** Calls of the policy do not divide by zero, and a round-robin
        counter has not gone below 0. */
    ghost predicate Callable()
      reads Frame()
    {
      RoundRobin? ==> rr.Valid() && rr.numPartitions != 0
    }

    /** The index the next call on `e` returns. */
    function Next(e: E): int
      requires Callable()
      reads Frame()
    {
      match this
      case Keyed(f) => f(e)
      case RoundRobin(p) => RoundRobinIndex(p.numPartitions, p.count + 1)
    }

    /** The indices the next `|elements|` calls, made on `elements` in
        order, return. */
    function Plan(elements: seq<E>): (plan: seq<int>)
      requires Callable()
      reads Frame()
      ensures |plan| == |elements|
      ensures Keyed? ==> forall j :: 0 <= j < |elements| ==> plan[j] == select(elements[j])
      ensures RoundRobin? ==> plan == Selections(rr.numPartitions, rr.count, |elements|)
    {
      match this
      case Keyed(f) => seq(|elements|, j requires 0 <= j < |elements| => f(elements[j]))
      case RoundRobin(p) => Selections(p.numPartitions, p.count, |elements|)
    }

    /** `policy(e)`: one call of the policy. */
    method Apply(e: E) returns (index: int)
      requires Callable()
      modifies Frame()
      ensures Callable()
      ensures index == old(Next(e))
      ensures RoundRobin? ==> rr.count == old(rr.count) + 1
    {
      match this
      case Keyed(f) =>
        index := f(e);
      case RoundRobin(p) =>
        index := p.Invoke(e);
    }
  }

  /** The indices returned by `m` successive calls of a round-robin policy
      whose counter stands at `count` before the first of them. */
  function Selections(numPartitions: int, count: int, m: nat): (s: seq<int>)
    requires numPartitions != 0
    ensures |s| == m
    ensures forall j :: 0 <= j < m ==> s[j] == RoundRobinIndex(numPartitions, count + 1 + j)
  {
    seq(m, j requires 0 <= j < m => RoundRobinIndex(numPartitions, count + 1 + j))
  }

  /** The partition indices `0, 1, ..., n-1` in order. */
  function Range(n: nat): (s: seq<int>)
    ensures |s| == n && forall i :: 0 <= i < n ==> s[i] == i
  {
    seq(n, i => i)
  }

  lemma {:induction false} RangeCountsOnce(n: nat)
    ensures forall i :: 0 <= i < n ==> multiset(Range(n))[i] == 1
    ensures forall i :: (i < 0 || n <= i) ==> multiset(Range(n))[i] == 0
  {
    if n > 0 {
      RangeCountsOnce(n - 1);
      assert Range(n) == Range(n - 1) + [n - 1];
    } else {
      assert Range(n) == [];
    }
  }

  lemma MulAtLeastOnce(a: int, n: int)
    requires n > 0 && a >= 1
    ensures a * n >= n
  {
  }

  /** Euclidean division is unique: `q * n + r` with `0 <= r < n` has
      quotient `q` and remainder `r`. */
  lemma ModUnique(x: int, n: int, q: int, r: int)
    requires n > 0 && 0 <= r < n && x == q * n + r
    ensures x % n == r && x / n == q
  {
    var q', r' := x / n, x % n;
    assert x == q' * n + r';
    assert (q - q') * n == r' - r;
    if q > q' {
      MulAtLeastOnce(q - q', n);
    } else if q < q' {
      assert (q' - q) * n == r - r';
      MulAtLeastOnce(q' - q, n);
    }
  }

  /** The calls made while the counter goes from `count + 1` to `count + n`
      visit the partitions as a rotation of `0, 1, ..., n-1`. */
  lemma RoundIsRotation(n: int, count: int)
    requires n > 0 && count >= 0
    ensures Selections(n, count, n) == Range(n)[(count + 1) % n..] + Range(n)[..(count + 1) % n]
  {
    var s := Selections(n, count, n);
    var d := (count + 1) % n;
    var q := (count + 1) / n;
    var t := Range(n)[d..] + Range(n)[..d];
    assert count + 1 == q * n + d;
    forall j | 0 <= j < n
      ensures s[j] == t[j]
    {
      if d + j < n {
        ModUnique(count + 1 + j, n, q, d + j);
        assert t[j] == d + j;
      } else {
        assert count + 1 + j == (q + 1) * n + (d + j - n);
        ModUnique(count + 1 + j, n, q + 1, d + j - n);
        assert t[j] == d + j - n;
      }
    }
  }

  /** Any `n` consecutive calls of a round-robin policy over `n > 0`
      partitions return every index in `[0, n)` exactly once. */
  lemma OneRoundVisitsEachOnce(n: int, count: int)
    requires n > 0 && count >= 0
    ensures forall i :: 0 <= i < n ==> multiset(Selections(n, count, n))[i] == 1
  {
    var d := (count + 1) % n;
    RoundIsRotation(n, count);
    RangeCountsOnce(n);
    assert Range(n) == Range(n)[..d] + Range(n)[d..];
    assert multiset(Selections(n, count, n)) == multiset(Range(n));
  }

  lemma SelectionsSplit(n: int, count: int, a: nat, b: nat)
    requires n != 0
    ensures Selections(n, count, a + b) == Selections(n, count, a) + Selections(n, count + a, b)
  {
  }

  /** The number of calls in `k` rounds of `n`, counted by addition. */
  function Rounds(n: nat, k: nat): nat {
    if k == 0 then 0 else Rounds(n, k - 1) + n
  }

  lemma {:induction false} RoundsIsProduct(n: nat, k: nat)
    ensures Rounds(n, k) == n * k
  {
    if k > 0 {
      RoundsIsProduct(n, k - 1);
      assert n * k == n * (k - 1) + n;
    }
  }

  /** `k` rounds of calls over `n > 0` partitions send exactly `k`
      elements to every partition. */
  lemma {:induction false} EvenOverRounds(n: int, count: int, k: nat)
    requires n > 0 && count >= 0
    ensures forall i :: 0 <= i < n ==> multiset(Selections(n, count, Rounds(n, k)))[i] == k
  {
    if k == 0 {
      assert Selections(n, count, 0) == [];
    } else {
      var m := Rounds(n, k - 1);
      EvenOverRounds(n, count, k - 1);
      SelectionsSplit(n, count, m, n);
      OneRoundVisitsEachOnce(n, count + m);
      var earlier, last := Selections(n, count, m), Selections(n, count + m, n);
      assert multiset(Selections(n, count, Rounds(n, k))) == multiset(earlier) + multiset(last);
      forall i | 0 <= i < n
        ensures multiset(Selections(n, count, Rounds(n, k)))[i] == k
      {
        assert multiset(earlier)[i] == k - 1 && multiset(last)[i] == 1;
      }
    }
  }

  /** `n * k` consecutive calls over `n > 0` partitions send exactly `k`
      elements to every partition (an even round-robin distribution). */
  lemma RoundsAreEven(n: int, count: int, k: nat)
    requires n > 0 && count >= 0
    ensures forall i :: 0 <= i < n ==> multiset(Selections(n, count, n * k))[i] == k
  {
    EvenOverRounds(n, count, k);
    RoundsIsProduct(n, k);
  }

  /** From a freshly constructed policy the k-th call (counting from 1)
      returns `k % n`: the first call picks partition `1 % n`, not 0. */
  lemma FromStartSelectsSuccessor(n: int, m: nat)
    requires n > 0
    ensures forall j :: 0 <= j < m ==> Selections(n, 0, m)[j] == (j + 1) % n
    ensures m > 0 ==> Selections(n, 0, m)[0] == 1 % n
  {
  }

  /** With a single partition every call selects partition 0. */
  lemma SinglePartitionAlwaysZero(count: int)
    ensures RoundRobinIndex(1, count) == 0
  {
  }
}
