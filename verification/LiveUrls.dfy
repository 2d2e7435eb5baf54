/** The round-robin choice of a LiveKit URL: one 64-bit counter, incremented atomically by every caller. */
module LiveUrls {
  import opened Arithmetic

  const TWO_64 := 0x1_0000_0000_0000_0000

  class LiveKit {
    const urls: seq<string>
    var index: int

    ghost predicate Valid()
      reads this
    {
      0 <= index < TWO_64
    }

    constructor (urls: seq<string>)
      ensures Valid() && this.urls == urls && index == 0
    {
      this.urls, index := urls, 0;
    }

    /** The code asks for a configured URL: with none it divides by zero. */
    method GetLiveURL() returns (url: string)
      requires Valid() && |urls| > 0
      modifies this
      ensures Valid()
      ensures |urls| == 1 ==> url == urls[0] && index == old(index)
      ensures |urls| > 1 ==> url == urls[Position(old(index), 0, |urls|)] && index == Counter(old(index), 1)
    {
      if |urls| == 1 {
        return urls[0];
      }
      index := (index + 1) % TWO_64;
      var ticket := (index - 1) % TWO_64;
      url := urls[ticket % |urls|];
    }
  }

  /** The counter after k calls. */
  function Counter(start: int, k: nat): (value: int) {
    (start + k) % TWO_64
  }

  /** The position that the (k+1)-th call from the counter `start` gets, among n URLs. */
  function Position(start: int, k: nat, n: int): (p: int)
    requires n > 0
    ensures 0 <= p < n
  {
    Counter(start, k) % n
  }

  /** Calls one after the other, in whatever order their callers come, see the counter go up by one each time. */
  lemma CallsCompose(start: int, j: nat, k: nat, n: int)
    requires n > 0
    ensures Position(Counter(start, j), k, n) == Position(start, j + k, n)
  {
  }

  /** The first of all calls gets the first URL, the next one the next, and so on round, for 2^64 calls. */
  lemma FirstCalls(k: nat, n: int)
    requires n > 0
    ensures k < 0x1_0000_0000_0000_0000 ==> Position(0, k, n) == k % n
    ensures Position(0, k + 0x1_0000_0000_0000_0000, n) == Position(0, k, n)
  {
    assert (k + TWO_64) % TWO_64 == k % TWO_64;
  }

  // ---- n consecutive calls ----

  /** The n calls from the counter `start` on return each position exactly once. */
  ghost predicate EachOnce(start: int, n: int)
    requires n > 0
  {
    forall p :: 0 <= p < n ==> Once(start, n, p)
  }

  ghost predicate Once(start: int, n: int, p: int)
    requires n > 0
  {
    exists k: nat :: OnlyCall(start, n, p, k)
  }

  ghost predicate OnlyCall(start: int, n: int, p: int, k: nat)
    requires n > 0
  {
    k < n && Position(start, k, n) == p && forall j: nat :: j < n && Position(start, j, n) == p ==> j == k
  }

  /** The positions are those of a counter that never wraps. */
  ghost predicate Straight(start: int, n: int)
    requires n > 0
  {
    forall k: nat :: k < n ==> Position(start, k, n) == (start + k) % n
  }

  lemma ResidueIsOnce(start: int, n: int, p: int, j: int, k: int)
    requires n > 0 && 0 <= j < n && 0 <= k < n && (start + j) % n == (start + k) % n
    ensures j == k
  {
    var d := (start + j) / n - (start + k) / n;
    assert j - k == n * d;
    MultipleIsFar(n, d);
  }

  lemma StraightIsEachOnce(start: int, n: int)
    requires n > 0 && Straight(start, n)
    ensures EachOnce(start, n)
  {
    forall p | 0 <= p < n ensures Once(start, n, p) {
      var k: nat := (p - start) % n;
      var q := (p - start) / n;
      assert start + k == (-q) * n + p;
      RemainderIs(start + k, n, -q, p);
      forall j: nat | j < n && Position(start, j, n) == p ensures j == k {
        ResidueIsOnce(start, n, p, j, k);
      }
      assert OnlyCall(start, n, p, k);
    }
  }

  /** As long as the counter does not wrap around, any n consecutive calls return each position exactly once. */
  lemma ConsecutiveCalls(start: int, n: int)
    requires n > 0 && 0 <= start && start + n <= TWO_64
    ensures EachOnce(start, n)
  {
    forall k: nat | k < n ensures Position(start, k, n) == (start + k) % n {
      assert Counter(start, k) == start + k;
    }
    StraightIsEachOnce(start, n);
  }

  lemma WholeTurns(x: int, n: int)
    requires n > 0 && TWO_64 % n == 0 && 0 <= x
    ensures x % TWO_64 % n == x % n
  {
    var a, b := x / TWO_64, TWO_64 / n;
    var y := x % TWO_64;
    var q, r := y / n, y % n;
    assert x == a * (b * n) + (q * n + r);
    assert a * (b * n) == a * b * n;
    assert (a * b + q) * n == a * b * n + q * n;
    RemainderIs(x, n, a * b + q, r);
  }

  /** Where the counter wraps, the round is fair exactly when the number of URLs divides 2^64. */
  lemma FairForEverIff(n: int)
    requires 0 < n <= TWO_64
    ensures (forall start :: 0 <= start < TWO_64 ==> EachOnce(start, n)) <==> TWO_64 % n == 0
  {
    if TWO_64 % n == 0 {
      forall start | 0 <= start < TWO_64 ensures EachOnce(start, n) {
        forall k: nat | k < n ensures Position(start, k, n) == (start + k) % n {
          WholeTurns(start + k, n);
        }
        StraightIsEachOnce(start, n);
      }
    } else {
      UnfairWrap(n);
    }
  }

  /** The call before the wrap and a call soon after it get the same position. */
  lemma UnfairWrap(n: int)
    requires 0 < n <= TWO_64 && TWO_64 % n != 0
    ensures !EachOnce(TWO_64 - 1, n)
  {
    var r := TWO_64 % n;
    var q := TWO_64 / n;
    assert TWO_64 - 1 == q * n + (r - 1);
    RemainderIs(TWO_64 - 1, n, q, r - 1);
    assert Counter(TWO_64 - 1, 0) == TWO_64 - 1 && Counter(TWO_64 - 1, r) == r - 1;
    RemainderIs(r - 1, n, 0, r - 1);
    assert Position(TWO_64 - 1, 0, n) == r - 1 && Position(TWO_64 - 1, r, n) == r - 1;
    assert !Once(TWO_64 - 1, n, r - 1);
  }

  // ---- k calls ----

  /** How many of the first k calls from the counter `start` return position p. */
  function Hits(start: int, n: int, p: int, k: nat): (count: nat)
    requires n > 0
  {
    if k == 0 then 0 else Hits(start, n, p, k - 1) + (if Position(start, k - 1, n) == p then 1 else 0)
  }

  /** How many numbers from 0 up to x leave the remainder p. */
  function Below(x: int, n: int, p: int): (count: int)
    requires n > 0
  {
    x / n + (if x % n > p then 1 else 0)
  }

  lemma BelowNext(x: int, n: int, p: int)
    requires n > 0 && 0 <= p < n
    ensures Below(x + 1, n, p) == Below(x, n, p) + (if x % n == p then 1 else 0)
  {
    var q, r := x / n, x % n;
    if r + 1 < n {
      RemainderIs(x + 1, n, q, r + 1);
    } else {
      assert x + 1 == (q + 1) * n;
      RemainderIs(x + 1, n, q + 1, 0);
    }
  }

  lemma {:induction false} HitsAreBelow(start: int, n: int, p: int, k: nat)
    requires n > 0 && 0 <= p < n && 0 <= start && start + k <= TWO_64
    ensures Hits(start, n, p, k) == Below(start + k, n, p) - Below(start, n, p)
  {
    if k > 0 {
      assert Position(start, k - 1, n) == (start + k - 1) % n by {
        assert Counter(start, k - 1) == start + k - 1;
      }
      hide Position, Counter, Below;
      HitsAreBelow(start, n, p, k - 1);
      BelowNext(start + k - 1, n, p);
    }
  }

  lemma SumSplits(x: int, y: int, n: int)
    requires n > 0
    ensures var r := x % n + y % n;
            if r < n then (x + y) / n == x / n + y / n && (x + y) % n == r
            else (x + y) / n == x / n + y / n + 1 && (x + y) % n == r - n
  {
    var q, r := x / n + y / n, x % n + y % n;
    assert x == x / n * n + x % n && y == y / n * n + y % n;
    assert q * n == x / n * n + y / n * n;
    if r < n {
      RemainderIs(x + y, n, q, r);
    } else {
      assert (q + 1) * n == q * n + n;
      RemainderIs(x + y, n, q + 1, r - n);
    }
  }

  /** Over k calls without a wrap every position is returned floor(k / n) or ceil(k / n) times. */
  lemma {:induction false} FairShare(start: int, n: int, p: int, k: nat)
    requires n > 0 && 0 <= p < n && 0 <= start && start + k <= TWO_64
    ensures k / n <= Hits(start, n, p, k) <= k / n + (if k % n == 0 then 0 else 1)
  {
    HitsAreBelow(start, n, p, k);
    SumSplits(start, k, n);
    hide Hits;
  }
}
