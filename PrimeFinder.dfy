/**
 * The sequential prime search of the work-queue homework: a naive trial-division primality
 * test (`isPrime`) and the scan of 1..max that collects every number passing it into an
 * ordered set (`trialDivision`). Both are loops, modelled as methods and proved against the
 * reference definitions `Prime` and `PrimesUpTo`.
 *
 * Java's `%` truncates toward zero and Dafny's is Euclidean; the two agree here because
 * every remainder taken has a dividend and a divisor of at least 2.
 */
module PrimeFinder {
  import opened OrderedSet

  /** `d` divides `n` without remainder. */
  predicate Divides(d: int, n: int) {
    d != 0 && n % d == 0
  }

  /** Reference definition: `n` is at least 2 and no `d` in [2, n-1] divides it. */
  predicate Prime(n: int) {
    n >= 2 && forall d :: 2 <= d < n ==> !Divides(d, n)
  }

  /**
   * `isPrime`: below 2 the answer is false; otherwise `i` counts down from `number - 1`
   * while it exceeds 1, and the first `i` that divides `number` makes the answer false.
   */
  method IsPrime(number: int) returns (r: bool)
    ensures r <==> Prime(number)
    ensures r <==> number >= 2 && NoDivisorBelow(number, number)
    ensures number < 2 ==> !r
    ensures number == 2 ==> r
  {
    NoDivisorBelowMeans(number, number);
    if number < 2 {
      return false;
    }
    var i := number - 1;
    while i > 1
      invariant 1 <= i < number
      invariant forall d :: i < d < number ==> !Divides(d, number)
      decreases i
    {
      if number % i == 0 {
        assert Divides(i, number);
        return false;
      }
      i := i - 1;
    }
    return true;
  }

  /** A product of two factors that are both at least 2 is never prime. */
  lemma ProductNotPrime(a: int, b: int)
    requires 2 <= a && 2 <= b
    ensures !Prime(a * b)
  {
    var n := a * b;
    assert a < n by {
      assert n == a + a * (b - 1);
      assert a * (b - 1) >= a * 1;
    }
    var q, r := n / a, n % a;
    assert n == a * q + r && 0 <= r < a;
    assert a * (b - q) == r;
    // A nonzero multiple of `a` lies outside (-a, a), so the remainder `a * (b - q)` is 0.
    assert (b - q >= 1 ==> a * (b - q) >= a) && (b - q <= -1 ==> a * (b - q) <= -a);
    assert Divides(a, n);
  }

  /**
   * Every number of at least 2 that is not prime is such a product, so for n >= 2 `Prime`
   * agrees with the textbook definition "not a product of two factors of at least 2".
   */
  lemma NotPrimeFactors(n: int) returns (a: int, b: int)
    requires n >= 2 && !Prime(n)
    ensures 2 <= a && 2 <= b && a * b == n
  {
    var d :| 2 <= d < n && Divides(d, n);
    a, b := d, n / d;
    assert n == d * (n / d) + n % d;
    assert b != 1 && b != 0;
  }

  /**
   * `trialDivision`'s result in its iteration order: the primes in [1, max], increasing.
   */
  function PrimesUpTo(max: int): seq<int>
    decreases max
  {
    if max < 1 then [] else PrimesUpTo(max - 1) + (if Prime(max) then [max] else [])
  }

  /** The same result as a set of numbers: every prime in [1, max]. */
  function PrimeSet(max: int): set<int> {
    set i | 1 <= i <= max && Prime(i)
  }

  /** `PrimesUpTo(max)` holds exactly the primes in [1, max]. */
  lemma {:induction false} PrimesUpToMembers(max: int)
    ensures forall x :: x in PrimesUpTo(max) <==> 1 <= x <= max && Prime(x)
    decreases max
  {
    if max >= 1 {
      PrimesUpToMembers(max - 1);
    }
  }

  /** `PrimesUpTo(max)` is in strictly increasing order, hence free of duplicates. */
  lemma {:induction false} PrimesUpToIncreasing(max: int)
    ensures StrictlyIncreasing(PrimesUpTo(max))
    decreases max
  {
    if max >= 1 {
      PrimesUpToIncreasing(max - 1);
      PrimesUpToMembers(max - 1);
      var prev := PrimesUpTo(max - 1);
      assert forall k :: 0 <= k < |prev| ==> prev[k] in prev;
    }
  }

  /**
   * `trialDivision`: an empty ordered set, then, when `max > 0`, every `i` from 1 to `max`
   * in increasing order is tested and added when it passes.
   */
  method TrialDivision(max: int) returns (primes: seq<int>)
    ensures primes == PrimesUpTo(max)
    ensures StrictlyIncreasing(primes)
    ensures forall x :: x in primes <==> 1 <= x <= max && Prime(x)
    ensures (set x | x in primes) == PrimeSet(max)
    ensures forall x :: x in primes ==> 2 <= x <= max
    ensures max < 2 ==> primes == []
  {
    primes := [];
    if max > 0 {
      var i := 1;
      while i <= max
        invariant 1 <= i <= max + 1
        invariant primes == PrimesUpTo(i - 1)
      {
        var isPrime := IsPrime(i);
        if isPrime {
          // `i` exceeds every prime found so far, so `add` places it last.
          PrimesUpToIncreasing(i - 1);
          PrimesUpToMembers(i - 1);
          InsertAboveAll(primes, i);
          primes := Insert(primes, i);
        }
        i := i + 1;
      }
    }
    PrimesUpToMembers(max);
    PrimesUpToIncreasing(max);
    PrimesUpToAsSet(max);
  }

  /** Read as a set, `PrimesUpTo(max)` is the set of primes in [1, max]. */
  lemma PrimesUpToAsSet(max: int)
    ensures (set x | x in PrimesUpTo(max)) == PrimeSet(max)
  {
    PrimesUpToMembers(max);
  }

  /**
   * No `d` in [2, k) divides `n`, decided by checking `k - 1`, `k - 2`, ... down to 2: the
   * count-down of `IsPrime` as a function, which concrete examples can evaluate.
   */
  predicate NoDivisorBelow(n: int, k: int)
    decreases k
  {
    k <= 2 || (!Divides(k - 1, n) && NoDivisorBelow(n, k - 1))
  }

  /** `NoDivisorBelow` decides what its name says. */
  lemma {:induction false} NoDivisorBelowMeans(n: int, k: int)
    ensures NoDivisorBelow(n, k) <==> forall d :: 2 <= d < k ==> !Divides(d, n)
    decreases k
  {
    if k > 2 {
      NoDivisorBelowMeans(n, k - 1);
    }
  }

  /** A number of at least 2 that the count-down finds no divisor of is prime. */
  lemma PrimeByTrial(n: int)
    requires n >= 2 && NoDivisorBelow(n, n)
    ensures Prime(n)
  {
    NoDivisorBelowMeans(n, n);
  }

  /**
   * The primes up to 30, in increasing order: the first ten of the known primes below 1000
   * that the result for 1000 is compared with.
   */
  lemma PrimesUpTo30()
    ensures PrimesUpTo(30) == [2, 3, 5, 7, 11, 13, 17, 19, 23, 29]
  {
    // The primes: no divisor below them, checked by counting down.
    PrimeByTrial(2);
    PrimeByTrial(3);
    PrimeByTrial(5);
    PrimeByTrial(7);
    PrimeByTrial(11);
    PrimeByTrial(13);
    PrimeByTrial(17);
    assert NoDivisorBelow(19, 10);
    PrimeByTrial(19);
    assert NoDivisorBelow(23, 12);
    PrimeByTrial(23);
    assert NoDivisorBelow(29, 15);
    PrimeByTrial(29);
    // The other numbers from 4 on: a divisor of each.
    assert Divides(2, 4) && Divides(2, 6) && Divides(2, 8) && Divides(3, 9) && Divides(2, 10);
    assert Divides(2, 12) && Divides(2, 14) && Divides(3, 15) && Divides(2, 16) && Divides(2, 18);
    assert Divides(2, 20) && Divides(3, 21) && Divides(2, 22) && Divides(2, 24) && Divides(5, 25);
    assert Divides(2, 26) && Divides(3, 27) && Divides(2, 28) && Divides(2, 30);
    assert PrimesUpTo(5) == [2, 3, 5];
    assert PrimesUpTo(10) == [2, 3, 5, 7];
    assert PrimesUpTo(15) == [2, 3, 5, 7, 11, 13];
    assert PrimesUpTo(20) == [2, 3, 5, 7, 11, 13, 17, 19];
    assert PrimesUpTo(25) == [2, 3, 5, 7, 11, 13, 17, 19, 23];
  }
}
