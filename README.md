# PrimeFinder — the sequential prime search, modelled and verified in Dafny

`PrimeFinder` is the single-threaded baseline of a work-queue exercise. It has two parts:

- `isPrime(number)` is a deliberately naive trial-division test. It rejects every number below 2. Otherwise it counts `i` down from `number - 1` while `i > 1` and answers `false` at the first `i` that divides `number`.
- `trialDivision(max)` starts from an empty `TreeSet<Integer>`. When `max > 0` it visits `i = 1 .. max` in increasing order and adds every `i` that passes `isPrime`.

The model has two modules:

- `OrderedSet` (OrderedSet.dfy) is the ordered set of integers that `trialDivision` fills. It is viewed through its iteration order, a strictly increasing `seq<int>`. `Insert` is `TreeSet.add`: it puts a new element in its place in the order and does nothing when the element is already there. `SameElementsSameOrder` shows that an ordered set is determined by its elements. This is why comparing two result sets by content is the same as comparing them element by element.
- `PrimeFinder` (PrimeFinder.dfy) holds the two methods. It also holds the reference definitions they are proved against:
  - `Prime(n)`: n ≥ 2 and no d in [2, n-1] divides n.
  - `PrimesUpTo(max)`: the primes in [1, max], in increasing order.
  - `PrimeSet(max)`: the same primes as a set.

  The methods keep the source's loops. `IsPrime` counts down, with an early return. `TrialDivision` counts up and adds to a local ordered set that it reassigns. Each method is checked against the reference definitions through its loop invariants.

Java's `%` truncates toward zero, while Dafny's is Euclidean. The two agree here because every remainder the source takes has a dividend and a divisor of at least 2.

`findPrimes(max, threads)` (src/main/java/PrimeFinder.java:57-69) is meant to find the same primes with a work queue, and the tests expect it to equal `trialDivision` (src/test/java/PrimeFinderTest.java:126-135). Both `findPrimes` and the work queue's completion wait `WorkQueue.finish` (src/main/java/WorkQueue.java:89-92) are stubs that throw. `trialDivision` accepts any `max` and returns the empty set when `max ≤ 0`. This model follows the code.

## Model

| member | source | states |
|---|---|---|
| `PrimeFinder.IsPrime` | src/main/java/PrimeFinder.java:18-30 | the answer is true exactly when `number` is prime (at least 2, no divisor in [2, number-1]), and exactly when the count-down `NoDivisorBelow(number, number)` finds no divisor; false for every number below 2, including 0, 1 and all negatives; true for 2, where the count-down loop never runs; the loop terminates because `i` strictly decreases |
| `PrimeFinder.NoDivisorBelowMeans` | src/main/java/PrimeFinder.java:23-29 | checking divisors one by one from `k - 1` down to 2, as the loop does, finds none exactly when no d in [2, k) divides n |
| `PrimeFinder.PrimeByTrial` | src/main/java/PrimeFinder.java:23-29 | a number of at least 2 for which the count-down finds no divisor is prime |
| `PrimeFinder.ProductNotPrime` | src/main/java/PrimeFinder.java:12-18 | the test rejects every product a·b with a, b ≥ 2 |
| `PrimeFinder.NotPrimeFactors` | src/main/java/PrimeFinder.java:12-18 | every rejected number of at least 2 is such a product; with `ProductNotPrime`, this means that for n ≥ 2 the test is the textbook "not a product of two factors ≥ 2" |
| `PrimeFinder.TrialDivision` | src/main/java/PrimeFinder.java:43-55 | the ordered set that is returned is exactly the primes in [1, max], in increasing order, with no duplicates; it equals the set of all i with 1 ≤ i ≤ max and i prime; every element lies in [2, max]; the result is empty when max < 2, and in particular when max ≤ 0 |
| `PrimeFinder.PrimesUpToMembers` | src/main/java/PrimeFinder.java:37-55 | x is in the result for `max` exactly when 1 ≤ x ≤ max and x is prime ("all prime numbers found up to and including max") |
| `PrimeFinder.PrimesUpToIncreasing` | src/main/java/PrimeFinder.java:47-49 | because candidates are visited in increasing order and each is added at most once, the result is strictly increasing |
| `PrimeFinder.PrimesUpToAsSet` | src/main/java/PrimeFinder.java:37-44 | read as a set, the result is the set of primes in [1, max] |
| `PrimeFinder.PrimesUpTo30` | src/test/java/PrimeFinderTest.java:463-470 | the result for 30 is 2, 3, 5, 7, 11, 13, 17, 19, 23, 29, the first ten of the known primes the tests compare against |
| `OrderedSet.Insert` | src/main/java/PrimeFinder.java:49 | `add` keeps the set ordered; afterwards the set holds the old elements plus the new one; adding an element that is already present changes nothing |
| `OrderedSet.InsertAboveAll` | src/main/java/PrimeFinder.java:47-49 | adding an element larger than every element present puts it at the end, which is what each `add` in the increasing scan does |
| `OrderedSet.SameElementsSameOrder` | src/test/java/PrimeFinderTest.java:110-117 | two ordered sets with the same elements are identical in order too, so the test's comparison of `trialDivision(1000)` with the unordered set of known primes determines the result completely |

## Left out

- `WorkQueue` (the whole file) is left out. It is thread coordination: worker threads, `wait`/`notifyAll`, a `volatile` shutdown flag and `join`. Its `finish` method is an unimplemented stub that throws, so there is no completion logic to model.
- `PrimeFinder.findPrimes` is left out. It is an unimplemented stub that throws `UnsupportedOperationException`, so there is no code behind its intended equality with `trialDivision`.
- `PrimeFinder.main` and `WorkQueue.main` are left out. They only print and log.
- Logging and the test harness are left out: the benchmarks with wall-clock timing, the active-thread checks, the regular-expression checks over source text and the JUnit launcher.
- `PrimeFinder.TrialDivision`: does not model Java's 32-bit `int`. With `max = Integer.MAX_VALUE`, `i++` wraps around and `i <= max` never fails, so the Java loop does not terminate. The model uses unbounded integers and always terminates. It agrees with the source for every `max < 2^31 - 1`.
- `PrimeFinder.PrimesUpTo30`: the tests compare the result for 1000 with 168 known primes. The model proves the concrete result only up to 30. The general properties above cover every `max`.
- `PrimeFinder.IsPrime`: running time is not modelled. The trial division is quadratic by design, and only its answer is specified.
