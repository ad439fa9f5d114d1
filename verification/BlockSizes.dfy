/** The configuration check on `blockSizes` (validateBlockSizes of the Slurm engine). */
module BlockSizes {
  import opened Arithmetic

  const MAX_LEN := 20
  const MAX_VALUE := 65_536

  /** Accepted, or the branch that rejected together with the offending index. */
  datatype Verdict =
    | Accepted
    | TooMany
    | NotPositive(at: nat)
    | TooLarge(at: nat)
    | NotIncreasing(at: nat)
    | NotMultiple(at: nat)
    | NotPowerOfTwo(at: nat)

  /** Go's `&` on non-negative integers. */
  function BitAnd(a: nat, b: nat): nat {
    if a == 0 || b == 0 then 0 else (a % 2) * (b % 2) + 2 * BitAnd(a / 2, b / 2)
  }

  lemma {:induction false} BitAndSelf(m: nat)
    ensures BitAnd(m, m) == m
  {
    if m != 0 { BitAndSelf(m / 2); }
  }

  lemma Pow2Doubles(m: nat)
    requires m >= 1
    ensures IsPow2(2 * m) <==> IsPow2(m)
  {
    if IsPow2(m) {
      var k: nat :| m == Pow2(k);
      assert 2 * m == Pow2(k + 1);
    }
    if IsPow2(2 * m) {
      var k: nat :| 2 * m == Pow2(k);
      assert k > 0 && m == Pow2(k - 1);
    }
  }

  /** The source's bit trick decides "power of two". */
  lemma {:induction false} BitTrick(n: nat)
    requires n >= 1
    ensures BitAnd(n, n - 1) == 0 <==> IsPow2(n)
  {
    var m := n / 2;
    if n == 1 {
      assert Pow2(0) == 1;
    } else if n % 2 == 0 {
      BitTrick(m);
      Pow2Doubles(m);
      assert (n - 1) / 2 == m - 1;
    } else {
      BitAndSelf(m);
      assert (n - 1) / 2 == m;
      OddNotPow2(n);
    }
  }

  lemma OddNotPow2(n: int)
    requires n > 1 && n % 2 == 1
    ensures !IsPow2(n)
  {
    forall k: nat ensures n != Pow2(k) {
      if k > 0 { assert Pow2(k) == 2 * Pow2(k - 1); }
    }
  }

  ghost predicate LegalStep(prev: int, cur: int) {
    exists k: nat :: k > 0 && cur == prev * Pow2(k)
  }

  /** What acceptance means: bounded, positive, and doubling at least once from entry to entry. */
  ghost predicate Chain(sizes: seq<int>) {
    && |sizes| <= MAX_LEN
    && (forall i :: 0 <= i < |sizes| ==> 0 < sizes[i] <= MAX_VALUE)
    && (forall i :: 0 < i < |sizes| ==> LegalStep(sizes[i - 1], sizes[i]))
  }

  /** The fault a rejection names is there, and no earlier test of that entry would have found one. */
  ghost predicate Explains(sizes: seq<int>, v: Verdict) {
    match v
    case Accepted => true
    case TooMany => |sizes| > MAX_LEN
    case NotPositive(i) => i < |sizes| && sizes[i] <= 0
    case TooLarge(i) => i < |sizes| && sizes[i] > MAX_VALUE
    case NotIncreasing(i) => 0 < i < |sizes| && 0 < sizes[i] <= MAX_VALUE && sizes[i] <= sizes[i - 1]
    case NotMultiple(i) => 0 < i < |sizes| && 0 < sizes[i - 1] < sizes[i] && sizes[i] % sizes[i - 1] != 0
    case NotPowerOfTwo(i) =>
      0 < i < |sizes| && 0 < sizes[i - 1] < sizes[i] && sizes[i] % sizes[i - 1] == 0 && !IsPow2(sizes[i] / sizes[i - 1])
  }

  lemma LegalStepGrows(prev: int, cur: int)
    requires prev > 0 && LegalStep(prev, cur)
    ensures cur > prev && Divides(prev, cur) && IsPow2(cur / prev)
  {
    var k: nat :| k > 0 && cur == prev * Pow2(k);
    DividesIntro(prev, Pow2(k));
    Pow2Monotone(1, k);
    ScaleMonotone(prev, 2, Pow2(k));
  }

  lemma LegalStepFromRatio(prev: int, cur: int)
    requires prev > 0 && cur > prev && Divides(prev, cur) && IsPow2(cur / prev)
    ensures LegalStep(prev, cur)
  {
    var k: nat :| cur / prev == Pow2(k);
    assert k > 0;
    assert cur == prev * Pow2(k);
  }

  lemma RatioPositive(prev: int, cur: int)
    requires 0 < prev < cur
    ensures cur / prev >= 1
  {}

  /** The source's remainder and bit tests. */
  predicate Doubles(prev: int, cur: int)
    requires 0 < prev < cur
  {
    RatioPositive(prev, cur);
    cur % prev == 0 && BitAnd(cur / prev, cur / prev - 1) == 0
  }

  /** The tests decide a legal step. */
  lemma StepTest(prev: int, cur: int)
    requires prev > 0
    ensures LegalStep(prev, cur) <==> prev < cur && Doubles(prev, cur)
  {
    if LegalStep(prev, cur) { LegalStepGrows(prev, cur); }
    if prev < cur {
      RatioPositive(prev, cur);
      BitTrick(cur / prev);
      if Doubles(prev, cur) { LegalStepFromRatio(prev, cur); }
    }
  }

  /** A chain goes on exactly with a bounded entry that is a legal step up. */
  lemma ChainNext(sizes: seq<int>, i: nat)
    requires 0 < i < |sizes| <= MAX_LEN && Chain(sizes[..i])
    ensures Chain(sizes[..i + 1]) <==> 0 < sizes[i] <= MAX_VALUE && LegalStep(sizes[i - 1], sizes[i])
  {
    var part, next := sizes[..i], sizes[..i + 1];
    assert next == part + [sizes[i]];
    assert next[i - 1] == sizes[i - 1] && next[i] == sizes[i];
    if 0 < sizes[i] <= MAX_VALUE && LegalStep(sizes[i - 1], sizes[i]) {
      forall j | 0 < j < |next| ensures LegalStep(next[j - 1], next[j]) {
        if j < i { assert LegalStep(part[j - 1], part[j]); }
      }
    }
  }

  lemma ChainPrefix(sizes: seq<int>, i: nat)
    requires i <= |sizes|
    ensures Chain(sizes) ==> Chain(sizes[..i])
  {
    if Chain(sizes) {
      var part := sizes[..i];
      forall j | 0 < j < |part| ensures LegalStep(part[j - 1], part[j]) {
        assert LegalStep(sizes[j - 1], sizes[j]);
      }
    }
  }

  /** The tests of one entry against the one before it; Accepted goes on. */
  method TestStep(sizes: seq<int>, i: nat) returns (v: Verdict)
    requires 0 < i < |sizes| <= MAX_LEN && Chain(sizes[..i]) && sizes[i - 1] > 0
    ensures v.Accepted? <==> Chain(sizes[..i + 1])
    ensures !v.TooMany? && (!v.Accepted? ==> v.at == i) && Explains(sizes, v)
  {
    var prev, cur := sizes[i - 1], sizes[i];
    ChainNext(sizes, i);
    StepTest(prev, cur);
    if cur <= 0 { return NotPositive(i); }
    if cur > MAX_VALUE { return TooLarge(i); }
    if cur <= prev { return NotIncreasing(i); }
    if cur % prev != 0 { return NotMultiple(i); }
    var ratio := cur / prev;
    RatioPositive(prev, cur);
    BitTrick(ratio);
    if BitAnd(ratio, ratio - 1) != 0 { return NotPowerOfTwo(i); }
    return Accepted;
  }

  method Validate(sizes: seq<int>) returns (v: Verdict)
    ensures v.Accepted? <==> Chain(sizes)
    ensures (v.TooMany? <==> |sizes| > MAX_LEN) && Explains(sizes, v)
    ensures !v.Accepted? && !v.TooMany? ==> v.at < |sizes| && Chain(sizes[..v.at]) && !Chain(sizes[..v.at + 1])
  {
    if |sizes| == 0 { return Accepted; }
    if |sizes| > MAX_LEN { return TooMany; }
    assert sizes[..1][0] == sizes[0];
    if sizes[0] <= 0 { return NotPositive(0); }
    if sizes[0] > MAX_VALUE { return TooLarge(0); }
    var i := 1;
    while i < |sizes|
      invariant 1 <= i <= |sizes| && Chain(sizes[..i]) && sizes[i - 1] > 0
    {
      v := TestStep(sizes, i);
      if !v.Accepted? {
        ChainPrefix(sizes, i + 1);
        return;
      }
      assert sizes[..i + 1][i] == sizes[i];
      i := i + 1;
    }
    assert sizes[..|sizes|] == sizes;
    return Accepted;
  }

  /** Within an accepted list every later size is a multiple of every earlier one. */
  lemma {:induction false} ChainDivides(sizes: seq<int>, i: nat, j: nat)
    requires Chain(sizes) && i <= j < |sizes|
    ensures sizes[i] <= sizes[j] && Divides(sizes[i], sizes[j])
    decreases j
  {
    if i == j {
      DividesIntro(sizes[i], 1);
    } else {
      ChainDivides(sizes, i, j - 1);
      LegalStepGrows(sizes[j - 1], sizes[j]);
      DividesTransitive(sizes[i], sizes[j - 1], sizes[j]);
    }
  }
}
