/**
 * One left diagonal of the rule-30 triangle, run-length encoded as `leadingZeros` implicit zeros,
 * then a finite `transit`, then a `pattern` repeated forever. Positions are 1-based.
 */
module Diagonals {
  import opened Bits
  import opened Wrappers

  /** The value of a diagonal buffer: its three fields. */
  datatype Diag = Diag(leadingZeros: nat, transit: seq<Bit>, pattern: seq<Bit>)
  {
    /** Reading past the transit needs a pattern: `get_from_index` unwraps an index into it. */
    predicate Readable(i: nat)
    {
      i <= leadingZeros + |transit| || |pattern| > 0
    }

    /** The state at position `i` (`get_from_index`). */
    function Get(i: nat): (b: Bit)
      requires Readable(i)
      ensures i <= leadingZeros ==> b == 0
    {
      if i <= leadingZeros then 0
      else if i <= |transit| + leadingZeros then transit[i - leadingZeros - 1]
      else pattern[(i - |transit| - leadingZeros - 1) % |pattern|]
    }

    function HasStateInPattern(state: Bit): (r: bool)
      ensures r <==> CountStateInPattern(state) > 0
    {
      OccurrencesPositive(pattern, state);
      state in pattern
    }

    function CountStateInPattern(state: Bit): (n: nat)
      ensures n <= |pattern|
    {
      Occurrences(pattern, state)
    }
  }

  /** `Diagonal::new`: pattern first, transit second, no leading zeros; it reads its transit from position 1. */
  function New(pattern: seq<Bit>, transit: seq<Bit>): (d: Diag)
    ensures d.pattern == pattern && d.leadingZeros == 0 && |d.transit| == |transit|
    ensures forall i :: 1 <= i <= |transit| ==> d.Get(i) == transit[i - 1]
  {
    Diag(0, transit, pattern)
  }

  /** The digit a state is written with. */
  function Digit(b: Bit): char
  {
    if b == 0 then '0' else '1'
  }

  function Digits(bits: seq<Bit>): (s: string)
    ensures |s| == |bits|
  {
    seq(|bits|, k requires 0 <= k < |bits| => Digit(bits[k]))
  }

  /** Reads a string of binary digits; any other character gives `None`. */
  function ParseBits(s: string): (r: Option<seq<Bit>>)
    ensures r.Some? <==> forall k :: 0 <= k < |s| ==> s[k] == '0' || s[k] == '1'
    ensures r.Some? ==> |r.value| == |s| && forall k :: 0 <= k < |s| ==> (r.value[k] == 1 <==> s[k] == '1')
  {
    if s == [] then Some([])
    else match ParseBits(s[..|s| - 1])
      case None => None
      case Some(front) =>
        if s[|s| - 1] == '0' then Some(front + [0])
        else if s[|s| - 1] == '1' then Some(front + [1])
        else None
  }

  /** Writing states as digits and reading them back gives the states again. */
  lemma ParseDigits(bits: seq<Bit>)
    ensures ParseBits(Digits(bits)) == Some(bits)
  {
    var r := ParseBits(Digits(bits));
    assert r.Some?;
    assert r.value == bits;
  }

  /** `Diagonal::new_from_binary`: transit first, pattern second (the reverse of `New`). */
  function NewFromBinary(transit: string, pattern: string): (r: Option<Diag>)
    ensures r.Some? ==> r.value.leadingZeros == 0 && |r.value.transit| == |transit| && |r.value.pattern| == |pattern|
    ensures r.Some? ==> ParseBits(transit) == Some(r.value.transit) && ParseBits(pattern) == Some(r.value.pattern)
    ensures (forall k :: 0 <= k < |transit| ==> transit[k] in "01") && (forall k :: 0 <= k < |pattern| ==> pattern[k] in "01")
            ==> r.Some?
  {
    match (ParseBits(transit), ParseBits(pattern))
    case (Some(t), Some(p)) => Some(New(p, t))
    case _ => None
  }

  /** The unit test `test_new_in_binary`: argument order of the two constructors. */
  lemma NewFromBinaryTest()
    ensures NewFromBinary("1001", "0101") == Some(New([0, 1, 0, 1], [1, 0, 0, 1]))
    ensures var b := NewFromBinary("01010101", "10011001");
      b.Some? && b.value.pattern != [0, 1, 0, 1] && b.value.transit != [1, 0, 0, 1]
  {
    ParseDigits([1, 0, 0, 1]);
    ParseDigits([0, 1, 0, 1]);
    assert Digits([1, 0, 0, 1]) == "1001";
    assert Digits([0, 1, 0, 1]) == "0101";
  }

  // ----- the denoted sequence -----

  function Zeros(n: nat): (z: seq<Bit>)
    ensures |z| == n && forall k :: 0 <= k < n ==> z[k] == 0
  {
    seq(n, _ => 0)
  }

  function Repeat(p: seq<Bit>, copies: nat): (r: seq<Bit>)
    ensures |r| == copies * |p|
  {
    if copies == 0 then [] else Repeat(p, copies - 1) + p
  }

  /** The first positions of the diagonal written out: zeros, the transit, then `copies` periods. */
  function Unrolled(d: Diag, copies: nat): seq<Bit>
  {
    Zeros(d.leadingZeros) + d.transit + Repeat(d.pattern, copies)
  }

  lemma {:induction false} MulAtLeast(n: int, k: int)
    requires n > 0 && k >= 1
    ensures n * k >= n
  {
    if k > 1 {
      MulAtLeast(n, k - 1);
      assert n * k == n * (k - 1) + n;
    }
  }

  lemma ZeroMultiple(n: int, k: int)
    requires n > 0
    ensures -n < n * k < n ==> k == 0
  {
    if k >= 1 {
      MulAtLeast(n, k);
    } else if k <= -1 {
      MulAtLeast(n, -k);
      assert n * k == -(n * -k);
    }
  }

  /** Euclidean division is unique: a remainder in range pins `a % n`. */
  lemma ModUnique(a: nat, n: nat, q: int, r: int)
    requires n > 0 && 0 <= r < n && a == q * n + r
    ensures a % n == r
  {
    var q', r' := a / n, a % n;
    assert a == q' * n + r';
    assert n * (q - q') == r' - r;
    ZeroMultiple(n, q - q');
  }

  lemma ModAddPeriod(x: nat, n: nat)
    requires n > 0
    ensures (x + n) % n == x % n
  {
    ModUnique(x + n, n, x / n + 1, x % n);
  }

  lemma ModSucc(x: nat, n: nat)
    requires n > 0
    ensures (x + 1) % n == if x % n == n - 1 then 0 else x % n + 1
  {
    if x % n == n - 1 {
      ModUnique(x + 1, n, x / n + 1, 0);
    } else {
      ModUnique(x + 1, n, x / n, x % n + 1);
    }
  }

  /**
   * `Get` is the denoted sequence: position `i` is element `i - 1` of leading zeros, transit and
   * as many copies of the pattern as needed.
   */
  lemma {:induction false} GetIsUnrolled(d: Diag, copies: nat, i: nat)
    requires 1 <= i <= |Unrolled(d, copies)|
    ensures d.Readable(i) && d.Get(i) == Unrolled(d, copies)[i - 1]
  {
    var z, t, p := d.leadingZeros, d.transit, d.pattern;
    if copies == 0 {
      assert Unrolled(d, 0) == Zeros(z) + t;
    } else if i <= |Unrolled(d, copies - 1)| {
      GetIsUnrolled(d, copies - 1, i);
      assert Unrolled(d, copies) == Unrolled(d, copies - 1) + p;
    } else {
      assert Unrolled(d, copies) == Unrolled(d, copies - 1) + p;
      var r := i - 1 - |Unrolled(d, copies - 1)|;
      assert |Unrolled(d, copies - 1)| == z + |t| + (copies - 1) * |p|;
      assert i - |t| - z - 1 == (copies - 1) * |p| + r;
      ModUnique(i - |t| - z - 1, |p|, copies - 1, r);
    }
  }

  /** Positions up to the leading-zero count, position 0 included, read 0. */
  lemma GetLeadingZeros(d: Diag, i: nat)
    requires i <= d.leadingZeros
    ensures d.Readable(i) && d.Get(i) == 0
  {
  }

  /** Past the transit the diagonal is periodic with period `|pattern|`. */
  lemma GetPeriodic(d: Diag, i: nat)
    requires |d.pattern| > 0 && i > d.leadingZeros + |d.transit|
    ensures d.Get(i + |d.pattern|) == d.Get(i)
  {
    ModAddPeriod(i - |d.transit| - d.leadingZeros - 1, |d.pattern|);
  }

  /** The unit test `test_get_from_index_without_leading`: reads inside the transit and inside the pattern. */
  lemma GetFromIndexTest()
    ensures var d := New([1, 1, 0, 0, 1, 1, 0, 0], [0, 0, 0, 0, 1, 0, 1, 0, 1, 0, 1, 0, 1, 0, 1, 0]);
      d.Get(1) == 0 && d.Get(5) == 1 && d.Get(10) == 0 && d.Get(15) == 1 && d.Get(20) == 0 && d.Get(25) == 1
  {
    var p: seq<Bit> := [1, 1, 0, 0, 1, 1, 0, 0];
    var t: seq<Bit> := [0, 0, 0, 0, 1, 0, 1, 0, 1, 0, 1, 0, 1, 0, 1, 0];
    var d := Diag(0, t, p);
    assert New(p, t) == d;
    assert d.Get(20) == p[3];
    assert d.Get(25) == p[0];
  }

  /** The unit test `test_get_from_index_with_leading`: four leading zeros shift every read by four. */
  lemma GetFromIndexLeadingZerosTest()
    ensures var d := New([1, 1, 0, 0, 1, 1, 0, 0], [1, 0, 1, 0, 1, 0, 1, 0, 1, 0, 1, 0]).(leadingZeros := 4);
      d.Get(1) == 0 && d.Get(5) == 1 && d.Get(10) == 0 && d.Get(15) == 1 && d.Get(20) == 0 && d.Get(25) == 1
  {
  }

  /** The unit tests `test_has_state_in_pattern` and `test_count_state_in_pattern`. */
  lemma PatternStateTests()
    ensures New([1, 1, 0, 0], [0, 0, 0, 0]).HasStateInPattern(1)
    ensures !New([0, 0, 0, 0], [0, 0, 0, 0]).HasStateInPattern(1)
    ensures New([1, 1, 0, 0], [0, 0, 0, 0]).CountStateInPattern(1) == 2
    ensures New([0, 0, 0, 0], [0, 0, 0, 0]).CountStateInPattern(1) == 0
  {
    var p0: seq<Bit>, p1: seq<Bit>, p2: seq<Bit>, p3: seq<Bit>, p4: seq<Bit> := [], [1], [1, 1], [1, 1, 0], [1, 1, 0, 0];
    assert p1[..0] == p0 && p2[..1] == p1 && p3[..2] == p2 && p4[..3] == p3;
    assert Occurrences(p1, 1) == 1;
    assert Occurrences(p2, 1) == 2;
    assert Occurrences(p3, 1) == 2;
    var q: seq<Bit> := [0, 0, 0, 0];
    assert 1 !in q;
  }

  /** Both counts together cover the pattern, so a state is present iff its count is positive and the other count is below the length. */
  lemma CountsCoverPattern(d: Diag)
    ensures d.CountStateInPattern(0) + d.CountStateInPattern(1) == |d.pattern|
    ensures d.HasStateInPattern(1) <==> d.CountStateInPattern(0) < |d.pattern|
  {
    OccurrencesSplit(d.pattern);
  }

  // ----- eluding the transit -----

  function RotateRight(p: seq<Bit>): (r: seq<Bit>)
    requires |p| > 0
    ensures |r| == |p|
  {
    [p[|p| - 1]] + p[..|p| - 1]
  }

  function RotateRightBy(p: seq<Bit>, k: nat): (r: seq<Bit>)
    requires |p| > 0
    ensures |r| == |p|
    decreases k
  {
    if k == 0 then p else RotateRightBy(RotateRight(p), k - 1)
  }

  /** Rotating keeps the pattern's contents: the same states, as many times each. */
  lemma {:induction false} RotateRightByPermutes(p: seq<Bit>, k: nat)
    requires |p| > 0
    ensures multiset(RotateRightBy(p, k)) == multiset(p)
    decreases k
  {
    if k > 0 {
      assert p == p[..|p| - 1] + [p[|p| - 1]];
      assert multiset(RotateRight(p)) == multiset(p);
      RotateRightByPermutes(RotateRight(p), k - 1);
    }
  }

  /**
   * The loop of `elude_transit`: while the transit has more than one state and its last state is
   * the pattern's last state, drop it and rotate the pattern right by one.
   */
  function EludeLoop(transit: seq<Bit>, pattern: seq<Bit>): (r: (seq<Bit>, seq<Bit>))
    requires |transit| <= 1 || |pattern| > 0
    ensures |r.1| == |pattern|
    decreases |transit|
  {
    if |transit| <= 1 then (transit, pattern)
    else if transit[|transit| - 1] == pattern[|pattern| - 1] then
      EludeLoop(transit[..|transit| - 1], RotateRight(pattern))
    else (transit, pattern)
  }

  /**
   * What the loop does to the two sequences: the transit keeps a prefix of at least one state
   * (when it had one), the pattern is the original rotated right once per dropped state.
   */
  lemma {:induction false} EludeLoopShape(transit: seq<Bit>, pattern: seq<Bit>)
    requires |transit| <= 1 || |pattern| > 0
    ensures var r := EludeLoop(transit, pattern);
      && |r.0| <= |transit| && r.0 == transit[..|r.0|]
      && (|transit| >= 1 ==> |r.0| >= 1)
      && (|pattern| > 0 ==> r.1 == RotateRightBy(pattern, |transit| - |r.0|))
      && (|pattern| == 0 ==> r == (transit, pattern))
    decreases |transit|
  {
    if |transit| > 1 && transit[|transit| - 1] == pattern[|pattern| - 1] {
      var t' := transit[..|transit| - 1];
      EludeLoopShape(t', RotateRight(pattern));
      var r := EludeLoop(t', RotateRight(pattern));
      assert r.0 == t'[..|r.0|] == transit[..|r.0|];
    }
  }

  /** `elude_transit` as a whole: the loop, then one copy of the rotated pattern appended to the transit. */
  function Elude(d: Diag): (e: Diag)
    requires |d.transit| <= 1 || |d.pattern| > 0
    ensures e.leadingZeros == d.leadingZeros && |e.pattern| == |d.pattern|
  {
    var (t, p) := EludeLoop(d.transit, d.pattern);
    Diag(d.leadingZeros, t + p, p)
  }

  /** One loop step (drop a transit state equal to the pattern's last one, rotate) keeps every read. */
  lemma PopRotatePreserves(d: Diag, i: nat)
    requires |d.transit| > 0 && |d.pattern| > 0
    requires d.transit[|d.transit| - 1] == d.pattern[|d.pattern| - 1]
    ensures Diag(d.leadingZeros, d.transit[..|d.transit| - 1], RotateRight(d.pattern)).Get(i) == d.Get(i)
  {
    var z, t, p := d.leadingZeros, d.transit, d.pattern;
    var e := Diag(z, t[..|t| - 1], RotateRight(p));
    if i <= z {
    } else if i < z + |t| {
      assert e.Get(i) == t[i - z - 1];
    } else if i == z + |t| {
      ModUnique(0, |p|, 0, 0);
      assert e.Get(i) == RotateRight(p)[0];
    } else {
      var k := i - |t| - z - 1;
      ModSucc(k, |p|);
      assert e.Get(i) == RotateRight(p)[(k + 1) % |p|];
      assert d.Get(i) == p[k % |p|];
    }
  }

  lemma {:induction false} EludeLoopPreserves(z: nat, transit: seq<Bit>, pattern: seq<Bit>, i: nat)
    requires |transit| <= 1 || |pattern| > 0
    requires Diag(z, transit, pattern).Readable(i)
    ensures var r := EludeLoop(transit, pattern);
      Diag(z, r.0, r.1).Readable(i) && Diag(z, r.0, r.1).Get(i) == Diag(z, transit, pattern).Get(i)
    decreases |transit|
  {
    if |transit| > 1 && transit[|transit| - 1] == pattern[|pattern| - 1] {
      PopRotatePreserves(Diag(z, transit, pattern), i);
      EludeLoopPreserves(z, transit[..|transit| - 1], RotateRight(pattern), i);
    }
  }

  /** Appending one full period to the transit keeps every read. */
  lemma AppendPatternPreserves(d: Diag, i: nat)
    requires d.Readable(i)
    ensures Diag(d.leadingZeros, d.transit + d.pattern, d.pattern).Readable(i)
    ensures Diag(d.leadingZeros, d.transit + d.pattern, d.pattern).Get(i) == d.Get(i)
  {
    var z, t, p := d.leadingZeros, d.transit, d.pattern;
    if |p| == 0 {
      assert t + p == t;
    } else if z + |t| < i <= z + |t| + |p| {
      ModUnique(i - |t| - z - 1, |p|, 0, i - |t| - z - 1);
    } else if z + |t| + |p| < i {
      ModAddPeriod(i - |t| - |p| - z - 1, |p|);
    }
  }

  /** Eluding never changes the denoted sequence. */
  lemma EludePreservesValue(d: Diag, i: nat)
    requires |d.transit| <= 1 || |d.pattern| > 0
    requires d.Readable(i)
    ensures Elude(d).Readable(i) && Elude(d).Get(i) == d.Get(i)
  {
    var r := EludeLoop(d.transit, d.pattern);
    EludeLoopPreserves(d.leadingZeros, d.transit, d.pattern, i);
    AppendPatternPreserves(Diag(d.leadingZeros, r.0, r.1), i);
  }

  /** One step of the loop on concrete sequences. */
  lemma EludeStep(transit: seq<Bit>, pattern: seq<Bit>, transit': seq<Bit>, pattern': seq<Bit>)
    requires |transit| > 1 && |pattern| > 0 && transit[|transit| - 1] == pattern[|pattern| - 1]
    requires transit' == transit[..|transit| - 1] && pattern' == [pattern[|pattern| - 1]] + pattern[..|pattern| - 1]
    ensures EludeLoop(transit, pattern) == EludeLoop(transit', pattern')
  {
  }

  /** The loop stops on concrete sequences whose last states differ. */
  lemma EludeStop(transit: seq<Bit>, pattern: seq<Bit>)
    requires |transit| > 1 && |pattern| > 0 && transit[|transit| - 1] != pattern[|pattern| - 1]
    ensures EludeLoop(transit, pattern) == (transit, pattern)
  {
  }

  // The unit test `test_elude_transit`: its expected values are those of the loop, before the
  // final append of the pattern.

  lemma EludeTransitTest1()
    ensures EludeLoop([0, 0, 1, 0, 1, 0, 1, 1, 0, 0, 1, 1, 0, 0], [1, 1, 0, 0])
         == ([0, 0, 1, 0, 1], [0, 1, 1, 0])
  {
    EludeStep([0, 0, 1, 0, 1, 0, 1, 1, 0, 0, 1, 1, 0, 0], [1, 1, 0, 0], [0, 0, 1, 0, 1, 0, 1, 1, 0, 0, 1, 1, 0], [0, 1, 1, 0]);
    EludeStep([0, 0, 1, 0, 1, 0, 1, 1, 0, 0, 1, 1, 0], [0, 1, 1, 0], [0, 0, 1, 0, 1, 0, 1, 1, 0, 0, 1, 1], [0, 0, 1, 1]);
    EludeStep([0, 0, 1, 0, 1, 0, 1, 1, 0, 0, 1, 1], [0, 0, 1, 1], [0, 0, 1, 0, 1, 0, 1, 1, 0, 0, 1], [1, 0, 0, 1]);
    EludeStep([0, 0, 1, 0, 1, 0, 1, 1, 0, 0, 1], [1, 0, 0, 1], [0, 0, 1, 0, 1, 0, 1, 1, 0, 0], [1, 1, 0, 0]);
    EludeStep([0, 0, 1, 0, 1, 0, 1, 1, 0, 0], [1, 1, 0, 0], [0, 0, 1, 0, 1, 0, 1, 1, 0], [0, 1, 1, 0]);
    EludeStep([0, 0, 1, 0, 1, 0, 1, 1, 0], [0, 1, 1, 0], [0, 0, 1, 0, 1, 0, 1, 1], [0, 0, 1, 1]);
    EludeStep([0, 0, 1, 0, 1, 0, 1, 1], [0, 0, 1, 1], [0, 0, 1, 0, 1, 0, 1], [1, 0, 0, 1]);
    EludeStep([0, 0, 1, 0, 1, 0, 1], [1, 0, 0, 1], [0, 0, 1, 0, 1, 0], [1, 1, 0, 0]);
    EludeStep([0, 0, 1, 0, 1, 0], [1, 1, 0, 0], [0, 0, 1, 0, 1], [0, 1, 1, 0]);
    EludeStop([0, 0, 1, 0, 1], [0, 1, 1, 0]);
  }

  /** The whole of `elude_transit` on the first test's diagonal: the loop's transit, then one copy of the rotated pattern. */
  lemma EludeTransitTest1Appended()
    ensures Elude(New([1, 1, 0, 0], [0, 0, 1, 0, 1, 0, 1, 1, 0, 0, 1, 1, 0, 0]))
         == Diag(0, [0, 0, 1, 0, 1, 0, 1, 1, 0], [0, 1, 1, 0])
  {
    EludeTransitTest1();
  }

  lemma EludeTransitTest2()
    ensures EludeLoop([0, 0, 0, 0, 0, 0, 0, 0, 0, 0, 0, 0, 0, 0, 0, 0], [0, 0, 0, 0])
         == ([0], [0, 0, 0, 0])
  {
    EludeStep([0, 0, 0, 0, 0, 0, 0, 0, 0, 0, 0, 0, 0, 0, 0, 0], [0, 0, 0, 0], [0, 0, 0, 0, 0, 0, 0, 0, 0, 0, 0, 0, 0, 0, 0], [0, 0, 0, 0]);
    EludeStep([0, 0, 0, 0, 0, 0, 0, 0, 0, 0, 0, 0, 0, 0, 0], [0, 0, 0, 0], [0, 0, 0, 0, 0, 0, 0, 0, 0, 0, 0, 0, 0, 0], [0, 0, 0, 0]);
    EludeStep([0, 0, 0, 0, 0, 0, 0, 0, 0, 0, 0, 0, 0, 0], [0, 0, 0, 0], [0, 0, 0, 0, 0, 0, 0, 0, 0, 0, 0, 0, 0], [0, 0, 0, 0]);
    EludeStep([0, 0, 0, 0, 0, 0, 0, 0, 0, 0, 0, 0, 0], [0, 0, 0, 0], [0, 0, 0, 0, 0, 0, 0, 0, 0, 0, 0, 0], [0, 0, 0, 0]);
    EludeStep([0, 0, 0, 0, 0, 0, 0, 0, 0, 0, 0, 0], [0, 0, 0, 0], [0, 0, 0, 0, 0, 0, 0, 0, 0, 0, 0], [0, 0, 0, 0]);
    EludeStep([0, 0, 0, 0, 0, 0, 0, 0, 0, 0, 0], [0, 0, 0, 0], [0, 0, 0, 0, 0, 0, 0, 0, 0, 0], [0, 0, 0, 0]);
    EludeStep([0, 0, 0, 0, 0, 0, 0, 0, 0, 0], [0, 0, 0, 0], [0, 0, 0, 0, 0, 0, 0, 0, 0], [0, 0, 0, 0]);
    EludeStep([0, 0, 0, 0, 0, 0, 0, 0, 0], [0, 0, 0, 0], [0, 0, 0, 0, 0, 0, 0, 0], [0, 0, 0, 0]);
    EludeStep([0, 0, 0, 0, 0, 0, 0, 0], [0, 0, 0, 0], [0, 0, 0, 0, 0, 0, 0], [0, 0, 0, 0]);
    EludeStep([0, 0, 0, 0, 0, 0, 0], [0, 0, 0, 0], [0, 0, 0, 0, 0, 0], [0, 0, 0, 0]);
    EludeStep([0, 0, 0, 0, 0, 0], [0, 0, 0, 0], [0, 0, 0, 0, 0], [0, 0, 0, 0]);
    EludeStep([0, 0, 0, 0, 0], [0, 0, 0, 0], [0, 0, 0, 0], [0, 0, 0, 0]);
    EludeStep([0, 0, 0, 0], [0, 0, 0, 0], [0, 0, 0], [0, 0, 0, 0]);
    EludeStep([0, 0, 0], [0, 0, 0, 0], [0, 0], [0, 0, 0, 0]);
    EludeStep([0, 0], [0, 0, 0, 0], [0], [0, 0, 0, 0]);
  }

  lemma EludeTransitTest3()
    ensures EludeLoop([0, 1, 1, 0, 1, 1, 0, 1, 1, 0, 1, 1, 1, 0, 1, 0, 1, 1, 0, 1, 0, 1, 0, 1, 1, 0, 0, 1, 1, 0, 0, 1, 1, 0, 0, 1, 1, 0], [0, 1, 1, 0])
         == ([0, 1, 1, 0, 1, 1, 0, 1, 1, 0, 1, 1, 1, 0, 1, 0, 1, 1, 0, 1, 0, 1], [0, 1, 1, 0])
  {
    EludeStep([0, 1, 1, 0, 1, 1, 0, 1, 1, 0, 1, 1, 1, 0, 1, 0, 1, 1, 0, 1, 0, 1, 0, 1, 1, 0, 0, 1, 1, 0, 0, 1, 1, 0, 0, 1, 1, 0], [0, 1, 1, 0], [0, 1, 1, 0, 1, 1, 0, 1, 1, 0, 1, 1, 1, 0, 1, 0, 1, 1, 0, 1, 0, 1, 0, 1, 1, 0, 0, 1, 1, 0, 0, 1, 1, 0, 0, 1, 1], [0, 0, 1, 1]);
    EludeStep([0, 1, 1, 0, 1, 1, 0, 1, 1, 0, 1, 1, 1, 0, 1, 0, 1, 1, 0, 1, 0, 1, 0, 1, 1, 0, 0, 1, 1, 0, 0, 1, 1, 0, 0, 1, 1], [0, 0, 1, 1], [0, 1, 1, 0, 1, 1, 0, 1, 1, 0, 1, 1, 1, 0, 1, 0, 1, 1, 0, 1, 0, 1, 0, 1, 1, 0, 0, 1, 1, 0, 0, 1, 1, 0, 0, 1], [1, 0, 0, 1]);
    EludeStep([0, 1, 1, 0, 1, 1, 0, 1, 1, 0, 1, 1, 1, 0, 1, 0, 1, 1, 0, 1, 0, 1, 0, 1, 1, 0, 0, 1, 1, 0, 0, 1, 1, 0, 0, 1], [1, 0, 0, 1], [0, 1, 1, 0, 1, 1, 0, 1, 1, 0, 1, 1, 1, 0, 1, 0, 1, 1, 0, 1, 0, 1, 0, 1, 1, 0, 0, 1, 1, 0, 0, 1, 1, 0, 0], [1, 1, 0, 0]);
    EludeStep([0, 1, 1, 0, 1, 1, 0, 1, 1, 0, 1, 1, 1, 0, 1, 0, 1, 1, 0, 1, 0, 1, 0, 1, 1, 0, 0, 1, 1, 0, 0, 1, 1, 0, 0], [1, 1, 0, 0], [0, 1, 1, 0, 1, 1, 0, 1, 1, 0, 1, 1, 1, 0, 1, 0, 1, 1, 0, 1, 0, 1, 0, 1, 1, 0, 0, 1, 1, 0, 0, 1, 1, 0], [0, 1, 1, 0]);
    EludeTransitTest3From34();
  }

  /** The third compression trace from its 34-state transit on. */
  lemma EludeTransitTest3From34()
    ensures EludeLoop([0, 1, 1, 0, 1, 1, 0, 1, 1, 0, 1, 1, 1, 0, 1, 0, 1, 1, 0, 1, 0, 1, 0, 1, 1, 0, 0, 1, 1, 0, 0, 1, 1, 0], [0, 1, 1, 0])
         == ([0, 1, 1, 0, 1, 1, 0, 1, 1, 0, 1, 1, 1, 0, 1, 0, 1, 1, 0, 1, 0, 1], [0, 1, 1, 0])
  {
    EludeStep([0, 1, 1, 0, 1, 1, 0, 1, 1, 0, 1, 1, 1, 0, 1, 0, 1, 1, 0, 1, 0, 1, 0, 1, 1, 0, 0, 1, 1, 0, 0, 1, 1, 0], [0, 1, 1, 0], [0, 1, 1, 0, 1, 1, 0, 1, 1, 0, 1, 1, 1, 0, 1, 0, 1, 1, 0, 1, 0, 1, 0, 1, 1, 0, 0, 1, 1, 0, 0, 1, 1], [0, 0, 1, 1]);
    EludeStep([0, 1, 1, 0, 1, 1, 0, 1, 1, 0, 1, 1, 1, 0, 1, 0, 1, 1, 0, 1, 0, 1, 0, 1, 1, 0, 0, 1, 1, 0, 0, 1, 1], [0, 0, 1, 1], [0, 1, 1, 0, 1, 1, 0, 1, 1, 0, 1, 1, 1, 0, 1, 0, 1, 1, 0, 1, 0, 1, 0, 1, 1, 0, 0, 1, 1, 0, 0, 1], [1, 0, 0, 1]);
    EludeStep([0, 1, 1, 0, 1, 1, 0, 1, 1, 0, 1, 1, 1, 0, 1, 0, 1, 1, 0, 1, 0, 1, 0, 1, 1, 0, 0, 1, 1, 0, 0, 1], [1, 0, 0, 1], [0, 1, 1, 0, 1, 1, 0, 1, 1, 0, 1, 1, 1, 0, 1, 0, 1, 1, 0, 1, 0, 1, 0, 1, 1, 0, 0, 1, 1, 0, 0], [1, 1, 0, 0]);
    EludeStep([0, 1, 1, 0, 1, 1, 0, 1, 1, 0, 1, 1, 1, 0, 1, 0, 1, 1, 0, 1, 0, 1, 0, 1, 1, 0, 0, 1, 1, 0, 0], [1, 1, 0, 0], [0, 1, 1, 0, 1, 1, 0, 1, 1, 0, 1, 1, 1, 0, 1, 0, 1, 1, 0, 1, 0, 1, 0, 1, 1, 0, 0, 1, 1, 0], [0, 1, 1, 0]);
    EludeTransitTest3From30();
  }

  /** The third compression trace from its 30-state transit on. */
  lemma EludeTransitTest3From30()
    ensures EludeLoop([0, 1, 1, 0, 1, 1, 0, 1, 1, 0, 1, 1, 1, 0, 1, 0, 1, 1, 0, 1, 0, 1, 0, 1, 1, 0, 0, 1, 1, 0], [0, 1, 1, 0])
         == ([0, 1, 1, 0, 1, 1, 0, 1, 1, 0, 1, 1, 1, 0, 1, 0, 1, 1, 0, 1, 0, 1], [0, 1, 1, 0])
  {
    EludeStep([0, 1, 1, 0, 1, 1, 0, 1, 1, 0, 1, 1, 1, 0, 1, 0, 1, 1, 0, 1, 0, 1, 0, 1, 1, 0, 0, 1, 1, 0], [0, 1, 1, 0], [0, 1, 1, 0, 1, 1, 0, 1, 1, 0, 1, 1, 1, 0, 1, 0, 1, 1, 0, 1, 0, 1, 0, 1, 1, 0, 0, 1, 1], [0, 0, 1, 1]);
    EludeStep([0, 1, 1, 0, 1, 1, 0, 1, 1, 0, 1, 1, 1, 0, 1, 0, 1, 1, 0, 1, 0, 1, 0, 1, 1, 0, 0, 1, 1], [0, 0, 1, 1], [0, 1, 1, 0, 1, 1, 0, 1, 1, 0, 1, 1, 1, 0, 1, 0, 1, 1, 0, 1, 0, 1, 0, 1, 1, 0, 0, 1], [1, 0, 0, 1]);
    EludeStep([0, 1, 1, 0, 1, 1, 0, 1, 1, 0, 1, 1, 1, 0, 1, 0, 1, 1, 0, 1, 0, 1, 0, 1, 1, 0, 0, 1], [1, 0, 0, 1], [0, 1, 1, 0, 1, 1, 0, 1, 1, 0, 1, 1, 1, 0, 1, 0, 1, 1, 0, 1, 0, 1, 0, 1, 1, 0, 0], [1, 1, 0, 0]);
    EludeStep([0, 1, 1, 0, 1, 1, 0, 1, 1, 0, 1, 1, 1, 0, 1, 0, 1, 1, 0, 1, 0, 1, 0, 1, 1, 0, 0], [1, 1, 0, 0], [0, 1, 1, 0, 1, 1, 0, 1, 1, 0, 1, 1, 1, 0, 1, 0, 1, 1, 0, 1, 0, 1, 0, 1, 1, 0], [0, 1, 1, 0]);
    EludeTransitTest3From26();
  }

  /** The third compression trace from its 26-state transit on. */
  lemma EludeTransitTest3From26()
    ensures EludeLoop([0, 1, 1, 0, 1, 1, 0, 1, 1, 0, 1, 1, 1, 0, 1, 0, 1, 1, 0, 1, 0, 1, 0, 1, 1, 0], [0, 1, 1, 0])
         == ([0, 1, 1, 0, 1, 1, 0, 1, 1, 0, 1, 1, 1, 0, 1, 0, 1, 1, 0, 1, 0, 1], [0, 1, 1, 0])
  {
    EludeStep([0, 1, 1, 0, 1, 1, 0, 1, 1, 0, 1, 1, 1, 0, 1, 0, 1, 1, 0, 1, 0, 1, 0, 1, 1, 0], [0, 1, 1, 0], [0, 1, 1, 0, 1, 1, 0, 1, 1, 0, 1, 1, 1, 0, 1, 0, 1, 1, 0, 1, 0, 1, 0, 1, 1], [0, 0, 1, 1]);
    EludeStep([0, 1, 1, 0, 1, 1, 0, 1, 1, 0, 1, 1, 1, 0, 1, 0, 1, 1, 0, 1, 0, 1, 0, 1, 1], [0, 0, 1, 1], [0, 1, 1, 0, 1, 1, 0, 1, 1, 0, 1, 1, 1, 0, 1, 0, 1, 1, 0, 1, 0, 1, 0, 1], [1, 0, 0, 1]);
    EludeStep([0, 1, 1, 0, 1, 1, 0, 1, 1, 0, 1, 1, 1, 0, 1, 0, 1, 1, 0, 1, 0, 1, 0, 1], [1, 0, 0, 1], [0, 1, 1, 0, 1, 1, 0, 1, 1, 0, 1, 1, 1, 0, 1, 0, 1, 1, 0, 1, 0, 1, 0], [1, 1, 0, 0]);
    EludeStep([0, 1, 1, 0, 1, 1, 0, 1, 1, 0, 1, 1, 1, 0, 1, 0, 1, 1, 0, 1, 0, 1, 0], [1, 1, 0, 0], [0, 1, 1, 0, 1, 1, 0, 1, 1, 0, 1, 1, 1, 0, 1, 0, 1, 1, 0, 1, 0, 1], [0, 1, 1, 0]);
    EludeStop([0, 1, 1, 0, 1, 1, 0, 1, 1, 0, 1, 1, 1, 0, 1, 0, 1, 1, 0, 1, 0, 1], [0, 1, 1, 0]);
  }

  /**
   * A diagonal buffer whose three fields the evaluator updates in place (the Rust
   * `Diagonal` struct behind `&mut`).
   */
  class Diagonal {
    var leadingZeros: nat
    var transit: seq<Bit>
    var pattern: seq<Bit>

    function Value(): Diag
      reads this
    {
      Diag(leadingZeros, transit, pattern)
    }

    /** `Diagonal::new(pattern, transit)`. */
    constructor (pattern: seq<Bit>, transit: seq<Bit>)
      ensures Value() == New(pattern, transit)
    {
      this.pattern := pattern;
      this.transit := transit;
      leadingZeros := 0;
    }

    method Clear()
      modifies this
      ensures leadingZeros == 0 && transit == [] && pattern == []
    {
      transit := [];
      pattern := [];
      leadingZeros := 0;
    }

    method PushTransit(state: Bit)
      modifies this
      ensures transit == old(transit) + [state]
      ensures leadingZeros == old(leadingZeros) && pattern == old(pattern)
    {
      transit := transit + [state];
    }

    method PushPattern(state: Bit)
      modifies this
      ensures pattern == old(pattern) + [state]
      ensures leadingZeros == old(leadingZeros) && transit == old(transit)
    {
      pattern := pattern + [state];
    }

    /** Takes over the three fields of `d`. */
    method Set(d: Diag)
      modifies this
      ensures Value() == d
    {
      transit := d.transit;
      pattern := d.pattern;
      leadingZeros := d.leadingZeros;
    }

    method SetLeadingZeros(zeros: nat)
      modifies this
      ensures leadingZeros == zeros
      ensures transit == old(transit) && pattern == old(pattern)
    {
      leadingZeros := zeros;
    }

    /** `elude_transit`: compresses the transit in place; every read stays the same (`EludePreservesValue`). */
    method EludeTransit()
      requires |transit| <= 1 || |pattern| > 0
      modifies this
      ensures Value() == Elude(old(Value()))
    {
      while true
        invariant |transit| <= 1 || |pattern| > 0
        invariant leadingZeros == old(leadingZeros)
        invariant EludeLoop(transit, pattern) == EludeLoop(old(transit), old(pattern))
        decreases |transit|
      {
        if |transit| <= 1 {
          break;
        }
        var statePattern := pattern[|pattern| - 1];
        var stateTransit := transit[|transit| - 1];
        if stateTransit == statePattern {
          transit := transit[..|transit| - 1];
        } else {
          break;
        }
        pattern := RotateRight(pattern);
      }
      transit := transit + pattern;
    }
  }
}
