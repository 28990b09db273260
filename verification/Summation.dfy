/** The summation examples: a table of prefix sums filled in place, the lookup service over it,
    the looping service, and the closed form the client expects. Table entries are 64-bit:
    adding an index to an entry is done in unsigned arithmetic and wraps, subtracting two
    entries is signed and must not overflow. */
module Summation {
  import opened Messages

  const TWO64: int := 0x1_0000_0000_0000_0000
  const MAX64: int := 0x7FFF_FFFF_FFFF_FFFF
  const MIN64: int := -0x8000_0000_0000_0000
  const TABLE_SIZE: nat := 0x10_0000

  predicate InInt64(x: int) {
    MIN64 <= x <= MAX64
  }

  /** Arithmetic modulo 2^64, as a signed number. */
  function Wrap(x: int): (r: int)
    ensures InInt64(r)
    decreases if x > MAX64 then x - MAX64 else if x < MIN64 then MIN64 - x else 0
  {
    if x > MAX64 then Wrap(x - TWO64) else if x < MIN64 then Wrap(x + TWO64) else x
  }

  lemma {:induction false} WrapAdd(x: int, y: int)
    ensures Wrap(Wrap(x) + y) == Wrap(x + y)
    decreases if x > MAX64 then x - MAX64 else if x < MIN64 then MIN64 - x else 0
  {
    if x > MAX64 {
      WrapAdd(x - TWO64, y);
      WrapPeriod(x - TWO64 + y);
    } else if x < MIN64 {
      WrapAdd(x + TWO64, y);
      WrapPeriod(x + y);
    }
  }

  lemma WrapPeriod(x: int)
    ensures Wrap(x + TWO64) == Wrap(x)
  {
    if x >= MIN64 {
      assert x + TWO64 > MAX64;
    }
  }

  /** 1 + 2 + ... + n. */
  function Triangle(n: nat): nat {
    if n == 0 then 0 else Triangle(n - 1) + n
  }

  /** Element i of the table that starts from element c. */
  function Entry(c: int, i: nat): int {
    Wrap(c + Triangle(i))
  }

  function Table(c: int, n: nat): (t: seq<int>)
    ensures |t| == n && forall i | 0 <= i < n :: t[i] == Entry(c, i)
  {
    seq(n, i requires 0 <= i < n => Entry(c, i))
  }

  method PrecomputeTable(table: array<int>)
    requires table.Length > 0 ==> InInt64(table[0])
    modifies table
    ensures table.Length > 0 ==> table[..] == Table(old(table[0]), table.Length)
  {
    if table.Length > 0 {
      ghost var c := table[0];
      var i := 1;
      while i < table.Length
        invariant 1 <= i <= table.Length
        invariant forall k | 0 <= k < i :: table[k] == Entry(c, k)
      {
        WrapAdd(c + Triangle(i - 1), i);
        table[i] := Wrap(table[i - 1] + i);
        i := i + 1;
      }
    }
  }

  /** The sum of all integers from a to b. */
  function Sum(a: int, b: int): int
    decreases b - a
  {
    if a > b then 0 else a + Sum(a + 1, b)
  }

  /** Division as C++ and Rust do it, towards zero. */
  function DivTowardsZero(n: int, d: nat): int
    requires d > 0
  {
    if n >= 0 then n / d else -(-n / d)
  }

  /** What is left over lies between the number and zero. */
  lemma HalfTruncates(n: int)
    ensures var rest := n - 2 * DivTowardsZero(n, 2); rest == 0 || (n > 0 && rest == 1) || (n < 0 && rest == -1)
  {
  }

  /** get_expected_sum_result. */
  function ClosedForm(start: int, end: int): int {
    DivTowardsZero(end * (end + 1) - (start - 1) * start, 2)
  }

  // ----- Arithmetic -----

  lemma {:induction false} TriangleClosed(n: nat)
    ensures 2 * Triangle(n) == n * (n + 1)
  {
    if n == 0 {
    } else {
      TriangleClosed(n - 1);
    }
  }

  lemma {:induction false} TriangleMonotone(m: nat, n: nat)
    requires m <= n
    ensures Triangle(m) <= Triangle(n)
    decreases n
  {
    if m == n {
    } else {
      TriangleMonotone(m, n - 1);
    }
  }

  lemma {:induction false} SumClosed(a: int, b: int)
    requires a <= b + 1
    ensures 2 * Sum(a, b) == b * (b + 1) - (a - 1) * a
    decreases b - a
  {
    if a == b + 1 {
    } else {
      SumClosed(a + 1, b);
    }
  }

  /** The closed form is the sum when the range is not reversed past empty, and otherwise
      minus the sum of what lies strictly between. */
  lemma ClosedFormIsSum(start: int, end: int)
    ensures ClosedForm(start, end) == if start <= end + 1 then Sum(start, end) else -Sum(end + 1, start - 1)
  {
    if start <= end + 1 {
      SumClosed(start, end);
    } else {
      SumClosed(end + 1, start - 1);
    }
  }

  lemma {:induction false} SumPositive(a: int, b: int)
    requires 0 < a <= b
    ensures Sum(a, b) > 0
    decreases b - a
  {
    if a == b {
    } else {
      SumPositive(a + 1, b);
    }
  }

  // ----- The services -----

  datatype Reply = OutOfBounds | Mismatch | Undefined | Answer(sum: int)

  /** The client's guard: zero means no expectation. */
  function Checked(expected: int, sum: int): Reply {
    if expected != 0 && expected != sum then Mismatch else Answer(sum)
  }

  function LookUp(table: seq<int>, start: int, end: int, expected: int): Reply {
    if start >= |table| || end >= |table| || start < 0 || end < 0 then OutOfBounds else
    var from := if start == 0 then 1 else start;
    var sum := table[end] - table[from - 1];
    if !InInt64(sum) then Undefined else Checked(expected, sum)
  }

  /** When the looping service meets no signed overflow: the counter stops short of the
      largest value, and the running sum fits at its lowest point and at the end. */
  predicate LoopDefined(start: int, end: int) {
    || start > end
    || (end < MAX64 && InInt64(Sum(start, end)) && (start < 0 ==> InInt64(Sum(start, if end < -1 then end else -1))))
  }

  function LoopReply(start: int, end: int, expected: int): Reply {
    if LoopDefined(start, end) then Checked(expected, Sum(start, end)) else Undefined
  }

  lemma {:induction false} SumSplit(a: int, b: int, c: int)
    requires a <= b + 1 <= c + 1
    ensures Sum(a, c) == Sum(a, b) + Sum(b + 1, c)
    decreases b - a
  {
    if a == b + 1 {
    } else {
      SumSplit(a + 1, b, c);
    }
  }

  lemma {:induction false} SumSigns(a: int, b: int)
    ensures a >= 0 ==> Sum(a, b) >= 0
    ensures b <= 0 ==> Sum(a, b) <= 0
    decreases b - a
  {
    if a > b {
    } else {
      SumSigns(a + 1, b);
    }
  }

  /** The running sum falls while the counter is negative and rises afterwards. */
  lemma RunningSumFits(start: int, end: int, k: int)
    requires InInt64(start) && start <= k <= end && LoopDefined(start, end)
    ensures InInt64(Sum(start, k))
  {
    var low := if end < -1 then end else -1;
    if k <= low {
      SumSplit(start, k, low);
      SumSigns(start, k);
      SumSigns(k + 1, low);
    } else {
      SumSplit(start, k, end);
      SumSigns(k + 1, end);
      if start < 0 {
        SumSplit(start, -1, k);
        SumSigns(0, k);
      } else {
        SumSigns(start, k);
      }
    }
  }

  /** The looping service; `Undefined` is a signed overflow. */
  method LoopIntegerSequence(start: int, end: int, expected: int) returns (r: Reply)
    requires InInt64(start) && InInt64(end)
    ensures r == LoopReply(start, end, expected)
  {
    var result := 0;
    var i := start;
    while i <= end
      invariant start <= i && (i <= end + 1 || i == start)
      invariant result == Sum(start, i - 1)
      invariant i > start ==> i - 1 < MAX64
      invariant forall k | start <= k < i :: InInt64(Sum(start, k))
      decreases end - i
    {
      SumSplit(start, i - 1, i);
      assert Sum(i, i) == i + Sum(i + 1, i);
      if !InInt64(result + i) || i == MAX64 {
        if LoopDefined(start, end) { RunningSumFits(start, end, i); }
        return Undefined;
      }
      result := result + i;
      i := i + 1;
    }
    r := Checked(expected, result);
  }

  // ----- Lookup against closed form and loop -----

  /** The entry before the first one to be summed; 0 and 1 mean the same start. */
  function Before(start: int): nat
    requires start >= 0
  {
    if start == 0 then 0 else start - 1
  }

  lemma HalfOfDouble(k: int)
    ensures DivTowardsZero(2 * k, 2) == k
  {
  }

  lemma BeforeProduct(start: int)
    requires start >= 0
    ensures (start - 1) * start == Before(start) * (Before(start) + 1)
  {
  }

  lemma ClosedFormFrom(start: int, end: int)
    requires start >= 0 && end >= 0
    ensures ClosedForm(start, end) == Triangle(end) - Triangle(Before(start))
  {
    var sum := Triangle(end) - Triangle(Before(start));
    assert end * (end + 1) - (start - 1) * start == 2 * sum by {
      TriangleClosed(end);
      TriangleClosed(Before(start));
      BeforeProduct(start);
    }
    HalfOfDouble(sum);
  }

  /** A lookup that reads two entries on the same side of the wrap-around. */
  lemma LookupSameSide(c: int, n: nat, start: int, end: int, k: int)
    requires 0 <= start < n && 0 <= end < n
    requires Entry(c, end) == c + Triangle(end) - k
    requires Entry(c, Before(start)) == c + Triangle(Before(start)) - k
    requires InInt64(Triangle(end) - Triangle(Before(start)))
    ensures LookUp(Table(c, n), start, end, 0) == Answer(Triangle(end) - Triangle(Before(start)))
  {
  }

  lemma ReversedRange(start: int, end: int)
    requires start >= 0 && end >= 0
    ensures ClosedForm(start, end) == Sum(start, end) <==> start <= end + 1
    ensures start > end + 1 ==> ClosedForm(start, end) == -Sum(end + 1, start - 1)
  {
    ClosedFormIsSum(start, end);
    if start > end + 1 {
      SumPositive(end + 1, start - 1);
    }
  }

  /** Without wrap-around, whatever element 0 holds: every accepted lookup whose result fits
      answers the closed form, which is the loop's sum if and only if the range is not
      reversed past empty, and minus the sum in between otherwise. */
  lemma LookupIsClosedForm(c: int, n: nat, start: int, end: int)
    requires InInt64(c) && 0 <= start < n && 0 <= end < n
    requires c + Triangle(n - 1) <= MAX64 && InInt64(ClosedForm(start, end))
    ensures LookUp(Table(c, n), start, end, 0) == Answer(ClosedForm(start, end))
    ensures ClosedForm(start, end) == Sum(start, end) <==> start <= end + 1
    ensures start > end + 1 ==> ClosedForm(start, end) == -Sum(end + 1, start - 1)
  {
    TriangleMonotone(end, n - 1);
    TriangleMonotone(Before(start), n - 1);
    ClosedFormFrom(start, end);
    LookupSameSide(c, n, start, end, 0);
    ReversedRange(start, end);
  }

  /** For a table as large as the example's, 2^20 entries, from any first element: the lookup
      is defined if and only if both entries it reads lie on the same side of the wrap-around, and then
      it is the closed form. */
  lemma LookupDefinedIff(c: int, n: nat, start: int, end: int)
    requires InInt64(c) && n <= TABLE_SIZE && 0 <= start < n && 0 <= end < n
    ensures LookUp(Table(c, n), start, end, 0) ==
            if (c + Triangle(end) <= MAX64) == (c + Triangle(Before(start)) <= MAX64)
            then Answer(ClosedForm(start, end))
            else Undefined
  {
    ClosedFormFrom(start, end);
    LookupDefined(c, n, start, end);
  }

  lemma LookupDefined(c: int, n: nat, start: int, end: int)
    requires InInt64(c) && n <= TABLE_SIZE && 0 <= start < n && 0 <= end < n
    ensures LookUp(Table(c, n), start, end, 0) ==
            if (c + Triangle(end) <= MAX64) == (c + Triangle(Before(start)) <= MAX64)
            then Answer(Triangle(end) - Triangle(Before(start)))
            else Undefined
  {
    EntryWrapsOnce(c, end);
    EntryWrapsOnce(c, Before(start));
  }

  lemma EntryWrapsOnce(c: int, i: nat)
    requires InInt64(c) && i < TABLE_SIZE
    ensures Entry(c, i) == c + Triangle(i) - (if c + Triangle(i) <= MAX64 then 0 else TWO64)
    ensures Triangle(i) < 0x80_0000_0000
  {
    SmallTriangle(i);
    var x := c + Triangle(i);
    if x > MAX64 {
      assert Wrap(x) == Wrap(x - TWO64) == x - TWO64;
    }
  }

  lemma MulMonotone(a: nat, b: nat, c: nat)
    requires b <= c
    ensures a * b <= a * c
  {
  }

  lemma SmallTriangle(i: nat)
    requires i < TABLE_SIZE
    ensures Triangle(i) < 0x80_0000_0000 && 0 <= i * (i + 1) < 0x100_0000_0000
  {
    assert 0 <= i * (i + 1) < 0x100_0000_0000 by {
      MulMonotone(i, i + 1, TABLE_SIZE);
    }
    TriangleClosed(i);
  }

  /** With element 0 zero and up to 2^20 entries, neither the table, nor a lookup, nor any product or
      difference in the closed form leaves 64 bits. */
  lemma ExampleFitsInt64(n: nat, start: int, end: int)
    requires n <= TABLE_SIZE && 0 <= start < n && 0 <= end < n
    ensures Table(0, n)[end] == Triangle(end)
    ensures LookUp(Table(0, n), start, end, 0) == Answer(ClosedForm(start, end))
    ensures InInt64(end * (end + 1)) && InInt64((start - 1) * start)
    ensures InInt64(end * (end + 1) - (start - 1) * start)
  {
    SmallTriangle(end);
    SmallTriangle(Before(start));
    EntryWrapsOnce(0, end);
    LookupDefinedIff(0, n, start, end);
    BeforeProduct(start);
  }

  // ----- The client against both services -----

  lemma Factored(start: int, end: int)
    ensures end * (end + 1) - (start - 1) * start == (end + start) * (end - start + 1)
  {
  }

  lemma ProductZeroIff(x: int, y: int)
    ensures x * y == 0 <==> x == 0 || y == 0
  {
  }

  lemma ClosedFormZeroIff(start: int, end: int)
    ensures ClosedForm(start, end) == 0 <==> start == end + 1 || start + end == 0
  {
    Factored(start, end);
    ProductZeroIff(end + start, end - start + 1);
    if start <= end + 1 {
      SumClosed(start, end);
    } else {
      SumClosed(end + 1, start - 1);
    }
  }

  lemma InTableLoopDefined(n: nat, start: int, end: int)
    requires n <= TABLE_SIZE && 0 <= start < n && 0 <= end < n
    ensures LoopDefined(start, end) && InInt64(start)
  {
    SmallTriangle(end);
    ClosedFormFrom(start, end);
    ClosedFormIsSum(start, end);
    SumSigns(start, end);
  }

  /** Over the example's table the lookup answers what the loop does if and only if the range
      is not reversed past empty. */
  lemma LookupRefinesLoopIff(n: nat, start: int, end: int)
    requires n <= TABLE_SIZE && 0 <= start < n && 0 <= end < n
    ensures LookUp(Table(0, n), start, end, 0) == LoopReply(start, end, 0) <==> start <= end + 1
  {
    ExampleFitsInt64(n, start, end);
    InTableLoopDefined(n, start, end);
    ReversedRange(start, end);
  }

  /** Both services refuse a wrong expectation, and take 0 for none. */
  lemma WrongExpectationIsRefused(n: nat, start: int, end: int, expected: int)
    requires n <= TABLE_SIZE && 0 <= start < n && 0 <= end < n
    ensures LookUp(Table(0, n), start, end, expected) ==
            if expected == 0 || expected == ClosedForm(start, end) then Answer(ClosedForm(start, end)) else Mismatch
    ensures LoopReply(start, end, expected) ==
            if expected == 0 || expected == Sum(start, end) then Answer(Sum(start, end)) else Mismatch
  {
    ExampleFitsInt64(n, start, end);
    InTableLoopDefined(n, start, end);
  }

  // ----- The client's own arithmetic -----

  /** A build with overflow checks sends no request if a step of the closed form overflows;
      one without them computes modulo 2^64. */
  function Expectation(overflowChecks: bool, start: int, end: int): Option<int> {
    if overflowChecks then
      var last, before := end + 1, start - 1;
      if !InInt64(last) || !InInt64(end * last) || !InInt64(before) || !InInt64(before * start) then None
      else if !InInt64(end * last - before * start) then None
      else Some(DivTowardsZero(end * last - before * start, 2))
    else
      Some(DivTowardsZero(Wrap(Wrap(end * Wrap(end + 1)) - Wrap(Wrap(start - 1) * start)), 2))
  }

  /** Bounds whose products with their neighbours fit in 64 bits. */
  predicate Small(start: int, end: int) {
    -3037000500 <= end <= 3037000499 && -3037000499 <= start <= 3037000500
  }

  lemma MulBetween(a: nat, b: nat, c: nat, d: nat)
    requires a <= c && b <= d
    ensures a * b <= c * d
  {
    MulMonotone(a, b, d);
    MulMonotone(d, a, c);
  }

  /** n * (n + 1) fits exactly for these n. */
  lemma NeighbourProduct(n: int)
    ensures 0 <= n * (n + 1)
    ensures n * (n + 1) <= MAX64 <==> -3037000500 <= n <= 3037000499
  {
    if n >= 0 {
      if n <= 3037000499 {
        MulBetween(n, n + 1, 3037000499, 3037000500);
      } else {
        MulBetween(3037000500, 3037000501, n, n + 1);
      }
    } else {
      var m: nat := -(n + 1);
      assert n * (n + 1) == m * (m + 1);
      if m <= 3037000499 {
        MulBetween(m, m + 1, 3037000499, 3037000500);
      } else {
        MulBetween(3037000500, 3037000501, m, m + 1);
      }
    }
  }

  lemma {:induction false} WrapPeriods(x: int, k: int)
    ensures Wrap(x + k * TWO64) == Wrap(x)
    decreases if k < 0 then -k else k
  {
    if k == 0 {
    } else if k > 0 {
      WrapPeriods(x, k - 1);
      WrapPeriod(x + (k - 1) * TWO64);
    } else {
      WrapPeriods(x, k + 1);
      WrapPeriod(x + k * TWO64);
    }
  }

  lemma {:induction false} WrapShift(x: int) returns (k: int)
    ensures Wrap(x) == x + k * TWO64
    decreases if x > MAX64 then x - MAX64 else if x < MIN64 then MIN64 - x else 0
  {
    if InInt64(x) {
      k := 0;
    } else if x > MAX64 {
      k := WrapShift(x - TWO64);
      k := k - 1;
    } else {
      k := WrapShift(x + TWO64);
      k := k + 1;
    }
  }

  lemma Distribute(a: int, b: int, k: int)
    ensures a * (b + k * TWO64) == a * b + (a * k) * TWO64
  {
  }

  lemma WrapMul(a: int, b: int)
    ensures Wrap(a * Wrap(b)) == Wrap(a * b)
  {
    var k := WrapShift(b);
    Distribute(a, b, k);
    WrapPeriods(a * b, a * k);
  }

  lemma Commute(a: int, b: int)
    ensures a * b == b * a
  {
  }

  lemma WrapMulLeft(a: int, b: int)
    ensures Wrap(Wrap(a) * b) == Wrap(a * b)
  {
    WrapMul(b, a);
    Commute(b, Wrap(a));
    Commute(b, a);
  }

  lemma WrapSub(x: int, y: int)
    ensures Wrap(Wrap(x) - Wrap(y)) == Wrap(x - y)
  {
    WrapAdd(x, -Wrap(y));
    var k := WrapShift(y);
    WrapPeriods(x - y, -k);
    assert x - Wrap(y) == (x - y) + (-k) * TWO64;
  }

  lemma WrapFixedIff(x: int)
    ensures Wrap(x) == x <==> InInt64(x)
  {
  }

  lemma TwiceClosedForm(start: int, end: int)
    ensures 2 * ClosedForm(start, end) == end * (end + 1) - (start - 1) * start
  {
    if start <= end + 1 {
      SumClosed(start, end);
    } else {
      SumClosed(end + 1, start - 1);
    }
    ClosedFormIsSum(start, end);
  }

  lemma CheckedExpectation(start: int, end: int)
    ensures Expectation(true, start, end) == if Small(start, end) then Some(ClosedForm(start, end)) else None
  {
    NeighbourProduct(end);
    NeighbourProduct(start - 1);
  }

  lemma WrappedExpectation(start: int, end: int)
    ensures Expectation(false, start, end) == Some(DivTowardsZero(Wrap(2 * ClosedForm(start, end)), 2))
  {
    var x, y := end * (end + 1), (start - 1) * start;
    WrapMul(end, end + 1);
    WrapMulLeft(start - 1, start);
    assert Wrap(Wrap(end * Wrap(end + 1)) - Wrap(Wrap(start - 1) * start)) == Wrap(Wrap(x) - Wrap(y));
    WrapSub(x, y);
    TwiceClosedForm(start, end);
  }

  lemma HalfWrapped(c: int)
    ensures DivTowardsZero(Wrap(2 * c), 2) == c <==> InInt64(2 * c)
  {
    WrapFixedIff(2 * c);
    HalfOfDouble(c);
    var k := WrapShift(2 * c);
    assert Wrap(2 * c) == 2 * (c + k * (TWO64 / 2));
    HalfOfDouble(c + k * (TWO64 / 2));
  }

  /** What the client sends: with overflow checks the closed form, exactly for small bounds,
      and otherwise nothing; without them always something, which is the closed form exactly
      when twice that fits in 64 bits. */
  lemma ClientSendsIff(start: int, end: int)
    ensures Expectation(true, start, end) == if Small(start, end) then Some(ClosedForm(start, end)) else None
    ensures Expectation(false, start, end).Some?
    ensures Expectation(false, start, end) == Some(ClosedForm(start, end)) <==> InInt64(2 * ClosedForm(start, end))
  {
    CheckedExpectation(start, end);
    WrappedExpectation(start, end);
    HalfWrapped(ClosedForm(start, end));
  }

  /** In either build, for every request sent. The lookup service over the example table
      accepts it exactly when it is in bounds. The looping service accepts it if and only if it
      meets no overflow and, where the client computed the closed form, the range is not
      reversed past empty or is symmetric around zero, and elsewhere the wrapped value is 0,
      which means no expectation. */
  lemma ClientAcceptedIff(overflowChecks: bool, n: nat, start: int, end: int)
    requires n <= TABLE_SIZE && Expectation(overflowChecks, start, end).Some?
    ensures var sent := Expectation(overflowChecks, start, end).value;
            && LookUp(Table(0, n), start, end, sent) ==
               (if 0 <= start < n && 0 <= end < n then Answer(ClosedForm(start, end)) else OutOfBounds)
            && (LoopReply(start, end, sent).Answer? <==>
                  && LoopDefined(start, end)
                  && if sent == ClosedForm(start, end) then start <= end + 1 || start + end == 0 else sent == 0)
  {
    var sent := Expectation(overflowChecks, start, end).value;
    ClientSendsIff(start, end);
    if 0 <= start < n && 0 <= end < n {
      ExampleFitsInt64(n, start, end);
      TwiceClosedForm(start, end);
      assert sent == ClosedForm(start, end);
    }
    ClosedFormIsSum(start, end);
    ClosedFormZeroIff(start, end);
  }

  // ----- The lookup service -----

  class LookupService {
    var lookupTable: seq<int>

    constructor (table: seq<int>)
      ensures lookupTable == table
    {
      lookupTable := table;
    }

    /** Over the example's table: the closed form, checked, for bounds inside the table. */
    method IntegerSequence(start: int, end: int, expected: int) returns (r: Reply)
      ensures r == LookUp(lookupTable, start, end, expected)
      ensures var n := |lookupTable|;
              n <= TABLE_SIZE && lookupTable == Table(0, n) ==>
                r == if !(0 <= start < n && 0 <= end < n) then OutOfBounds
                     else if expected == 0 || expected == ClosedForm(start, end) then Answer(ClosedForm(start, end))
                     else Mismatch
    {
      if |lookupTable| <= TABLE_SIZE && 0 <= start < |lookupTable| && 0 <= end < |lookupTable| {
        ExampleFitsInt64(|lookupTable|, start, end);
      }
      if start >= |lookupTable| || end >= |lookupTable| || start < 0 || end < 0 {
        return OutOfBounds;
      }
      var startAt := start;
      if startAt == 0 {
        startAt := 1;
      }
      var result := lookupTable[end] - lookupTable[startAt - 1];
      if !InInt64(result) {
        return Undefined;
      }
      if expected != 0 && expected != result {
        return Mismatch;
      }
      r := Answer(result);
    }
  }
}
