/** The .NET integer types the source computes with, written out over Dafny's
    unbounded integers: their ranges, unchecked wrap-around, and the checked
    operations (`checked { }` blocks and the contract SDK's `Add`/`Sub`/`Mul`/`Div`)
    that throw `OverflowException` instead of wrapping. */
module CheckedMath {
  import opened Wrappers

  const MinInt32: int := -0x8000_0000
  const MaxInt32: int := 0x7fff_ffff
  const MinInt64: int := -0x8000_0000_0000_0000
  const MaxInt64: int := 0x7fff_ffff_ffff_ffff
  const TwoTo64: int := 0x1_0000_0000_0000_0000

  type Int32 = x: int | MinInt32 <= x <= MaxInt32
  type Int64 = x: int | MinInt64 <= x <= MaxInt64
  type UInt64 = x: int | 0 <= x < TwoTo64

  /** `x` reduced into the range of `int`, as unchecked C# arithmetic does. */
  function Wrap32(x: int): (r: Int32)
    ensures (r - x) % 0x1_0000_0000 == 0
    ensures MinInt32 <= x <= MaxInt32 ==> r == x
  {
    (x - MinInt32) % 0x1_0000_0000 + MinInt32
  }

  /** `x` reduced into the range of `ulong`, as unchecked C# arithmetic does. */
  function Wrap64(x: int): (r: UInt64)
    ensures (r - x) % TwoTo64 == 0
    ensures 0 <= x < TwoTo64 ==> r == x
  {
    x % TwoTo64
  }

  /** `None` is the `OverflowException` of a checked 64-bit operation. */
  function Checked64(x: int): (r: Option<Int64>)
    ensures r.Some? <==> MinInt64 <= x <= MaxInt64
    ensures r.Some? ==> r.value == x
  {
    if MinInt64 <= x <= MaxInt64 then Some(x) else None
  }

  /** `None` is the `OverflowException` of a checked 32-bit operation. */
  function Checked32(x: int): (r: Option<Int32>)
    ensures r.Some? <==> MinInt32 <= x <= MaxInt32
    ensures r.Some? ==> r.value == x
  {
    if MinInt32 <= x <= MaxInt32 then Some(x) else None
  }

  function Abs(x: int): nat {
    if x < 0 then -x else x
  }

  /** C# integer division: the quotient is rounded toward zero. */
  function TruncDiv(a: int, b: int): (q: int)
    requires b != 0
    ensures Abs(q) == Abs(a) / Abs(b)
    ensures q < 0 ==> (a < 0) != (b < 0)
    ensures q > 0 ==> (a < 0) == (b < 0)
  {
    var x: nat, y: nat := Abs(a), Abs(b);
    var m := x / y;
    assert m >= 0 by {
      assert x == y * m + x % y && 0 <= x % y < y;
      assert y * (m + 1) == y * m + y;
      PositiveFactor(y, m + 1);
    }
    var q: int := if (a < 0) == (b < 0) then m else 0 - m;
    q
  }

  /** A positive product with a positive factor has a positive other factor. */
  lemma PositiveFactor(y: int, k: int)
    requires y > 0 && y * k > 0
    ensures k > 0
  {
  }

  /** `long` division, which throws for a zero divisor and for `MinValue / -1`. */
  function CheckedDiv64(a: Int64, b: Int64): (r: Option<Int64>)
    ensures r.Some? <==> b != 0 && !(a == MinInt64 && b == -1)
    ensures r.Some? ==> r.value == TruncDiv(a, b)
  {
    if b == 0 then None
    else
      assert Abs(TruncDiv(a, b)) <= Abs(a) by {
        DivideByAtLeastOne(Abs(a), Abs(b));
      }
      Checked64(TruncDiv(a, b))
  }

  lemma DivideByAtLeastOne(n: nat, d: nat)
    requires d >= 1
    ensures n / d <= n
  {
    var q, r := n / d, n % d;
    assert q * d + r == n;
    ProductAtLeastFactor(q, d);
  }

  lemma ProductAtLeastFactor(q: nat, d: nat)
    requires d >= 1
    ensures q * d >= q
  {
    var e: nat := d - 1;
    assert q * d == q * e + q;
  }
}
