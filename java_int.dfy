/** Java's fixed-width integer arithmetic, written out over unbounded `int`. */
module JavaInt {

  const TWO_31: int := 0x8000_0000
  const TWO_32: int := 0x1_0000_0000
  const TWO_63: int := 0x8000_0000_0000_0000

  /** The values of a Java `int`. */
  predicate IsInt32(x: int) {
    -TWO_31 <= x < TWO_31
  }

  /** The values of a Java `long`. */
  predicate IsInt64(x: int) {
    -TWO_63 <= x < TWO_63
  }

  /** The non-negative values of a Java `int`. */
  predicate IsNat32(x: int) {
    0 <= x < TWO_31
  }

  /** Every element is a non-negative `int`. */
  predicate AllNat32(s: seq<int>) {
    forall k :: 0 <= k < |s| ==> IsNat32(s[k])
  }

  /** The `int` that Java keeps of `x`: its low 32 bits read in two's complement
      (a narrowing `(int)` cast, or an overflowing `int` addition). */
  function Wrap32(x: int): (r: int)
    ensures IsInt32(r)
    ensures IsInt32(x) ==> r == x
  {
    var m := x % TWO_32;
    if m >= TWO_31 then m - TWO_32 else m
  }

  /** Adding to an `int` that has already wrapped gives the same `int` as
      wrapping once at the end: a running `int` sum is the wrapped total. */
  lemma Wrap32Add(a: int, b: int)
    ensures Wrap32(Wrap32(a) + b) == Wrap32(a + b)
  {
    var w := Wrap32(a);
    assert (w - a) % TWO_32 == 0;
    var q := (w - a) / TWO_32;
    assert w + b == a + b + q * TWO_32;
    assert (w + b) % TWO_32 == (a + b) % TWO_32;
  }

  /** `x` times 2 to the power `k`, by doubling (no word size). */
  function Scaled(x: int, k: nat): (r: int)
    ensures x >= 0 ==> r >= x
    decreases k
  {
    if k == 0 then x else 2 * Scaled(x, k - 1)
  }

  /** Seven more doublings multiply by 128. */
  lemma {:induction false} ScaledBy7(x: int, k: nat)
    ensures Scaled(x, k + 7) == 128 * Scaled(x, k)
    decreases k
  {
    if k == 0 {
      assert Scaled(x, 1) == 2 * x;
      assert Scaled(x, 2) == 4 * x;
      assert Scaled(x, 3) == 8 * x;
      assert Scaled(x, 4) == 16 * x;
      assert Scaled(x, 5) == 32 * x;
      assert Scaled(x, 6) == 64 * x;
    } else {
      ScaledBy7(x, k - 1);
    }
  }

  /** `x` doubled `k` times, keeping the low 32 bits after each doubling. */
  function ShiftLeft(x: int, k: nat): (r: int)
    ensures IsInt32(r)
    decreases k
  {
    if k == 0 then Wrap32(x) else Wrap32(2 * ShiftLeft(x, k - 1))
  }

  /** Java's `x << s` on an `int`: the shift distance is taken modulo 32 and
      the bits shifted out of the word are lost. */
  function Shl32(x: int, s: nat): (r: int)
    ensures IsInt32(r)
  {
    ShiftLeft(x, s % 32)
  }

  /** A shift distance below 32 is used as it is. */
  lemma Shl32Small(x: int, s: nat)
    requires s < 32
    ensures Shl32(x, s) == ShiftLeft(x, s)
  {
    assert s % 32 == s;
  }

  /** A shift that loses no bit multiplies by a power of two. */
  lemma {:induction false} ShiftLeftExact(x: int, k: nat)
    requires 0 <= x && Scaled(x, k) < TWO_31
    ensures ShiftLeft(x, k) == Scaled(x, k)
    decreases k
  {
    if k > 0 {
      ShiftLeftExact(x, k - 1);
    }
  }
}
