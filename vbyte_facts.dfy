/** What the variable-byte code promises: the shape of each code, and that
    decoding undoes encoding for every non-negative `int`. */
module VByteFacts {
  import opened Wrappers
  import opened JavaInt
  import opened Compressor

  /** The plain base-128 value of the first `n` groups of `g`, least
      significant first, without any 32-bit wrap-around. */
  function Radix(g: seq<Byte>, n: nat): (r: int)
    requires n <= |g|
    ensures r >= 0
    decreases n
  {
    if n == 0 then 0 else Radix(g, n - 1) + Scaled(g[n - 1] as int, 7 * (n - 1))
  }

  /** Taking off the lowest group: the rest is worth 128 times as much. */
  lemma {:induction false} RadixCons(a: Byte, t: seq<Byte>, n: nat)
    requires n <= |t|
    ensures Radix([a] + t, n + 1) == a as int + 128 * Radix(t, n)
    decreases n
  {
    var g := [a] + t;
    if n == 0 {
      assert g[0] == a;
    } else {
      RadixCons(a, t, n - 1);
      assert g[n] == t[n - 1];
      ScaledBy7(t[n - 1] as int, 7 * (n - 1));
    }
  }

  /** The groups of a non-negative `p` are its base-128 digits. */
  lemma {:induction false} LowGroupsValue(p: int)
    requires p >= 0
    ensures Radix(LowGroups(p), |LowGroups(p)|) == p
    decreases p
  {
    var g := LowGroups(p);
    var a := (p % 128) as Byte;
    if p / 128 > 0 {
      LowGroupsValue(p / 128);
      assert g == [a] + LowGroups(p / 128);
      RadixCons(a, LowGroups(p / 128), |LowGroups(p / 128)|);
    } else {
      assert g == [a];
    }
  }

  /** A number below 2^(7k) has at most k groups. */
  lemma {:induction false} LowGroupsLength(p: int, k: nat)
    requires k >= 1 && 0 <= p < Scaled(1, 7 * k)
    ensures |LowGroups(p)| <= k
    decreases k
  {
    if p / 128 > 0 {
      ScaledBy7(1, 7 * (k - 1));
      LowGroupsLength(p / 128, k - 1);
    }
  }

  /** A non-negative `int` has at most five groups. */
  lemma Nat32Groups(p: int)
    requires IsNat32(p)
    ensures 1 <= |LowGroups(p)| <= 5
  {
    ScaledBy7(1, 0);
    ScaledBy7(1, 7);
    ScaledBy7(1, 14);
    ScaledBy7(1, 21);
    ScaledBy7(1, 28);
    LowGroupsLength(p, 5);
  }

  /** Without overflow, the decoder's shifting sum is the plain base-128
      value: at most five groups, so every shift is below 32, and every
      partial sum stays below 2^31. */
  lemma {:induction false} ShiftSumIsRadix(g: seq<Byte>, n: nat)
    requires n <= |g| && n <= 5
    requires Radix(g, n) < TWO_31
    ensures ShiftSum(g, n) == Radix(g, n)
    decreases n
  {
    if n > 0 {
      ShiftSumIsRadix(g, n - 1);
      var term := Scaled(g[n - 1] as int, 7 * (n - 1));
      ShiftLeftExact(g[n - 1] as int, 7 * (n - 1));
      Shl32Small(g[n - 1] as int, 7 * (n - 1));
    }
  }

  /** The code of one `int`: at least one byte, bit 7 set on the last byte
      only; a non-negative `int` takes at most five bytes, and zero is the
      single byte 0x80. */
  lemma VByteShape(p: int)
    ensures var v := VByte(p);
            v[|v| - 1] >= 128 && forall k :: 0 <= k < |v| - 1 ==> v[k] < 128
    ensures IsNat32(p) ==> |VByte(p)| <= 5
    ensures p == 0 ==> VByte(p) == [128]
  {
    if IsNat32(p) {
      Nat32Groups(p);
    }
    if p == 0 {
      assert LowGroups(0) == [0];
    }
  }

  /** Clearing the marker of a code gives back the groups it was made of,
      most significant first. */
  lemma VByteCleared(p: int)
    ensures VByte(p)[|VByte(p)| - 1] >= 128
    ensures Cleared(VByte(p)) == Reverse(LowGroups(p))
  {
    var v := VByte(p);
    var g := Reverse(LowGroups(p));
    assert v == g[|g| - 1 := g[|g| - 1] + 128];
    assert Cleared(v) == g;
  }

  /** One code decodes back to its number, for every non-negative `int`. */
  lemma VByteValue(p: int)
    requires IsNat32(p)
    ensures VByte(p)[|VByte(p)| - 1] >= 128
    ensures GroupValue(VByte(p)) == p
  {
    var g := LowGroups(p);
    VByteCleared(p);
    ReverseReverse(g);
    assert GroupValue(VByte(p)) == ShiftSum(g, |g|);
    Nat32Groups(p);
    LowGroupsValue(p);
    ShiftSumIsRadix(g, |g|);
  }

  /** A code followed by more of the stream: the decoder reads exactly that
      code first. */
  lemma DecodeFirstCode(p: int, rest: seq<Byte>)
    ensures Decode(VByte(p) + rest) == Prepend([GroupValue(VByte(p))], Decode(rest))
  {
    var v := VByte(p);
    var s := v + rest;
    VByteShape(p);
    assert s[0..] == s;
    assert s[..|v|] == v;
    assert s[|v|..] == rest;
    DecodeGroup(s, 0, |v|);
  }

  /** Round trip of the byte code: decoding the codes of non-negative `int`s
      gives them back, in order. */
  lemma {:induction false} VBytesRoundTrip(xs: seq<int>)
    requires AllNat32(xs)
    ensures Decode(VBytes(xs)) == Some(xs)
    decreases |xs|
  {
    if xs != [] {
      Nat32Tail(xs);
      VBytesRoundTrip(xs[1..]);
      RoundTripStep(xs);
    }
  }

  lemma Nat32Tail(xs: seq<int>)
    requires xs != [] && AllNat32(xs)
    ensures IsNat32(xs[0]) && AllNat32(xs[1..])
  {
    forall k | 0 <= k < |xs| - 1 ensures IsNat32(xs[1..][k]) {
      assert xs[1..][k] == xs[k + 1];
    }
  }

  /** The first number's code in front of a stream that decodes to the
      rest. */
  lemma RoundTripStep(xs: seq<int>)
    requires xs != [] && IsNat32(xs[0]) && Decode(VBytes(xs[1..])) == Some(xs[1..])
    ensures Decode(VBytes(xs)) == Some(xs)
  {
    var x, rest := xs[0], xs[1..];
    HeadTail(xs);
    assert VBytes(xs) == VByte(x) + VBytes(rest);
    CodeThenRest(x, VBytes(rest), rest);
  }

  /** A code followed by a stream that decodes to `ys` decodes to its number
      followed by `ys`. */
  lemma CodeThenRest(x: int, tail: seq<Byte>, ys: seq<int>)
    requires IsNat32(x) && Decode(tail) == Some(ys)
    ensures Decode(VByte(x) + tail) == Some([x] + ys)
  {
    DecodeFirstCode(x, tail);
    VByteValue(x);
  }

  /** A single group decodes to its own value. */
  lemma SingleGroupValue(x: Byte)
    requires x < 128
    ensures ShiftSum([x], 1) == x as int
  {
    Shl32Small(x as int, 0);
    assert Shl32(x as int, 0) == x as int;
  }

  /** A negative `int` is not carried: it is coded as one byte (its low seven
      bits with the marker) and decodes to those seven bits, a different,
      non-negative number. */
  lemma NegativeIsLossy(p: int)
    requires p < 0
    ensures VByte(p) == [(p % 128 + 128) as Byte]
    ensures Decode(VByte(p)) == Some([p % 128])
    ensures p % 128 != p
  {
    var x := (p % 128) as Byte;
    assert p / 128 < 0;
    assert LowGroups(p) == [x];
    assert Reverse([x]) == [x];
    var v := VByte(p);
    assert |v| == 1 && v[0] == x + 128;
    assert v == [x + 128];
    VByteCleared(p);
    assert Reverse(Cleared(v)) == [x];
    SingleGroupValue(x);
    DecodeFirstCode(p, []);
    assert v + [] == v;
  }

  /** A stream whose last number lacks its marker byte fails to decode. */
  lemma {:induction false} UnterminatedFails(s: seq<Byte>, tail: seq<Byte>)
    requires tail != [] && forall k :: 0 <= k < |tail| ==> tail[k] < 128
    requires Decode(s).Some?
    ensures Decode(s + tail).None?
    decreases |s|, 1
  {
    if s == [] {
      UnmarkedFails(s, tail);
    } else {
      UnterminatedAfterGroup(s, tail);
    }
  }

  /** The first group of the stream is read whole; the unmarked bytes then
      fail what follows it. */
  lemma {:induction false} UnterminatedAfterGroup(s: seq<Byte>, tail: seq<Byte>)
    requires tail != [] && forall k :: 0 <= k < |tail| ==> tail[k] < 128
    requires s != [] && Decode(s).Some?
    ensures Decode(s + tail).None?
    decreases |s|, 0
  {
    DecodedRest(s);
    var k := FirstMarker(s).value;
    UnterminatedFails(s[k + 1..], tail);
    FailsAfterFirstGroup(s, tail, k);
  }

  /** A stream that decodes has a first group, and what follows it decodes
      too. */
  lemma DecodedRest(s: seq<Byte>)
    requires s != [] && Decode(s).Some?
    ensures FirstMarker(s).Some? && Decode(s[FirstMarker(s).value + 1..]).Some?
  {
  }

  /** Bytes without a marker, alone, fail to decode. */
  lemma UnmarkedFails(s: seq<Byte>, tail: seq<Byte>)
    requires s == [] && tail != [] && forall k :: 0 <= k < |tail| ==> tail[k] < 128
    ensures Decode(s + tail).None?
  {
    assert s + tail == tail;
    DecodeUnmarked(tail);
  }

  /** If what follows the first group fails to decode, so does the stream. */
  lemma FailsAfterFirstGroup(s: seq<Byte>, tail: seq<Byte>, k: nat)
    requires FirstMarker(s) == Some(k) && Decode(s[k + 1..] + tail).None?
    ensures Decode(s + tail).None?
  {
    DecodeWithTail(s, tail, k);
  }

  /** More bytes after a stream leave its first group as it was. */
  lemma DecodeWithTail(s: seq<Byte>, tail: seq<Byte>, k: nat)
    requires FirstMarker(s) == Some(k)
    ensures k < |s|
    ensures Decode(s + tail) == Prepend([GroupValue(s[..k + 1])], Decode(s[k + 1..] + tail))
  {
    var t := s + tail;
    FirstMarkerAt(t, k);
    assert t[..k + 1] == s[..k + 1];
    assert t[k + 1..] == s[k + 1..] + tail;
  }
}
