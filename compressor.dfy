/** The posting codec: a delta pass over the flattened posting list followed by
    the variable-byte code (7-bit groups, most significant first, bit 7 set on
    the last byte of each number). */
module Compressor {
  import opened Wrappers
  import opened JavaInt

  /** The bit pattern of a Java `byte`, read as an unsigned value. */
  newtype Byte = b: int | 0 <= b < 256

  /** `s` back to front (`Collections.reverse`). */
  function Reverse<T>(s: seq<T>): (r: seq<T>)
    ensures |r| == |s|
    ensures forall k :: 0 <= k < |s| ==> r[k] == s[|s| - 1 - k]
  {
    if s == [] then [] else Reverse(s[1..]) + [s[0]]
  }

  lemma ReverseReverse<T>(s: seq<T>)
    ensures Reverse(Reverse(s)) == s
  {
  }

  // ---------------------------------------------------------------------------
  // Delta pass
  // ---------------------------------------------------------------------------

  /** Each position of a group minus the previous one (the first minus `base`),
      narrowed to `int`. */
  function Gaps(ps: seq<int>, base: int): (r: seq<int>)
    ensures |r| == |ps|
  {
    if ps == [] then [] else [Wrap32(ps[0] - base)] + Gaps(ps[1..], ps[0])
  }

  /** The delta pass over the rest of a flattened posting list, where `baseDoc`
      is the previous group's document id. Each group is
      `docId, count, count positions`; the document id becomes its difference
      from `baseDoc`, the count is copied, the positions become gaps. None is
      the ArrayIndexOutOfBoundsException raised when a count, or a position a
      count announces, lies past the end. A negative count announces no
      position. */
  function Delta(list: seq<int>, baseDoc: int): (r: Option<seq<int>>)
    decreases |list|
  {
    if list == [] then Some([])
    else if |list| < 2 then None
    else
      var n := if list[1] < 0 then 0 else list[1];
      if |list| < 2 + n then None
      else Prepend([Wrap32(list[0] - baseDoc), Wrap32(list[1])] + Gaps(list[2..2 + n], 0),
                   Delta(list[2 + n..], list[0]))
  }

  lemma {:induction false} GapsSnoc(ps: seq<int>, x: int, base: int)
    ensures Gaps(ps + [x], base) == Gaps(ps, base) + [Wrap32(x - (if ps == [] then base else ps[|ps| - 1]))]
    decreases |ps|
  {
    if ps != [] {
      assert (ps + [x])[1..] == ps[1..] + [x];
      GapsSnoc(ps[1..], x, ps[0]);
    }
  }

  /** One step of the delta pass: the group that starts at `start`. */
  lemma DeltaGroup(list: seq<int>, start: nat, base: int)
    requires start + 2 <= |list|
    requires start + 2 + (if list[start + 1] < 0 then 0 else list[start + 1]) <= |list|
    ensures var n := if list[start + 1] < 0 then 0 else list[start + 1];
            Delta(list[start..], base)
            == Prepend([Wrap32(list[start] - base), Wrap32(list[start + 1])] + Gaps(list[start + 2..start + 2 + n], 0),
                       Delta(list[start + 2 + n..], list[start]))
  {
    var n := if list[start + 1] < 0 then 0 else list[start + 1];
    var rest := list[start..];
    assert rest != [] && |rest| >= 2 + n && rest[0] == list[start] && rest[1] == list[start + 1];
    assert rest[2..2 + n] == list[start + 2..start + 2 + n];
    assert rest[2 + n..] == list[start + 2 + n..];
  }

  /** The inner loop of `deltaEncode`: the `numOccs` positions that start at
      `from`, each minus the previous one (the first minus 0). None is the
      out-of-bounds read when the list ends before `numOccs` positions. */
  method EncodePositions(list: seq<int>, from: nat, numOccs: int) returns (r: Option<seq<int>>)
    requires from <= |list|
    ensures var n := if numOccs < 0 then 0 else numOccs;
            if from + n <= |list| then r == Some(Gaps(list[from..from + n], 0)) else r == None
  {
    var gaps: seq<int> := [];
    var index := from;
    var baseIdx := 0;
    var i := 0;
    ghost var n := if numOccs < 0 then 0 else numOccs;
    while i < numOccs
      invariant 0 <= i <= n && index == from + i <= |list|
      invariant gaps == Gaps(list[from..index], 0)
      invariant baseIdx == if i == 0 then 0 else list[index - 1]
      decreases numOccs - i
    {
      if index == |list| {
        return None;
      }
      var idx := list[index];
      GapsSnoc(list[from..index], idx, 0);
      assert list[from..index + 1] == list[from..index] + [idx];
      gaps := gaps + [Wrap32(idx - baseIdx)];
      baseIdx := idx;
      index := index + 1;
      i := i + 1;
    }
    r := Some(gaps);
  }

  /** `deltaEncode`: the long differences narrowed by the `(int)` casts. Since
      the running base is restored by adding the difference back in `long`
      arithmetic, it always equals the last document id (or position) read.
      The output has the length of the input, each value in the slot of the
      value it encodes. */
  method DeltaEncode(postingList: seq<int>) returns (r: Option<seq<int>>)
    requires forall k :: 0 <= k < |postingList| ==> IsInt64(postingList[k])
    ensures r == Delta(postingList, 0)
  {
    var index := 0;
    var result: seq<int> := [];
    var baseDocId := 0;
    assert postingList[index..] == postingList;
    while index < |postingList|
      invariant 0 <= index <= |postingList|
      invariant Delta(postingList, 0) == Prepend(result, Delta(postingList[index..], baseDocId))
      decreases |postingList| - index
    {
      var group, next := EncodeGroup(postingList, index, baseDocId);
      if group.None? {
        return None;
      }
      PrependPrepend(result, group.value, Delta(postingList[next..], postingList[index]));
      result := result + group.value;
      baseDocId := postingList[index];
      index := next;
    }
    assert postingList[index..] == [];
    assert result + [] == result;
    r := Some(result);
  }

  /** One document's group in the body of `deltaEncode`'s loop: the document
      id minus the base, the count copied, and the count's positions as gaps;
      `next` is where the following group starts. None is the out-of-bounds
      read when the list ends inside the group. */
  method EncodeGroup(list: seq<int>, start: nat, base: int) returns (group: Option<seq<int>>, next: nat)
    requires start < |list|
    ensures group.Some? ==>
              start < next <= |list| && Delta(list[start..], base) == Prepend(group.value, Delta(list[next..], list[start]))
    ensures group.None? ==> Delta(list[start..], base) == None
  {
    var docId := list[start];
    next := start + 1;
    if next == |list| {
      DeltaTruncated(list, start, base);
      return None, next;
    }
    var numOccs := list[next];
    next := next + 1;
    var gaps := EncodePositions(list, next, numOccs);
    if gaps.None? {
      DeltaTruncated(list, start, base);
      return None, next;
    }
    next := next + if numOccs < 0 then 0 else numOccs;
    DeltaGroup(list, start, base);
    group := Some([Wrap32(docId - base), Wrap32(numOccs)] + gaps.value);
  }

  /** A group cut short by the end of the list fails the delta pass. */
  lemma DeltaTruncated(list: seq<int>, start: nat, base: int)
    requires start < |list|
    requires start + 2 <= |list| ==> |list| < start + 2 + (if list[start + 1] < 0 then 0 else list[start + 1])
    ensures Delta(list[start..], base) == None
  {
    var rest := list[start..];
    assert |rest| >= 2 ==> rest[1] == list[start + 1];
  }

  // ---------------------------------------------------------------------------
  // Variable-byte code
  // ---------------------------------------------------------------------------

  /** The 7-bit groups of `p`, least significant first, as the do-while loop
      collects them: `p & 127` is `p % 128` and `p >>= 7` is `p / 128` for
      every `int`, negative ones included. A negative `p` stays negative after
      the shift, so it yields a single group. */
  function LowGroups(p: int): (g: seq<Byte>)
    ensures |g| >= 1
    ensures forall k :: 0 <= k < |g| ==> g[k] < 128
    decreases if p > 0 then p else 0
  {
    [(p % 128) as Byte] + (if p / 128 > 0 then LowGroups(p / 128) else [])
  }

  /** The code of one `int`: its groups most significant first, with bit 7
      set on the last one. */
  function VByte(p: int): (v: seq<Byte>)
    ensures |v| >= 1
  {
    var g := Reverse(LowGroups(p));
    g[|g| - 1 := g[|g| - 1] + 128]
  }

  /** The code of a sequence of `int`s: the codes of its elements, in order. */
  function VBytes(xs: seq<int>): (v: seq<Byte>)
    ensures |v| >= |xs|
  {
    if xs == [] then [] else VByte(xs[0]) + VBytes(xs[1..])
  }

  /** `convertToVBytes(int)`: collect the groups low first, reverse them, and
      set bit 7 of the last byte. */
  method ConvertToVBytes(p: int) returns (bytes: seq<Byte>)
    requires IsInt32(p)
    ensures bytes == VByte(p)
  {
    var resultList: seq<Byte> := [];
    var q := p;
    resultList := resultList + [(q % 128) as Byte];
    q := q / 128;
    while q > 0
      invariant LowGroups(p) == resultList + (if q > 0 then LowGroups(q) else [])
      decreases q
    {
      ghost var rest := if q / 128 > 0 then LowGroups(q / 128) else [];
      assert LowGroups(q) == [(q % 128) as Byte] + rest;
      ConcatAssoc(resultList, [(q % 128) as Byte], rest);
      resultList := resultList + [(q % 128) as Byte];
      q := q / 128;
    }
    assert resultList == LowGroups(p);
    bytes := Reverse(resultList);
    LastGroupUnmarked(p);
    var b := bytes[|bytes| - 1];
    bytes := bytes[|bytes| - 1 := b + 128];
  }

  /** The last byte of the reversed groups still has bit 7 clear. */
  lemma LastGroupUnmarked(p: int)
    ensures var g := Reverse(LowGroups(p)); g[|g| - 1] < 128
  {
    var g := LowGroups(p);
    assert Reverse(g)[|g| - 1] == g[0];
  }

  /** `convertToVBytes(int[])`: the per-element codes, concatenated. */
  method ConvertAllToVBytes(postingList: seq<int>) returns (result: seq<Byte>)
    requires forall k :: 0 <= k < |postingList| ==> IsInt32(postingList[k])
    ensures result == VBytes(postingList)
  {
    result := [];
    for i := 0 to |postingList|
      invariant result + VBytes(postingList[i..]) == VBytes(postingList)
    {
      var code := ConvertToVBytes(postingList[i]);
      assert VBytes(postingList[i..]) == code + VBytes(postingList[i + 1..]) by {
        assert postingList[i..][1..] == postingList[i + 1..];
      }
      ConcatAssoc(result, code, VBytes(postingList[i + 1..]));
      result := result + code;
    }
    assert postingList[|postingList|..] == [];
    assert result + [] == result;
  }

  /** The first index of `s` whose byte has bit 7 set. */
  function FirstMarker(s: seq<Byte>): (r: Option<nat>)
    ensures r.Some? ==> r.value < |s| && s[r.value] >= 128
                        && forall k :: 0 <= k < r.value ==> s[k] < 128
    ensures r.None? ==> forall k :: 0 <= k < |s| ==> s[k] < 128
  {
    if s == [] then None
    else if s[0] >= 128 then Some(0)
    else match FirstMarker(s[1..])
      case None => None
      case Some(k) => Some(k + 1)
  }

  /** The `int` that the decoder's accumulation loop computes from the
      reversed groups `g`: `result += g[j] << (7 * j)` for j < n, in 32-bit
      arithmetic. */
  function ShiftSum(g: seq<Byte>, n: nat): (r: int)
    requires n <= |g|
    ensures IsInt32(r)
  {
    if n == 0 then 0 else Wrap32(ShiftSum(g, n - 1) + Shl32(g[n - 1] as int, 7 * (n - 1)))
  }

  /** A group of bytes that ends with its marker, the marker bit cleared. */
  function Cleared(group: seq<Byte>): (r: seq<Byte>)
    requires |group| >= 1 && group[|group| - 1] >= 128
    ensures |r| == |group| && forall k :: 0 <= k < |r| - 1 ==> r[k] == group[k]
    ensures r[|r| - 1] as int == group[|group| - 1] as int - 128
  {
    group[..|group| - 1] + [group[|group| - 1] - 128]
  }

  /** The number that one group of bytes (ending with its marker) decodes to. */
  function GroupValue(group: seq<Byte>): int
    requires |group| >= 1 && group[|group| - 1] >= 128
  {
    var bytes := Reverse(Cleared(group));
    ShiftSum(bytes, |bytes|)
  }

  /** What `decodeVBytes` returns for `s`; None is the out-of-bounds read of a
      stream whose last number has no marker byte. */
  function Decode(s: seq<Byte>): (r: Option<seq<int>>)
    decreases |s|
  {
    if s == [] then Some([])
    else match FirstMarker(s)
      case None => None
      case Some(k) => Prepend([GroupValue(s[..k + 1])], Decode(s[k + 1..]))
  }

  /** Decoding a stream whose first marker closes the group `s[start..i]`
      yields that group's value, then the rest. */
  lemma DecodeGroup(s: seq<Byte>, start: nat, i: nat)
    requires start < i <= |s| && s[i - 1] >= 128
    requires forall k :: start <= k < i - 1 ==> s[k] < 128
    ensures Decode(s[start..]) == Prepend([GroupValue(s[start..i])], Decode(s[i..]))
  {
    var t := s[start..];
    var k := i - 1 - start;
    assert FirstMarker(t) == Some(k) by {
      FirstMarkerAt(t, k);
    }
    assert t[..k + 1] == s[start..i];
    assert t[k + 1..] == s[i..];
  }

  lemma {:induction false} FirstMarkerAt(t: seq<Byte>, k: nat)
    requires k < |t| && t[k] >= 128
    requires forall j :: 0 <= j < k ==> t[j] < 128
    ensures FirstMarker(t) == Some(k)
  {
    if k > 0 {
      FirstMarkerAt(t[1..], k - 1);
    }
  }

  /** The accumulation loop of `decodeVBytes`: `result += g[j] << (7 * j)`
      over the reversed groups, in 32-bit arithmetic. */
  method SumGroups(g: seq<Byte>) returns (result: int)
    ensures result == ShiftSum(g, |g|)
  {
    result := 0;
    for j := 0 to |g|
      invariant result == ShiftSum(g, j)
    {
      result := Wrap32(result + Shl32(g[j] as int, 7 * j));
    }
  }

  /** A non-empty stream with no marker byte fails to decode. */
  lemma DecodeUnmarked(s: seq<Byte>)
    requires s != [] && FirstMarker(s).None?
    ensures Decode(s).None?
  {
  }

  /** The end of the group that starts at `from`: one past its marker. */
  function GroupEnd(s: seq<Byte>, from: nat): (next: nat)
    requires from <= |s| && FirstMarker(s[from..]).Some?
    ensures from < next <= |s| && s[next - 1] >= 128
  {
    assert s[from..][FirstMarker(s[from..]).value] == s[from + FirstMarker(s[from..]).value];
    from + FirstMarker(s[from..]).value + 1
  }

  /** One number of the decoder's outer loop moved from the pending stream to
      the output. */
  lemma DecodeStep(s: seq<Byte>, from: nat, done: seq<int>, reversed: seq<Byte>, value: int)
    requires from <= |s| && FirstMarker(s[from..]).Some?
    requires reversed == Reverse(Cleared(s[from..GroupEnd(s, from)]))
    requires value == ShiftSum(reversed, |reversed|)
    ensures Prepend(done, Decode(s[from..])) == Prepend(done + [value], Decode(s[GroupEnd(s, from)..]))
  {
    var next := GroupEnd(s, from);
    var k := FirstMarker(s[from..]).value;
    forall j | from <= j < next - 1
      ensures s[j] < 128
    {
      assert s[j] == s[from..][j - from];
    }
    DecodeGroup(s, from, next);
    PrependPrepend(done, [value], Decode(s[next..]));
  }

  /** The `while (true)` loop of `decodeVBytes`: the bytes from `from` up to
      and including the first one with bit 7 set, that bit cleared, and the
      index after it. None is the out-of-bounds read when no such byte
      follows. */
  method ReadGroup(s: seq<Byte>, from: nat) returns (r: Option<(seq<Byte>, nat)>)
    requires from <= |s|
    ensures r.None? <==> FirstMarker(s[from..]).None?
    ensures r.Some? ==> r.value.1 == GroupEnd(s, from) && r.value.0 == Cleared(s[from..r.value.1])
  {
    var i := from;
    var bytes: seq<Byte> := [];
    while true
      invariant from <= i <= |s|
      invariant bytes == s[from..i]
      invariant forall k :: from <= k < i ==> s[k] < 128
      decreases |s| - i
    {
      if i == |s| {
        NoMarkerFrom(s, from);
        return None;
      }
      var b := s[i];
      i := i + 1;
      if b >= 128 {
        MarkerFound(s, from, i);
        return Some((bytes + [b - 128], i));
      }
      bytes := bytes + [b];
    }
  }

  lemma NoMarkerFrom(s: seq<Byte>, from: nat)
    requires from <= |s| && forall k :: from <= k < |s| ==> s[k] < 128
    ensures FirstMarker(s[from..]).None?
  {
    forall k | 0 <= k < |s[from..]| ensures s[from..][k] < 128 {
      assert s[from..][k] == s[from + k];
    }
  }

  /** The first marker after `from` is at `i - 1`: the group ends at `i`. */
  lemma MarkerFound(s: seq<Byte>, from: nat, i: nat)
    requires from < i <= |s| && s[i - 1] >= 128
    requires forall k :: from <= k < i - 1 ==> s[k] < 128
    ensures FirstMarker(s[from..]).Some? && GroupEnd(s, from) == i
    ensures Cleared(s[from..i]) == s[from..i - 1] + [s[i - 1] - 128]
  {
    FirstMarkerAt(s[from..], i - 1 - from);
    var group := s[from..i];
    assert group[..|group| - 1] == s[from..i - 1];
  }

  /** `decodeVBytes`: read bytes until one with bit 7 set, clear that bit,
      reverse the group and add up its 7-bit parts. */
  method DecodeVBytes(postingList: seq<Byte>) returns (r: Option<seq<int>>)
    ensures r == Decode(postingList)
  {
    var resultList: seq<int> := [];
    var i := 0;
    while i < |postingList|
      invariant 0 <= i <= |postingList|
      invariant Decode(postingList) == Prepend(resultList, Decode(postingList[i..]))
      decreases |postingList| - i
    {
      var read := ReadGroup(postingList, i);
      if read.None? {
        DecodeUnmarked(postingList[i..]);
        return None;
      }
      var bytes, next := read.value.0, read.value.1;
      bytes := Reverse(bytes);
      var result := SumGroups(bytes);
      DecodeStep(postingList, i, resultList, bytes, result);
      resultList := resultList + [result];
      i := next;
    }
    assert postingList[i..] == [];
    assert resultList + [] == resultList;
    r := Some(resultList);
  }
}
