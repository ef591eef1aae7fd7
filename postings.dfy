/** Posting lists of one token: the per-document position lists, their
    flattened form `docId, count, positions…` in ascending document order,
    its compressed bytes, and the reader that turns the bytes back into
    position lists. */
module Postings {
  import opened Wrappers
  import opened JavaInt
  import opened Compressor
  import opened VByteFacts
  import opened Ordered

  /** Document id to the positions of the token in that document
      (`TreeMap<Long, ArrayList<Long>>`). */
  type Occurrences = map<int, seq<int>>

  /** The number of positions listed for `docs`. */
  function TotalOccurrences(m: Occurrences, docs: seq<int>): (n: nat)
    requires forall k :: 0 <= k < |docs| ==> docs[k] in m
    ensures docs == [] ==> n == 0
  {
    if docs == [] then 0 else |m[docs[0]]| + TotalOccurrences(m, docs[1..])
  }

  /** The groups of `docs`, in that order: each document id, its number of
      positions, then the positions. */
  function FlattenFrom(m: Occurrences, docs: seq<int>): (r: seq<int>)
    requires forall k :: 0 <= k < |docs| ==> docs[k] in m
    ensures |r| == 2 * |docs| + TotalOccurrences(m, docs)
  {
    if docs == [] then []
    else [docs[0], |m[docs[0]]|] + m[docs[0]] + FlattenFrom(m, docs[1..])
  }

  /** `buildPostingList`: the groups of every document, ascending by id. */
  ghost function Flatten(m: Occurrences): (r: seq<int>)
  {
    FlattenFrom(m, Ascending(m.Keys))
  }

  /** The flattened list holds two numbers per document plus every position. */
  lemma FlattenLength(m: Occurrences)
    ensures |Flatten(m)| == 2 * |m| + TotalOccurrences(m, Ascending(m.Keys))
  {
    assert |m| == |m.Keys|;
  }

  /** Every id of the sorted key set is a key. */
  lemma AscendingKeys(m: Occurrences)
    ensures forall k :: 0 <= k < |Ascending(m.Keys)| ==> Ascending(m.Keys)[k] in m
  {
    var docs := Ascending(m.Keys);
    forall k | 0 <= k < |docs| ensures docs[k] in m {
      assert docs[k] in docs;
    }
  }

  /** `buildPostingList`: sort the document ids, then append each document's
      id, count and positions. */
  method BuildPostingList(occurrences: Occurrences) returns (result: seq<int>)
    ensures result == Flatten(occurrences)
  {
    var docs := SortIds(occurrences.Keys);
    AscendingKeys(occurrences);
    result := AppendGroups(occurrences, docs);
  }

  /** The loop of `buildPostingList` over the sorted ids. */
  method AppendGroups(occurrences: Occurrences, docs: seq<int>) returns (result: seq<int>)
    requires forall k :: 0 <= k < |docs| ==> docs[k] in occurrences
    ensures result == FlattenFrom(occurrences, docs)
  {
    result := [];
    var i := 0;
    while i < |docs|
      invariant 0 <= i <= |docs|
      invariant result + FlattenFrom(occurrences, docs[i..]) == FlattenFrom(occurrences, docs)
    {
      var indices := occurrences[docs[i]];
      FlattenCons(occurrences, docs, i);
      ghost var tail := FlattenFrom(occurrences, docs[i + 1..]);
      assert result + [docs[i]] + [|indices|] + indices + tail
          == result + ([docs[i]] + [|indices|] + indices + tail);
      result := result + [docs[i]] + [|indices|] + indices;
      i := i + 1;
    }
    assert docs[i..] == [];
    assert result + [] == result;
  }

  /** The group of the `i`-th document comes first in the rest of the list. */
  lemma FlattenCons(m: Occurrences, docs: seq<int>, i: nat)
    requires i < |docs| && forall k :: 0 <= k < |docs| ==> docs[k] in m
    ensures FlattenFrom(m, docs[i..])
            == [docs[i]] + [|m[docs[i]]|] + m[docs[i]] + FlattenFrom(m, docs[i + 1..])
  {
    assert docs[i..][1..] == docs[i + 1..];
  }

  // ---------------------------------------------------------------------------
  // Encoding
  // ---------------------------------------------------------------------------

  /** A delta pass that succeeds keeps the length and yields `int`s only. */
  lemma {:induction false} DeltaShape(list: seq<int>, base: int)
    requires Delta(list, base).Some?
    ensures |Delta(list, base).value| == |list|
    ensures forall k :: 0 <= k < |list| ==> IsInt32(Delta(list, base).value[k])
    decreases |list|
  {
    if list != [] {
      var n := if list[1] < 0 then 0 else list[1];
      var head := [Wrap32(list[0] - base), Wrap32(list[1])] + Gaps(list[2..2 + n], 0);
      DeltaShape(list[2 + n..], list[0]);
      GapsInt32(list[2..2 + n], 0);
      var r := Delta(list, base).value;
      assert r == head + Delta(list[2 + n..], list[0]).value;
      forall k | 0 <= k < |list| ensures IsInt32(r[k]) {
        if k >= |head| {
          assert r[k] == Delta(list[2 + n..], list[0]).value[k - |head|];
        }
      }
    }
  }

  lemma {:induction false} GapsInt32(ps: seq<int>, base: int)
    ensures forall k :: 0 <= k < |ps| ==> IsInt32(Gaps(ps, base)[k])
    decreases |ps|
  {
    if ps != [] {
      GapsInt32(ps[1..], ps[0]);
      var g := Gaps(ps, base);
      forall k | 0 <= k < |ps| ensures IsInt32(g[k]) {
        if k > 0 {
          assert g[k] == Gaps(ps[1..], ps[0])[k - 1];
        }
      }
    }
  }

  /** `encode`: the delta pass, then the byte code; None is the
      out-of-bounds failure of the delta pass on a malformed list. */
  function Encoded(postingList: seq<int>): (r: Option<seq<Byte>>)
    ensures r.Some? <==> Delta(postingList, 0).Some?
  {
    match Delta(postingList, 0)
    case None => None
    case Some(d) => Some(VBytes(d))
  }

  method Encode(postingList: seq<int>) returns (r: Option<seq<Byte>>)
    requires forall k :: 0 <= k < |postingList| ==> IsInt64(postingList[k])
    ensures r == Encoded(postingList)
  {
    var deltas := DeltaEncode(postingList);
    if deltas.None? {
      return None;
    }
    DeltaShape(postingList, 0);
    var bytes := ConvertAllToVBytes(deltas.value);
    r := Some(bytes);
  }

  // ---------------------------------------------------------------------------
  // Reading
  // ---------------------------------------------------------------------------

  /** Running sums of the gaps, starting from `base`: the positions back. */
  function PrefixSums(gaps: seq<int>, base: int): (r: seq<int>)
    ensures |r| == |gaps|
  {
    if gaps == [] then [] else [gaps[0] + base] + PrefixSums(gaps[1..], gaps[0] + base)
  }

  /** The loop of `read` over the decoded numbers: each group adds the
      previous document id to its first number, and the running sums of its
      positions become that document's list. A later group for the same id
      replaces the earlier one (`TreeMap.put`). A count or a position that
      the numbers do not reach is the ArrayIndexOutOfBoundsException; a
      negative count announces no position. */
  function Undelta(d: seq<int>, offset: int, acc: Occurrences): (r: Result<Occurrences>)
    ensures r.Err? ==> r.fault == IndexOutOfBounds
    decreases |d|
  {
    if d == [] then Ok(acc)
    else if |d| < 2 then Err(IndexOutOfBounds)
    else
      var doc := d[0] + offset;
      var n := if d[1] < 0 then 0 else d[1];
      if |d| < 2 + n then Err(IndexOutOfBounds)
      else Undelta(d[2 + n..], doc, acc[doc := PrefixSums(d[2..2 + n], 0)])
  }

  /** `read` of the bytes of one token: decode, then undo the deltas. A
      stream that does not end on a marked byte makes the decoder read past
      the array. */
  function Restored(bytes: seq<Byte>): (r: Result<Occurrences>)
    ensures Decode(bytes).None? ==> r == Err(IndexOutOfBounds)
    ensures Decode(bytes).Some? ==> r == Undelta(Decode(bytes).value, 0, map[])
  {
    match Decode(bytes)
    case None => Err(IndexOutOfBounds)
    case Some(postingList) => Undelta(postingList, 0, map[])
  }

  /** One group of the reader, seen from index `start`. */
  lemma UndeltaGroup(d: seq<int>, start: nat, offset: int, acc: Occurrences, n: nat, ps: seq<int>)
    requires start + 2 <= |d| && n == (if d[start + 1] < 0 then 0 else d[start + 1])
    requires start + 2 + n <= |d| && ps == PrefixSums(d[start + 2..start + 2 + n], 0)
    ensures Undelta(d[start..], offset, acc) == Undelta(d[start + 2 + n..], d[start] + offset, acc[d[start] + offset := ps])
  {
    var rest := d[start..];
    assert rest[2..2 + n] == d[start + 2..start + 2 + n];
    assert rest[2 + n..] == d[start + 2 + n..];
  }

  lemma {:induction false} PrefixSumsSnoc(gaps: seq<int>, x: int, base: int)
    ensures PrefixSums(gaps + [x], base)
            == PrefixSums(gaps, base) + [x + (if gaps == [] then base else PrefixSums(gaps, base)[|gaps| - 1])]
    decreases |gaps|
  {
    if gaps != [] {
      assert (gaps + [x])[1..] == gaps[1..] + [x];
      PrefixSumsSnoc(gaps[1..], x, gaps[0] + base);
    }
  }

  /** The inner loop of `read`: `numOccurrences` gaps from `from` on, each
      added to the previous position. None is the read past the end. */
  method ReadPositions(postingList: seq<int>, from: nat, numOccurrences: int) returns (r: Option<seq<int>>)
    requires from <= |postingList|
    ensures var n := if numOccurrences < 0 then 0 else numOccurrences;
            if from + n <= |postingList| then r == Some(PrefixSums(postingList[from..from + n], 0))
            else r == None
  {
    var list: seq<int> := [];
    var occurrenceOffset := 0;
    var index := from;
    var j := 0;
    ghost var n := if numOccurrences < 0 then 0 else numOccurrences;
    while j < numOccurrences
      invariant 0 <= j <= n && index == from + j <= |postingList|
      invariant list == PrefixSums(postingList[from..index], 0)
      invariant occurrenceOffset == if j == 0 then 0 else list[j - 1]
      decreases numOccurrences - j
    {
      if index == |postingList| {
        return None;
      }
      var relativeOcc := postingList[index];
      PrefixSumsSnoc(postingList[from..index], relativeOcc, 0);
      assert postingList[from..index + 1] == postingList[from..index] + [relativeOcc];
      relativeOcc := relativeOcc + occurrenceOffset;
      occurrenceOffset := relativeOcc;
      list := list + [relativeOcc];
      index := index + 1;
      j := j + 1;
    }
    r := Some(list);
  }

  /** A group that the numbers do not complete fails the reader. */
  lemma UndeltaTooShort(d: seq<int>, start: nat, offset: int, acc: Occurrences)
    requires start < |d|
    requires start + 2 > |d| || start + 2 + (if d[start + 1] < 0 then 0 else d[start + 1]) > |d|
    ensures Undelta(d[start..], offset, acc) == Err(IndexOutOfBounds)
  {
    assert |d[start..]| == |d| - start;
  }

  /** One pass of the outer loop of `read`: the document id, then the count
      and the positions, put into the map. Returns the new offset, map and
      index, or None for the out-of-bounds read. */
  method ReadGroupAt(postingList: seq<int>, index: nat, offset: int, occurrences: Occurrences)
    returns (r: Option<(int, Occurrences, nat)>)
    requires index < |postingList|
    ensures r.None? ==> Undelta(postingList[index..], offset, occurrences) == Err(IndexOutOfBounds)
    ensures r.Some? ==> index < r.value.2 <= |postingList|
                        && Undelta(postingList[index..], offset, occurrences)
                           == Undelta(postingList[r.value.2..], r.value.0, r.value.1)
  {
    if index + 1 == |postingList| {
      UndeltaTooShort(postingList, index, offset, occurrences);
      return None;
    }
    var relativeDocId := postingList[index] + offset;
    var numOccurrences := postingList[index + 1];
    var list := ReadPositions(postingList, index + 2, numOccurrences);
    if list.None? {
      UndeltaTooShort(postingList, index, offset, occurrences);
      return None;
    }
    var n := if numOccurrences < 0 then 0 else numOccurrences;
    UndeltaGroup(postingList, index, offset, occurrences, n, list.value);
    r := Some((relativeDocId, occurrences[relativeDocId := list.value], index + 2 + n));
  }

  /** `read`: decode the bytes, then rebuild the map group by group. */
  method Read(bytes: seq<Byte>) returns (r: Result<Occurrences>)
    ensures r == Restored(bytes)
  {
    var decoded := DecodeVBytes(bytes);
    if decoded.None? {
      return Err(IndexOutOfBounds);
    }
    var postingList := decoded.value;
    ghost var restored := Restored(bytes);
    var occurrences: Occurrences := map[];
    var offset := 0;
    var index := 0;
    assert postingList[0..] == postingList;
    while index < |postingList|
      invariant 0 <= index <= |postingList|
      invariant restored == Undelta(postingList[index..], offset, occurrences)
      decreases |postingList| - index
    {
      var next := ReadGroupAt(postingList, index, offset, occurrences);
      if next.None? {
        return Err(IndexOutOfBounds);
      }
      offset, occurrences, index := next.value.0, next.value.1, next.value.2;
    }
    assert postingList[index..] == [];
    r := Ok(occurrences);
  }

  // ---------------------------------------------------------------------------
  // Round trip
  // ---------------------------------------------------------------------------

  /** Positions as `processDocument` records them: strictly increasing
      non-negative `int`s. */
  predicate IsPositionList(ps: seq<int>) {
    IsAscending(ps) && forall k :: 0 <= k < |ps| ==> IsNat32(ps[k])
  }

  /** The maps the index writes: non-negative `int` document ids, counts
      that fit in an `int`, and position lists as above. */
  predicate WellFormed(m: Occurrences) {
    forall d :: d in m ==> IsNat32(d) && IsNat32(|m[d]|) && IsPositionList(m[d])
  }

  /** The entries of `m` for the documents in `docs`. */
  ghost function Restrict(m: Occurrences, docs: seq<int>): (r: Occurrences)
    ensures forall d :: d in r <==> d in m && d in docs
  {
    map d | d in m && d in docs :: m[d]
  }

  /** Gaps of increasing positions are non-negative `int`s, and their
      running sums give the positions back. */
  lemma {:induction false} GapsUndone(ps: seq<int>, base: int)
    requires IsPositionList(ps) && IsNat32(base)
    requires ps != [] ==> base <= ps[0]
    ensures PrefixSums(Gaps(ps, base), base) == ps
    ensures forall k :: 0 <= k < |ps| ==> IsNat32(Gaps(ps, base)[k])
    decreases |ps|
  {
    if ps != [] {
      var t := ps[1..];
      assert IsPositionList(t);
      assert t != [] ==> ps[0] <= t[0] by {
        if t != [] {
          assert ps[0] < ps[1];
        }
      }
      GapsUndone(t, ps[0]);
      var g := Gaps(ps, base);
      assert g[0] == ps[0] - base;
      forall k | 0 <= k < |ps| ensures IsNat32(g[k]) {
        if k > 0 {
          assert g[k] == Gaps(t, ps[0])[k - 1];
        }
      }
      assert g[1..] == Gaps(t, ps[0]);
    }
  }

  /** The delta pass over one group followed by more of the list. */
  lemma DeltaOfGroup(d0: int, ps: seq<int>, tail: seq<int>, base: int)
    ensures Delta([d0, |ps|] + ps + tail, base)
            == Prepend([Wrap32(d0 - base), Wrap32(|ps|)] + Gaps(ps, 0), Delta(tail, d0))
  {
    var list := [d0, |ps|] + ps + tail;
    var n := |ps|;
    assert list[0] == d0 && list[1] == n;
    assert list[2..2 + n] == ps;
    assert list[2 + n..] == tail;
  }

  /** The reader over one group followed by more numbers. */
  lemma UndeltaOfGroup(a: int, g: seq<int>, rest: seq<int>, base: int, acc: Occurrences)
    ensures Undelta([a, |g|] + g + rest, base, acc)
            == Undelta(rest, a + base, acc[a + base := PrefixSums(g, 0)])
  {
    var d := [a, |g|] + g + rest;
    var n := |g|;
    assert d[0] == a && d[1] == n;
    assert d[2..2 + n] == g;
    assert d[2 + n..] == rest;
  }

  lemma RestrictCons(m: Occurrences, docs: seq<int>, acc: Occurrences)
    requires docs != [] && docs[0] in m
    ensures acc[docs[0] := m[docs[0]]] + Restrict(m, docs[1..]) == acc + Restrict(m, docs)
  {
    var l := acc[docs[0] := m[docs[0]]] + Restrict(m, docs[1..]);
    var r := acc + Restrict(m, docs);
    forall d ensures d in l <==> d in r {
      if d in docs && d != docs[0] {
        var k :| 0 <= k < |docs| && docs[k] == d;
        assert docs[1..][k - 1] == d;
      }
    }
    assert l.Keys == r.Keys;
  }

  lemma AllNat32Concat(a: seq<int>, b: seq<int>)
    requires AllNat32(a) && AllNat32(b)
    ensures AllNat32(a + b)
  {
    forall k | 0 <= k < |a + b| ensures IsNat32((a + b)[k]) {
      if k >= |a| {
        assert (a + b)[k] == b[k - |a|];
      }
    }
  }

  /** What the delta pass makes of the groups of `docs`: the id gap, the
      count and the position gaps of each document in turn. */
  function DeltaFlat(m: Occurrences, docs: seq<int>, base: int): (r: seq<int>)
    requires forall k :: 0 <= k < |docs| ==> docs[k] in m
  {
    if docs == [] then []
    else [docs[0] - base, |m[docs[0]]|] + Gaps(m[docs[0]], 0) + DeltaFlat(m, docs[1..], docs[0])
  }

  /** Ascending ids in `docs` above `base`. */
  predicate IdsFrom(m: Occurrences, docs: seq<int>, base: int) {
    IsAscending(docs) && IsNat32(base)
    && (forall k :: 0 <= k < |docs| ==> docs[k] in m)
    && (docs != [] ==> base <= docs[0])
  }

  lemma IdsFromRest(m: Occurrences, docs: seq<int>, base: int)
    requires IdsFrom(m, docs, base) && docs != [] && WellFormed(m)
    ensures IdsFrom(m, docs[1..], docs[0])
  {
    if |docs| > 1 {
      assert docs[0] < docs[1];
    }
  }

  /** On well-formed input the delta pass succeeds with non-negative `int`s. */
  lemma {:induction false} FlattenDelta(m: Occurrences, docs: seq<int>, base: int)
    requires WellFormed(m) && IdsFrom(m, docs, base)
    ensures Delta(FlattenFrom(m, docs), base) == Some(DeltaFlat(m, docs, base))
    ensures AllNat32(DeltaFlat(m, docs, base))
    decreases |docs|
  {
    if docs != [] {
      var d0 := docs[0];
      IdsFromRest(m, docs, base);
      FlattenDelta(m, docs[1..], d0);
      assert IsNat32(d0) && IsNat32(|m[d0]|) && IsPositionList(m[d0]);
      GroupUnfold(m, docs, base);
      DeltaOfGroupNat(d0, m[d0], FlattenFrom(m, docs[1..]), DeltaFlat(m, docs[1..], d0), base);
    }
  }

  /** The first group of the flattened list and of its delta pass. */
  lemma GroupUnfold(m: Occurrences, docs: seq<int>, base: int)
    requires docs != [] && forall k :: 0 <= k < |docs| ==> docs[k] in m
    ensures FlattenFrom(m, docs) == [docs[0], |m[docs[0]]|] + m[docs[0]] + FlattenFrom(m, docs[1..])
    ensures DeltaFlat(m, docs, base)
            == [docs[0] - base, |m[docs[0]]|] + Gaps(m[docs[0]], 0) + DeltaFlat(m, docs[1..], docs[0])
  {
  }

  /** The delta pass over one well-formed group and a rest that it turns
      into `rest`. */
  lemma DeltaOfGroupNat(d0: int, ps: seq<int>, tail: seq<int>, rest: seq<int>, base: int)
    requires IsNat32(d0) && IsNat32(|ps|) && IsPositionList(ps) && 0 <= base <= d0
    requires Delta(tail, d0) == Some(rest) && AllNat32(rest)
    ensures Delta([d0, |ps|] + ps + tail, base) == Some([d0 - base, |ps|] + Gaps(ps, 0) + rest)
    ensures AllNat32([d0 - base, |ps|] + Gaps(ps, 0) + rest)
  {
    GapsUndone(ps, 0);
    DeltaOfGroup(d0, ps, tail, base);
    var head := [d0 - base, |ps|] + Gaps(ps, 0);
    assert AllNat32(head) by {
      assert AllNat32([d0 - base, |ps|]);
      AllNat32Concat([d0 - base, |ps|], Gaps(ps, 0));
    }
    AllNat32Concat(head, rest);
  }

  /** The reader undoes the delta pass group by group. */
  lemma {:induction false} UndeltaFlat(m: Occurrences, docs: seq<int>, base: int, acc: Occurrences)
    requires WellFormed(m) && IdsFrom(m, docs, base)
    ensures Undelta(DeltaFlat(m, docs, base), base, acc) == Ok(acc + Restrict(m, docs))
    decreases |docs|
  {
    if docs == [] {
      assert acc + Restrict(m, docs) == acc;
    } else {
      var d0 := docs[0];
      var ps := m[d0];
      IdsFromRest(m, docs, base);
      UndeltaFlat(m, docs[1..], d0, acc[d0 := ps]);
      GapsUndone(ps, 0);
      var g := Gaps(ps, 0);
      UndeltaOfGroup(d0 - base, g, DeltaFlat(m, docs[1..], d0), base, acc);
      RestrictCons(m, docs, acc);
    }
  }

  lemma RestrictAll(m: Occurrences, docs: seq<int>)
    requires forall d :: d in m ==> d in docs
    ensures map[] + Restrict(m, docs) == m
  {
    var r := Restrict(m, docs);
    assert map[] + r == r;
    forall d | d in m ensures d in r && r[d] == m[d] {
    }
    assert r.Keys == m.Keys;
  }

  /** Round trip of a posting list: reading the encoded bytes of a
      well-formed map's flattened list gives the map back. */
  lemma RoundTrip(m: Occurrences)
    requires WellFormed(m)
    ensures Encoded(Flatten(m)).Some?
    ensures Restored(Encoded(Flatten(m)).value) == Ok(m)
  {
    var docs := Ascending(m.Keys);
    AscendingKeys(m);
    assert IdsFrom(m, docs, 0);
    FlattenDelta(m, docs, 0);
    var d := DeltaFlat(m, docs, 0);
    UndeltaFlat(m, docs, 0, map[]);
    VBytesRoundTrip(d);
    RestrictAll(m, docs);
  }

  /** A count that announces more positions than the list holds makes the
      delta pass read past the end. */
  lemma MalformedCount(docId: int, count: int, positions: seq<int>)
    requires count > |positions|
    ensures Delta([docId, count] + positions, 0).None?
    ensures Undelta([docId, count] + positions, 0, map[]) == Err(IndexOutOfBounds)
  {
  }
}
