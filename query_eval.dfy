/** Query evaluation over posting maps that are already loaded: the
    intersection of the documents of several tokens, `nextDoc`'s binary
    search over the sorted intersection, and phrase matching at
    consecutive offsets (`IndexerInvertedCompressed`). */
module QueryEval {
  import opened Wrappers
  import opened Ordered

  // ---------------------------------------------------------------------------
  // intersection
  // ---------------------------------------------------------------------------

  /** One pass of the loop in `intersection`: a null set is skipped; an
      empty running result is replaced by the whole set; otherwise the
      running result loses every id that the set does not contain. */
  function IntersectStep(result: set<int>, s: Option<set<int>>): set<int> {
    match s
    case None => result
    case Some(t) => if result == {} then t else result * t
  }

  /** What `intersection(sets)` returns: the passes applied in list order. */
  function Intersect(sets: seq<Option<set<int>>>): set<int> {
    if sets == [] then {} else IntersectStep(Intersect(sets[..|sets| - 1]), sets[|sets| - 1])
  }

  /** Some set of the list is non-null. */
  predicate AnyPresent(sets: seq<Option<set<int>>>) {
    exists i :: 0 <= i < |sets| && sets[i].Some?
  }

  /** `x` belongs to every non-null set of the list. */
  predicate InAll(x: int, sets: seq<Option<set<int>>>) {
    forall i :: 0 <= i < |sets| && sets[i].Some? ==> x in sets[i].value
  }

  /** The inner loop: a copy of `result` loses each of its ids that `s`
      does not contain. */
  method Retain(result: set<int>, s: set<int>) returns (newResult: set<int>)
    ensures newResult == result * s
  {
    newResult := result;
    var rest := result;
    while rest != {}
      invariant rest <= result
      invariant newResult == rest + (result - rest) * s
      decreases |rest|
    {
      HasId(rest);
      var x :| x in rest;
      if x !in s {
        newResult := newResult - {x};
      }
      rest := rest - {x};
    }
  }

  /** `intersection`: the running result over the list of sets. */
  method Intersection(sets: seq<Option<set<int>>>) returns (result: set<int>)
    ensures result == Intersect(sets)
  {
    result := {};
    for i := 0 to |sets|
      invariant result == Intersect(sets[..i])
    {
      assert sets[..i + 1][..i] == sets[..i];
      match sets[i] {
        case None =>
        case Some(t) =>
          if result == {} {
            result := t;
          } else {
            result := Retain(result, t);
          }
      }
    }
    assert sets[..|sets|] == sets;
  }

  /** A non-empty result needs a non-null set; with only null sets the
      result is empty. */
  lemma {:induction false} NonEmptyHasPresent(sets: seq<Option<set<int>>>)
    ensures Intersect(sets) != {} ==> AnyPresent(sets)
    decreases |sets|
  {
    if sets != [] {
      var n := |sets|;
      var pre := sets[..n - 1];
      NonEmptyHasPresent(pre);
      if sets[n - 1].Some? {
        assert AnyPresent(sets) by {
          assert 0 <= n - 1 < |sets| && sets[n - 1].Some?;
        }
      } else if Intersect(pre) != {} {
        var i :| 0 <= i < |pre| && pre[i].Some?;
        assert sets[i] == pre[i];
      }
    }
  }

  /** The result lies within the last non-null set of the list. */
  lemma {:induction false} WithinLastPresent(sets: seq<Option<set<int>>>, p: nat)
    requires p < |sets| && sets[p].Some?
    requires forall q :: p < q < |sets| ==> sets[q].None?
    ensures Intersect(sets) <= sets[p].value
    decreases |sets|
  {
    var pre := sets[..|sets| - 1];
    if p < |sets| - 1 {
      assert pre[p] == sets[p];
      forall q | p < q < |pre| ensures pre[q].None? {
        assert pre[q] == sets[q];
      }
      WithinLastPresent(pre, p);
    }
  }

  /** Membership in every non-null set, one set at a time. */
  lemma InAllSnoc(x: int, sets: seq<Option<set<int>>>)
    requires sets != []
    ensures var last := sets[|sets| - 1];
            InAll(x, sets) <==> InAll(x, sets[..|sets| - 1]) && (last.Some? ==> x in last.value)
  {
    var pre := sets[..|sets| - 1];
    if InAll(x, pre) && (sets[|sets| - 1].Some? ==> x in sets[|sets| - 1].value) {
      forall i | 0 <= i < |sets| && sets[i].Some? ensures x in sets[i].value {
        if i < |pre| {
          assert pre[i] == sets[i];
        }
      }
    }
    if InAll(x, sets) {
      forall i | 0 <= i < |pre| && pre[i].Some? ensures x in pre[i].value {
        assert pre[i] == sets[i];
      }
    }
  }

  /** An id common to all non-null sets is never lost, whatever re-seeding
      happens on the way. */
  lemma {:induction false} CommonIdsKept(sets: seq<Option<set<int>>>, x: int)
    requires AnyPresent(sets) && InAll(x, sets)
    ensures x in Intersect(sets)
    decreases |sets|
  {
    var n := |sets|;
    var pre := sets[..n - 1];
    InAllSnoc(x, sets);
    match sets[n - 1]
    case None =>
      assert AnyPresent(pre) by {
        var i :| 0 <= i < n && sets[i].Some?;
        assert pre[i] == sets[i];
      }
      CommonIdsKept(pre, x);
    case Some(t) =>
      if Intersect(pre) != {} {
        NonEmptyHasPresent(pre);
        CommonIdsKept(pre, x);
      }
  }

  /** When some id is common to all non-null sets, the running result never
      empties after the first non-null set, nothing is re-seeded, and the
      result is exactly the set of ids common to all non-null sets. */
  lemma {:induction false} ExactWhenCommon(sets: seq<Option<set<int>>>, w: int)
    requires AnyPresent(sets) && InAll(w, sets)
    ensures forall x :: x in Intersect(sets) <==> InAll(x, sets)
    decreases |sets|
  {
    var n := |sets|;
    var pre := sets[..n - 1];
    InAllSnoc(w, sets);
    match sets[n - 1]
    case None =>
      assert AnyPresent(pre) by {
        var i :| 0 <= i < n && sets[i].Some?;
        assert pre[i] == sets[i];
      }
      ExactWhenCommon(pre, w);
      forall x ensures x in Intersect(sets) <==> InAll(x, sets) {
        InAllSnoc(x, sets);
      }
    case Some(t) =>
      if AnyPresent(pre) {
        ExactWhenCommon(pre, w);
        assert w in Intersect(pre);
      } else {
        NonEmptyHasPresent(pre);
      }
      forall x ensures x in Intersect(sets) <==> InAll(x, sets) {
        InAllSnoc(x, sets);
      }
  }

  /** Re-seeding: once the running result is empty the next set is copied
      in whole, so the result can hold an id that is missing from an
      earlier set. */
  lemma ReseedingKeepsStrangers()
    ensures var sets := [Some({1}), Some({2}), Some({2})];
            Intersect(sets) == {2} && !InAll(2, sets)
  {
    var sets: seq<Option<set<int>>> := [Some({1}), Some({2}), Some({2})];
    assert sets[..1] == [Some({1})];
    assert sets[..2] == [Some({1}), Some({2})] && sets[..2][..1] == sets[..1];
    assert Intersect(sets[..1]) == {1};
    assert {1} * {2} == {};
    assert Intersect(sets[..2]) == {};
  }

  // ---------------------------------------------------------------------------
  // nextDoc
  // ---------------------------------------------------------------------------

  /** The index of the first element that is not smaller than `key`: where
      `key` would be inserted into an ascending list. */
  function InsertionPoint(a: seq<int>, key: int): (p: nat)
    ensures p <= |a|
    ensures forall k :: 0 <= k < p ==> a[k] < key
    ensures p < |a| ==> a[p] >= key
  {
    if a == [] || a[0] >= key then 0 else 1 + InsertionPoint(a[1..], key)
  }

  /** `Collections.binarySearch` on an ascending list: the index of `key`,
      or minus one minus the insertion point when `key` is absent. */
  method BinarySearch(a: seq<int>, key: int) returns (r: int)
    requires IsAscending(a)
    ensures 0 <= r ==> r < |a| && a[r] == key
    ensures r < 0 ==> key !in a && -(r + 1) == InsertionPoint(a, key)
  {
    var low := 0;
    var high := |a| - 1;
    while low <= high
      invariant 0 <= low <= high + 1 <= |a|
      invariant forall k :: 0 <= k < low ==> a[k] < key
      invariant forall k :: high < k < |a| ==> a[k] > key
      decreases high - low
    {
      var mid := (low + high) / 2;
      if a[mid] < key {
        low := mid + 1;
      } else if a[mid] > key {
        high := mid - 1;
      } else {
        return mid;
      }
    }
    assert low == |a| || a[low] > key;
    r := -(low + 1);
  }

  /** The id that `nextDoc` moves to in the ascending list of documents
      holding every query token: the id after `docid` when `docid` is in the
      list; otherwise the id at the insertion point, but only when that
      point is before the last index. A `docid` that is absent and smaller
      than only the last id therefore ends the iteration early. */
  function NextDocId(docs: seq<int>, docid: int): (r: Option<int>)
    requires IsAscending(docs)
    ensures r.Some? ==> r.value in docs && docid < r.value
    ensures r.Some? ==> forall d :: d in docs && docid < d ==> r.value <= d
    ensures r.None? <==> (forall d :: d in docs ==> d <= docid)
                         || (docid !in docs && forall k :: 0 <= k < |docs| - 1 ==> docs[k] < docid)
  {
    var p := InsertionPoint(docs, docid);
    if p < |docs| && docs[p] == docid then
      if p + 1 >= |docs| then None else Some(docs[p + 1])
    else
      assert docid !in docs;
      var i := p + 1;
      if i >= |docs| then None else Some(docs[i - 1])
  }

  /** `nextDoc`'s search in the sorted list: a negative search result is
      negated and then used, less one, as an index. */
  method NextDocIn(docs: seq<int>, docid: int) returns (r: Option<int>)
    requires IsAscending(docs)
    ensures r == NextDocId(docs, docid)
  {
    var i := BinarySearch(docs, docid);
    if i < 0 {
      i := i * -1;
      if i >= |docs| {
        return None;
      }
      return Some(docs[i - 1]);
    }
    if i + 1 >= |docs| {
      return None;
    }
    r := Some(docs[i + 1]);
  }

  /** The early end: from an id below the only candidate, `nextDoc` returns
      nothing although a larger id exists. */
  lemma NextDocMissesLast()
    ensures IsAscending([5]) && NextDocId([5], 0) == None
  {
    assert InsertionPoint([5], 0) == 0;
  }

  // ---------------------------------------------------------------------------
  // weHaveAWinner and the phrase loop
  // ---------------------------------------------------------------------------

  /** The map `weHaveAWinner` builds for one document: each token the index
      holds maps to that document's positions of the token, or to null (None)
      when the document lacks it; tokens the index lacks are absent. */
  type TokenOccurrences = map<string, Option<seq<int>>>

  /** `tokens[j]` occurs at `o + j`. */
  predicate TokenAt(occ: TokenOccurrences, tokens: seq<string>, o: int, j: nat)
    requires j < |tokens|
  {
    tokens[j] in occ && occ[tokens[j]].Some? && o + j in occ[tokens[j]].value
  }

  /** The rest of the phrase follows an occurrence `o` of its first token. */
  predicate PhraseAt(occ: TokenOccurrences, tokens: seq<string>, o: int) {
    forall j :: 1 <= j < |tokens| ==> TokenAt(occ, tokens, o, j)
  }

  /** No token after the first is mapped to null. */
  predicate NullFree(occ: TokenOccurrences, tokens: seq<string>) {
    forall j :: 1 <= j < |tokens| && tokens[j] in occ ==> occ[tokens[j]].Some?
  }

  /** The positions of the first token, or none when it is missing or null. */
  function Firsts(occ: TokenOccurrences, tokens: seq<string>): seq<int> {
    if tokens != [] && tokens[0] in occ && occ[tokens[0]].Some? then occ[tokens[0]].value else []
  }

  /** The flag loop for one occurrence `o`, from token `j` on: it stops at the
      first token missing from the map or absent at `o + j`, and a token
      mapped to null throws. */
  function Matches(occ: TokenOccurrences, tokens: seq<string>, o: int, j: nat): Result<bool>
    decreases |tokens| - j
  {
    if j >= |tokens| then Ok(true)
    else if tokens[j] !in occ then Ok(false)
    else
      match occ[tokens[j]]
      case None => Err(NullReference)
      case Some(l) => if o + j in l then Matches(occ, tokens, o, j + 1) else Ok(false)
  }

  /** The occurrence loop from position `k` of the first token's list. */
  function ScanFrom(occ: TokenOccurrences, tokens: seq<string>, list: seq<int>, i: int, k: nat): Result<int>
    decreases |list| - k
  {
    if k >= |list| then Ok(-1)
    else if list[k] > i then
      match Matches(occ, tokens, list[k], 1)
      case Err(f) => Err(f)
      case Ok(found) => if found then Ok(list[k]) else ScanFrom(occ, tokens, list, i, k + 1)
    else ScanFrom(occ, tokens, list, i, k + 1)
  }

  /** What `weHaveAWinner` returns once its map is built: `tokens[0]` on an
      empty array throws; a missing or null first list gives -1. */
  function Winner(occ: TokenOccurrences, tokens: seq<string>, i: int): Result<int> {
    if tokens == [] then Err(IndexOutOfBounds)
    else if tokens[0] !in occ || occ[tokens[0]].None? then Ok(-1)
    else ScanFrom(occ, tokens, occ[tokens[0]].value, i, 0)
  }

  /** The flag loop of `weHaveAWinner` for one occurrence. */
  method MatchAt(occ: TokenOccurrences, tokens: seq<string>, occurrence: int) returns (r: Result<bool>)
    ensures r == Matches(occ, tokens, occurrence, 1)
  {
    var flag := true;
    var j := 1;
    while flag && j < |tokens|
      invariant 1 <= j
      invariant flag ==> Matches(occ, tokens, occurrence, 1) == Matches(occ, tokens, occurrence, j)
      invariant !flag ==> Matches(occ, tokens, occurrence, 1) == Ok(false)
      decreases |tokens| - j
    {
      if tokens[j] !in occ {
        flag := false;
      } else if occ[tokens[j]].None? {
        return Err(NullReference);
      } else if occurrence + j !in occ[tokens[j]].value {
        flag := false;
      }
      j := j + 1;
    }
    r := Ok(flag);
  }

  /** `weHaveAWinner` after its map is built: the first occurrence of
      `tokens[0]` after `i` at which the rest of the phrase follows. */
  method FirstWinner(occ: TokenOccurrences, tokens: seq<string>, i: int) returns (r: Result<int>)
    ensures r == Winner(occ, tokens, i)
  {
    if |tokens| == 0 {
      return Err(IndexOutOfBounds);
    }
    if tokens[0] !in occ || occ[tokens[0]].None? {
      return Ok(-1);
    }
    var list := occ[tokens[0]].value;
    var k := 0;
    while k < |list|
      invariant k <= |list|
      invariant ScanFrom(occ, tokens, list, i, 0) == ScanFrom(occ, tokens, list, i, k)
    {
      var occurrence := list[k];
      if occurrence > i {
        var found := MatchAt(occ, tokens, occurrence);
        if found.Err? {
          return Err(found.fault);
        }
        if found.value {
          return Ok(occurrence);
        }
      }
      k := k + 1;
    }
    r := Ok(-1);
  }

  /** The flag loop succeeds exactly when every later token follows, and
      it can only throw when a token is mapped to null. */
  lemma {:induction false} MatchesMeaning(occ: TokenOccurrences, tokens: seq<string>, o: int, j: nat)
    ensures Matches(occ, tokens, o, j) == Ok(true)
            <==> forall jj :: j <= jj < |tokens| ==> TokenAt(occ, tokens, o, jj)
    ensures 1 <= j && NullFree(occ, tokens) ==> Matches(occ, tokens, o, j).Ok?
    decreases |tokens| - j
  {
    if j < |tokens| {
      MatchesMeaning(occ, tokens, o, j + 1);
      assert Matches(occ, tokens, o, j) == Ok(true)
             <==> TokenAt(occ, tokens, o, j) && Matches(occ, tokens, o, j + 1) == Ok(true);
      assert (forall jj :: j <= jj < |tokens| ==> TokenAt(occ, tokens, o, jj))
             <==> TokenAt(occ, tokens, o, j) && forall jj :: j + 1 <= jj < |tokens| ==> TokenAt(occ, tokens, o, jj);
    }
  }

  /** The starts of the phrase in `list` after `i`, in list order. */
  function Starts(occ: TokenOccurrences, tokens: seq<string>, list: seq<int>, i: int): seq<int> {
    if list == [] then []
    else
      (if list[0] > i && PhraseAt(occ, tokens, list[0]) then [list[0]] else [])
      + Starts(occ, tokens, list[1..], i)
  }

  /** The starts are exactly the elements of `list` after `i` where the
      phrase follows, and an ascending list gives ascending starts. */
  lemma {:induction false} StartsMeaning(occ: TokenOccurrences, tokens: seq<string>, list: seq<int>, i: int)
    ensures forall p :: p in Starts(occ, tokens, list, i) <==> p in list && p > i && PhraseAt(occ, tokens, p)
    ensures IsAscending(list) ==> IsAscending(Starts(occ, tokens, list, i))
  {
    if list != [] {
      var rest := list[1..];
      StartsMeaning(occ, tokens, rest, i);
      assert forall p :: p in list <==> p == list[0] || p in rest;
      if IsAscending(list) {
        var s := Starts(occ, tokens, rest, i);
        assert IsAscending(rest);
        forall k | 0 <= k < |s| ensures list[0] < s[k] {
          assert s[k] in rest;
        }
      }
    }
  }

  /** The scan from position `k` finds the first start in `list[k..]`. */
  lemma {:induction false} ScanFindsFirstStart(occ: TokenOccurrences, tokens: seq<string>, list: seq<int>, i: int, k: nat)
    requires NullFree(occ, tokens) && k <= |list|
    ensures var s := Starts(occ, tokens, list[k..], i);
            ScanFrom(occ, tokens, list, i, k) == Ok(if s == [] then -1 else s[0])
    decreases |list| - k
  {
    if k < |list| {
      ScanFindsFirstStart(occ, tokens, list, i, k + 1);
      assert list[k..][1..] == list[k + 1..];
      if list[k] > i {
        MatchesMeaning(occ, tokens, list[k], 1);
      }
    }
  }

  /** `weHaveAWinner` returns the smallest occurrence of the first token
      after `i` at which the whole phrase follows, and -1 when there is none
      (for an ascending position list, `i >= -1` and no null list). */
  lemma WinnerIsSmallestStart(occ: TokenOccurrences, tokens: seq<string>, i: int)
    requires tokens != [] && NullFree(occ, tokens) && IsAscending(Firsts(occ, tokens)) && i >= -1
    ensures Winner(occ, tokens, i).Ok?
    ensures var w := Winner(occ, tokens, i).value;
            var list := Firsts(occ, tokens);
            (w == -1 <==> forall p :: p in list && p > i ==> !PhraseAt(occ, tokens, p))
            && (w != -1 ==> w in list && w > i && PhraseAt(occ, tokens, w)
                            && forall p :: p in list && p > i && PhraseAt(occ, tokens, p) ==> w <= p)
  {
    var list := Firsts(occ, tokens);
    ScanFindsFirstStart(occ, tokens, list, i, 0);
    assert list[0..] == list;
    StartsMeaning(occ, tokens, list, i);
    var s := Starts(occ, tokens, list, i);
    if s != [] {
      assert s[0] in s;
      forall p | p in list && p > i && PhraseAt(occ, tokens, p) ensures s[0] <= p {
        var k :| 0 <= k < |s| && s[k] == p;
      }
    }
  }

  /** Any winner lies after `i` in the first token's list and starts the
      phrase, whatever the lists look like. */
  lemma WinnerSound(occ: TokenOccurrences, tokens: seq<string>, i: int, w: int)
    requires Winner(occ, tokens, i) == Ok(w) && w != -1
    ensures w in Firsts(occ, tokens) && w > i && PhraseAt(occ, tokens, w)
  {
    var list := Firsts(occ, tokens);
    ScanSound(occ, tokens, list, i, 0, w);
  }

  lemma {:induction false} ScanSound(occ: TokenOccurrences, tokens: seq<string>, list: seq<int>, i: int, k: nat, w: int)
    requires ScanFrom(occ, tokens, list, i, k) == Ok(w) && w != -1
    ensures w in list && w > i && PhraseAt(occ, tokens, w)
    decreases |list| - k
  {
    if list[k] > i && Matches(occ, tokens, list[k], 1) == Ok(true) {
      MatchesMeaning(occ, tokens, list[k], 1);
    } else {
      ScanSound(occ, tokens, list, i, k + 1, w);
    }
  }

  /** The number of elements of `list` after `i`: what bounds the phrase
      loop. */
  function CountAbove(list: seq<int>, i: int): nat {
    if list == [] then 0 else (if list[0] > i then 1 else 0) + CountAbove(list[1..], i)
  }

  lemma {:induction false} CountAboveMonotone(list: seq<int>, a: int, b: int)
    requires a <= b
    ensures CountAbove(list, b) <= CountAbove(list, a)
  {
    if list != [] {
      CountAboveMonotone(list[1..], a, b);
    }
  }

  /** Moving the bound up to an element above it strictly shrinks the
      count. */
  lemma {:induction false} CountAboveDecreases(list: seq<int>, i: int, w: int)
    requires w in list && w > i
    ensures CountAbove(list, w) < CountAbove(list, i)
  {
    CountAboveMonotone(list[1..], i, w);
    if list[0] != w {
      CountAboveDecreases(list[1..], i, w);
    }
  }

  /** The loop of `getDocumentsWithPhrase` for one document: winners are
      collected, each found after the previous one, until -1. */
  function WinnersFrom(occ: TokenOccurrences, tokens: seq<string>, i: int): Result<seq<int>>
    decreases CountAbove(Firsts(occ, tokens), i)
  {
    match Winner(occ, tokens, i)
    case Err(f) => Err(f)
    case Ok(w) =>
      if w == -1 then Ok([])
      else
        WinnerSound(occ, tokens, i, w);
        CountAboveDecreases(Firsts(occ, tokens), i, w);
        match WinnersFrom(occ, tokens, w)
        case Err(f) => Err(f)
        case Ok(ws) => Ok([w] + ws)
  }

  /** The loop for one document collects exactly the starts after `i`,
      so the positions it returns ascend strictly and miss no start. */
  lemma {:induction false} WinnersAreStarts(occ: TokenOccurrences, tokens: seq<string>, i: int)
    requires tokens != [] && NullFree(occ, tokens) && IsAscending(Firsts(occ, tokens)) && i >= -1
    ensures WinnersFrom(occ, tokens, i) == Ok(Starts(occ, tokens, Firsts(occ, tokens), i))
    decreases CountAbove(Firsts(occ, tokens), i)
  {
    var list := Firsts(occ, tokens);
    ScanFindsFirstStart(occ, tokens, list, i, 0);
    assert list[0..] == list;
    assert Winner(occ, tokens, i) == ScanFrom(occ, tokens, list, i, 0);
    var s := Starts(occ, tokens, list, i);
    if s != [] {
      var w := s[0];
      assert s == [w] + s[1..];
      StartsMeaning(occ, tokens, list, i);
      assert w in s;
      CountAboveDecreases(list, i, w);
      WinnersAreStarts(occ, tokens, w);
      StartsAfterFirst(occ, tokens, list, i);
    }
  }

  /** Past the first start, the starts after it are the remaining starts. */
  lemma {:induction false} StartsAfterFirst(occ: TokenOccurrences, tokens: seq<string>, list: seq<int>, i: int)
    requires IsAscending(list) && Starts(occ, tokens, list, i) != []
    ensures var s := Starts(occ, tokens, list, i);
            Starts(occ, tokens, list, s[0]) == s[1..]
  {
    var rest := list[1..];
    assert IsAscending(rest);
    if list[0] > i && PhraseAt(occ, tokens, list[0]) {
      StartsAllAbove(occ, tokens, rest, list[0], i);
    } else {
      var s := Starts(occ, tokens, rest, i);
      StartsMeaning(occ, tokens, rest, i);
      assert s[0] in s;
      assert s[0] in rest;
      assert list[0] < s[0] by {
        var k :| 0 <= k < |rest| && rest[k] == s[0];
        assert list[k + 1] == s[0];
      }
      StartsAfterFirst(occ, tokens, rest, i);
    }
  }

  /** Bounds below every element of the list filter nothing out. */
  lemma {:induction false} StartsAllAbove(occ: TokenOccurrences, tokens: seq<string>, list: seq<int>, a: int, b: int)
    requires forall k :: 0 <= k < |list| ==> list[k] > a && list[k] > b
    ensures Starts(occ, tokens, list, a) == Starts(occ, tokens, list, b)
  {
    if list != [] {
      StartsAllAbove(occ, tokens, list[1..], a, b);
    }
  }

  /** The map `weHaveAWinner` builds for document `docid` from the loaded
      index. */
  function OccurrencesOf(index: map<string, map<int, seq<int>>>, tokens: seq<string>, docid: int): TokenOccurrences {
    map t | t in tokens && t in index :: if docid in index[t] then Some(index[t][docid]) else None
  }

  /** A document holding every token the index has gives no null list. */
  lemma InEveryListIsNullFree(index: map<string, map<int, seq<int>>>, tokens: seq<string>, docid: int)
    requires forall t :: t in tokens && t in index ==> docid in index[t]
    ensures NullFree(OccurrencesOf(index, tokens, docid), tokens)
  {
  }

  /** Re-seeding in `intersection` can hand `getDocumentsWithPhrase` a
      document that lacks a token of the phrase, and then the flag loop
      throws: the phrase "a b c" with "a" and "c" only in document 2 and "b"
      only in document 1. */
  lemma ReseededPhraseThrows()
    ensures var index := map["a" := map[2 := [0]], "b" := map[1 := [1]], "c" := map[2 := [2]]];
            var tokens := ["a", "b", "c"];
            Intersect([Some({2}), Some({1}), Some({2})]) == {2}
            && Winner(OccurrencesOf(index, tokens, 2), tokens, -1) == Err(NullReference)
  {
    var sets: seq<Option<set<int>>> := [Some({2}), Some({1}), Some({2})];
    assert sets[..1] == [Some({2})];
    assert sets[..2] == [Some({2}), Some({1})] && sets[..2][..1] == sets[..1];
    assert Intersect(sets[..1]) == {2};
    assert {2} * {1} == {};
    assert Intersect(sets[..2]) == {};
    var index := map["a" := map[2 := [0]], "b" := map[1 := [1]], "c" := map[2 := [2]]];
    var tokens := ["a", "b", "c"];
    var occ := OccurrencesOf(index, tokens, 2);
    assert "a" in tokens && "b" in tokens;
    assert occ["a"] == Some([0]) && occ["b"] == None;
    assert Matches(occ, tokens, 0, 1) == Err(NullReference);
  }
}
