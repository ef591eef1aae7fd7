/** The shard driver of `Indexer`: document ids for the corpus listing,
    the slices of the listing handed to the indexing workers, each worker's
    loop over its slice, and the totals of a loaded index. Parsing a
    document is a parameter: it yields the document's size (its number of
    body tokens) or the exception it threw. */
module Indexer {
  import opened Wrappers
  import opened JavaInt
  import opened JavaString
  import opened DocIds
  import Ordered
  import Slices
  import ShardMerge

  /** One indexing worker of `constructIndex`: its output file and its
      slice of the listing. */
  datatype SlicePlan = SlicePlan(outputFile: string, startIndex: nat, endIndex: nat)

  /** What a worker's loop has done so far: the documents indexed (id to
      size), the worker's own term total, and the exception that ended it,
      if one did. */
  datatype Progress = Progress(index: map<int, nat>, total: int, fault: Option<Fault>)

  // ---------------------------------------------------------------------------
  // Sums over a document map
  // ---------------------------------------------------------------------------

  /** The sizes of the documents `keys`, added up in no particular order. */
  ghost function SumOf(m: map<int, nat>, keys: set<int>): int
    requires keys <= m.Keys
    decreases keys
  {
    if keys == {} then 0
    else
      Ordered.HasId(keys);
      var k :| k in keys;
      m[k] + SumOf(m, keys - {k})
  }

  /** The size of every document in the map, added up. */
  ghost function Sum(m: map<int, nat>): int {
    SumOf(m, m.Keys)
  }

  /** Any document can be taken out of the sum first. */
  lemma {:induction false} SumOfRemove(m: map<int, nat>, keys: set<int>, k: int)
    requires keys <= m.Keys && k in keys
    ensures SumOf(m, keys) == m[k] + SumOf(m, keys - {k})
    decreases keys
  {
    var j :| j in keys && SumOf(m, keys) == m[j] + SumOf(m, keys - {j});
    if j != k {
      SumOfRemove(m, keys - {j}, k);
      SumOfRemove(m, keys - {k}, j);
      assert keys - {j} - {k} == keys - {k} - {j};
    }
  }

  /** The sum reads only the sizes of its documents. */
  lemma {:induction false} SumOfAgree(m1: map<int, nat>, m2: map<int, nat>, keys: set<int>)
    requires keys <= m1.Keys && keys <= m2.Keys
    requires forall k :: k in keys ==> m1[k] == m2[k]
    ensures SumOf(m1, keys) == SumOf(m2, keys)
    decreases keys
  {
    if keys != {} {
      Ordered.HasId(keys);
      var k :| k in keys;
      SumOfRemove(m1, keys, k);
      SumOfRemove(m2, keys, k);
      SumOfAgree(m1, m2, keys - {k});
    }
  }

  /** A new document adds its size to the sum. */
  lemma SumAdd(m: map<int, nat>, k: int, size: nat)
    requires k !in m
    ensures Sum(m[k := size]) == Sum(m) + size
  {
    var m' := m[k := size];
    SumOfRemove(m', m'.Keys, k);
    assert m'.Keys - {k} == m.Keys;
    SumOfAgree(m', m, m.Keys);
  }

  // ---------------------------------------------------------------------------
  // One indexing worker: `run`
  // ---------------------------------------------------------------------------

  /** One file of the loop in `run`: a directory is skipped; a file with
      no id ends the worker (unboxing the missing id throws before the
      `try`); a document whose parsing throws is skipped; any other is
      indexed under its id and its size added to the worker's total. */
  function Step(ids: map<string, int>, f: FileEntry, parse: FileEntry -> Result<nat>, p: Progress): Progress {
    if p.fault.Some? || f.isDirectory then p
    else if f.name !in ids then Progress(p.index, p.total, Some(NullReference))
    else match parse(f)
      case Err(_) => p
      case Ok(size) => Progress(p.index[ids[f.name] := size], p.total + size, None)
  }

  /** The loop of `run` over `files[lo..hi]`, from the document map
      `index`. */
  function RunFrom(ids: map<string, int>, files: seq<FileEntry>, lo: nat, hi: nat,
                   parse: FileEntry -> Result<nat>, index: map<int, nat>): Progress
    requires lo <= hi <= |files|
    decreases hi - lo
  {
    if hi == lo then Progress(index, 0, None)
    else Step(ids, files[hi - 1], parse, RunFrom(ids, files, lo, hi - 1, parse, index))
  }

  /** Every file of the slice that is not a directory has an id. */
  predicate AllNamed(ids: map<string, int>, files: seq<FileEntry>, lo: nat, hi: nat)
    requires lo <= hi <= |files|
  {
    forall i :: lo <= i < hi && !files[i].isDirectory ==> files[i].name in ids
  }

  /** No two files of the slice that are not directories share an id. */
  predicate DistinctIds(ids: map<string, int>, files: seq<FileEntry>, lo: nat, hi: nat)
    requires lo <= hi <= |files|
    requires AllNamed(ids, files, lo, hi)
  {
    forall i, j :: lo <= i < j < hi && !files[i].isDirectory && !files[j].isDirectory ==>
      ids[files[i].name] != ids[files[j].name]
  }

  /** The ids of the documents of the slice that parse. */
  function ParsedIds(ids: map<string, int>, files: seq<FileEntry>, lo: nat, hi: nat, parse: FileEntry -> Result<nat>): set<int>
    requires lo <= hi <= |files|
  {
    set i | lo <= i < hi && !files[i].isDirectory && files[i].name in ids && parse(files[i]).Ok? :: ids[files[i].name]
  }

  /** A worker ends early, with a NullPointerException, exactly when some
      file of its slice that is not a directory has no id. */
  lemma {:induction false} RunFault(ids: map<string, int>, files: seq<FileEntry>, lo: nat, hi: nat,
                                    parse: FileEntry -> Result<nat>, index: map<int, nat>)
    requires lo <= hi <= |files|
    ensures RunFrom(ids, files, lo, hi, parse, index).fault.None? <==> AllNamed(ids, files, lo, hi)
    ensures RunFrom(ids, files, lo, hi, parse, index).fault.Some? ==>
      RunFrom(ids, files, lo, hi, parse, index).fault == Some(NullReference)
    decreases hi - lo
  {
    if hi > lo {
      RunFault(ids, files, lo, hi - 1, parse, index);
    }
  }

  /** Once a worker has ended, the rest of its slice changes nothing. */
  lemma {:induction false} RunStopped(ids: map<string, int>, files: seq<FileEntry>, lo: nat, mid: nat, hi: nat,
                                      parse: FileEntry -> Result<nat>, index: map<int, nat>)
    requires lo <= mid <= hi <= |files|
    requires RunFrom(ids, files, lo, mid, parse, index).fault.Some?
    ensures RunFrom(ids, files, lo, hi, parse, index) == RunFrom(ids, files, lo, mid, parse, index)
    decreases hi - mid
  {
    if hi > mid {
      RunStopped(ids, files, lo, mid, hi - 1, parse, index);
    }
  }

  /** A worker that runs to the end has indexed exactly the documents of its
      slice that parse, each under its id with the size parsing gave, and
      added their sizes to its total: the map's sum grows by the worker's
      total when the ids are new and no two files share one. */
  lemma {:induction false} RunIndexes(ids: map<string, int>, files: seq<FileEntry>, lo: nat, hi: nat,
                                      parse: FileEntry -> Result<nat>, index: map<int, nat>)
    requires lo <= hi <= |files|
    requires AllNamed(ids, files, lo, hi)
    ensures RunFrom(ids, files, lo, hi, parse, index).index.Keys == index.Keys + ParsedIds(ids, files, lo, hi, parse)
    ensures DistinctIds(ids, files, lo, hi) ==>
      forall i :: lo <= i < hi && !files[i].isDirectory && parse(files[i]).Ok? ==>
        RunFrom(ids, files, lo, hi, parse, index).index[ids[files[i].name]] == parse(files[i]).value
    ensures DistinctIds(ids, files, lo, hi) && index.Keys !! ParsedIds(ids, files, lo, hi, parse) ==>
      Sum(RunFrom(ids, files, lo, hi, parse, index).index) == Sum(index) + RunFrom(ids, files, lo, hi, parse, index).total
    decreases hi - lo
  {
    if hi > lo {
      var n := hi - 1;
      var f := files[n];
      assert AllNamed(ids, files, lo, n);
      RunIndexes(ids, files, lo, n, parse, index);
      RunFault(ids, files, lo, n, parse, index);
      var p := RunFrom(ids, files, lo, n, parse, index);
      var q := RunFrom(ids, files, lo, hi, parse, index);
      assert ParsedIds(ids, files, lo, hi, parse) == ParsedIds(ids, files, lo, n, parse)
        + (if !f.isDirectory && parse(f).Ok? then {ids[f.name]} else {});
      if DistinctIds(ids, files, lo, hi) {
        assert DistinctIds(ids, files, lo, n);
        if !f.isDirectory && parse(f).Ok? {
          assert ids[f.name] !in ParsedIds(ids, files, lo, n, parse);
          if index.Keys !! ParsedIds(ids, files, lo, hi, parse) {
            SumAdd(p.index, ids[f.name], parse(f).value);
          }
        }
      }
    }
  }

  /** Running a slice in two parts, the second from the map the first
      left, is running it whole, and the totals add up. */
  lemma {:induction false} RunConcat(ids: map<string, int>, files: seq<FileEntry>, lo: nat, mid: nat, hi: nat,
                                     parse: FileEntry -> Result<nat>, index: map<int, nat>)
    requires lo <= mid <= hi <= |files|
    requires AllNamed(ids, files, lo, mid)
    ensures RunFrom(ids, files, lo, hi, parse, index).index
      == RunFrom(ids, files, mid, hi, parse, RunFrom(ids, files, lo, mid, parse, index).index).index
    ensures RunFrom(ids, files, lo, hi, parse, index).total
      == RunFrom(ids, files, lo, mid, parse, index).total
       + RunFrom(ids, files, mid, hi, parse, RunFrom(ids, files, lo, mid, parse, index).index).total
    ensures RunFrom(ids, files, lo, hi, parse, index).fault
      == RunFrom(ids, files, mid, hi, parse, RunFrom(ids, files, lo, mid, parse, index).index).fault
    decreases hi - mid
  {
    RunFault(ids, files, lo, mid, parse, index);
    if hi > mid {
      RunConcat(ids, files, lo, mid, hi - 1, parse, index);
    }
  }

  // ---------------------------------------------------------------------------
  // All the workers of `constructIndex`
  // ---------------------------------------------------------------------------

  /** The output file of worker `i`: `DOC_INDEX_PREFIX + i`. */
  function OutputFile(i: nat): string {
    ShardMerge.DOC_INDEX_PREFIX + Decimal(i)
  }

  /** The workers `constructIndex` starts for `n` files, `d` to a worker. */
  function Plans(n: nat, d: nat): (r: seq<SlicePlan>)
    requires d > 0
    ensures |r| == Slices.Count(n, d)
  {
    seq(Slices.Count(n, d), i requires 0 <= i => SlicePlan(OutputFile(i), Slices.Start(d, i), Slices.End(n, d, i)))
  }

  /** The document map and the term total after the first `k` workers, run
      one after the other, each from the map the previous ones left. */
  function RunSlices(ids: map<string, int>, files: seq<FileEntry>, d: nat, parse: FileEntry -> Result<nat>,
                     index: map<int, nat>, k: nat): (map<int, nat>, int)
    requires d > 0 && k <= Slices.Count(|files|, d)
  {
    if k == 0 then (index, 0)
    else
      var before := RunSlices(ids, files, d, parse, index, k - 1);
      Slices.SliceInside(|files|, d, k - 1);
      var p := RunFrom(ids, files, Slices.Start(d, k - 1), Slices.End(|files|, d, k - 1), parse, before.0);
      (p.index, before.1 + p.total)
  }

  /** When every file has an id, the workers together do what one loop over
      the whole listing does: the slices lose and repeat nothing. */
  lemma {:induction false} RunSlicesWhole(ids: map<string, int>, files: seq<FileEntry>, d: nat, parse: FileEntry -> Result<nat>,
                                          index: map<int, nat>, k: nat)
    requires d > 0 && 0 < k <= Slices.Count(|files|, d)
    requires AllNamed(ids, files, 0, |files|)
    ensures Slices.End(|files|, d, k - 1) <= |files|
    ensures RunSlices(ids, files, d, parse, index, k).0 == RunFrom(ids, files, 0, Slices.End(|files|, d, k - 1), parse, index).index
    ensures RunSlices(ids, files, d, parse, index, k).1 == RunFrom(ids, files, 0, Slices.End(|files|, d, k - 1), parse, index).total
  {
    Slices.SliceInside(|files|, d, k - 1);
    if k == 1 {
      assert Slices.Start(d, 0) == 0;
    } else {
      RunSlicesWhole(ids, files, d, parse, index, k - 1);
      Slices.SlicesContiguous(|files|, d, k - 2);
      var mid := Slices.End(|files|, d, k - 2);
      assert AllNamed(ids, files, 0, mid);
      RunConcat(ids, files, 0, mid, Slices.End(|files|, d, k - 1), parse, index);
    }
  }

  /** When every file has an id, no two share one and the map starts
      empty, the term total of `constructIndex` is the sum of the sizes it
      stored, which is what `loadIndex` recomputes from the stored map. */
  lemma ConstructMatchesLoad(ids: map<string, int>, files: seq<FileEntry>, d: nat, parse: FileEntry -> Result<nat>)
    requires d > 0
    requires AllNamed(ids, files, 0, |files|) && DistinctIds(ids, files, 0, |files|)
    ensures RunSlices(ids, files, d, parse, map[], Slices.Count(|files|, d)).1
      == Sum(RunSlices(ids, files, d, parse, map[], Slices.Count(|files|, d)).0)
  {
    RunSlicesWhole(ids, files, d, parse, map[], Slices.Count(|files|, d));
    Slices.SlicesCover(|files|, d);
    RunIndexes(ids, files, 0, |files|, parse, map[]);
    assert Sum(map[]) == 0;
  }

  /** The output file of worker `i` names a shard file whose number, as the
      organiser reads it back to order the merge, is `i`. */
  lemma OutputFileNumber(i: nat)
    requires i < TWO_31
    ensures ShardMerge.IsShard(OutputFile(i))
    ensures ShardMerge.ShardNumber(OutputFile(i)) == Some(i)
  {
    var p := ShardMerge.DOC_INDEX_PREFIX;
    var s := OutputFile(i);
    var digits := Decimal(i);
    DigitCharsAll(i);
    assert digits == DigitChars(i);
    assert OccursAt(s, p, 0);
    var u := |p| - 1;
    assert s[u] == '_';
    assert s[u + 1..] == digits;
    assert forall t :: u < t < |s| ==> s[t] == digits[t - u - 1];
    LastAt(s, '_', u);
    DecimalRoundTrip(i);
  }

  /** The last occurrence of `c` is at `u` when `s[u]` is `c` and no later
      character is. */
  lemma {:induction false} LastAt(s: string, c: char, u: nat)
    requires u < |s| && s[u] == c
    requires forall t :: u < t < |s| ==> s[t] != c
    ensures LastIndexOf(s, c) == Some(u)
    decreases |s|
  {
    if u < |s| - 1 {
      LastAt(s[..|s| - 1], c, u);
    }
  }

  // ---------------------------------------------------------------------------
  // The indexer
  // ---------------------------------------------------------------------------

  /** The state of `Indexer` the driver touches: the file-name-to-id map,
      the document map (id to size), and the two corpus totals. */
  class Indexer {
    var filenameToDocID: map<string, int>
    var indexFromDocId: map<int, nat>
    var numDocs: int
    var totalTermFrequency: int

    constructor ()
      ensures filenameToDocID == map[] && indexFromDocId == map[]
      ensures numDocs == 0 && totalTermFrequency == 0
    {
      filenameToDocID := map[];
      indexFromDocId := map[];
      numDocs := 0;
      totalTermFrequency := 0;
    }

    /** `generateDocIDs`: each name not yet in the map gets the next id,
        counting from 1, in listing order. */
    method GenerateDocIDs(filelist: seq<FileEntry>) returns (r: map<string, int>)
      modifies this
      ensures r == filenameToDocID == Assign(old(filenameToDocID), filelist, 1, AnyFile).ids
      ensures indexFromDocId == old(indexFromDocId)
      ensures numDocs == old(numDocs) && totalTermFrequency == old(totalTermFrequency)
    {
      var docId := 1;
      for count := 0 to |filelist|
        invariant Assigned(filenameToDocID, docId) == Assign(old(filenameToDocID), filelist[..count], 1, AnyFile)
        invariant indexFromDocId == old(indexFromDocId)
        invariant numDocs == old(numDocs) && totalTermFrequency == old(totalTermFrequency)
      {
        var f := filelist[count];
        AssignSnoc(old(filenameToDocID), filelist[..count], f, 1, AnyFile);
        assert filelist[..count + 1] == filelist[..count] + [f];
        if f.name !in filenameToDocID {
          filenameToDocID := filenameToDocID[f.name := docId];
          docId := docId + 1;
        }
      }
      assert filelist[..|filelist|] == filelist;
      return filenameToDocID;
    }

    /** `run` of one worker over `files[startIndex..endIndex]`: the worker's
        own term total, and the exception that ended it, if any; the
        documents it indexed are added to the shared document map. */
    method Run(files: seq<FileEntry>, startIndex: nat, endIndex: nat, parse: FileEntry -> Result<nat>)
      returns (total: int, fault: Option<Fault>)
      requires startIndex <= endIndex <= |files|
      modifies this
      ensures Progress(indexFromDocId, total, fault)
        == RunFrom(filenameToDocID, files, startIndex, endIndex, parse, old(indexFromDocId))
      ensures filenameToDocID == old(filenameToDocID)
      ensures numDocs == old(numDocs) && totalTermFrequency == old(totalTermFrequency)
    {
      total := 0;
      fault := None;
      var i := startIndex;
      while i < endIndex
        invariant startIndex <= i <= endIndex
        invariant Progress(indexFromDocId, total, None) == RunFrom(filenameToDocID, files, startIndex, i, parse, old(indexFromDocId))
        invariant filenameToDocID == old(filenameToDocID)
        invariant numDocs == old(numDocs) && totalTermFrequency == old(totalTermFrequency)
      {
        var f := files[i];
        if !f.isDirectory {
          if f.name !in filenameToDocID {
            fault := Some(NullReference);
            RunStopped(filenameToDocID, files, startIndex, i + 1, endIndex, parse, old(indexFromDocId));
            return;
          }
          var docId := filenameToDocID[f.name];
          var parsed := parse(f);
          if parsed.Ok? {
            indexFromDocId := indexFromDocId[docId := parsed.value];
            total := total + parsed.value;
          }
        }
        i := i + 1;
      }
    }

    /** The slice loop of `constructIndex`, with the workers run one after
        the other: one worker per slice of `docsPerThread` files, each
        writing its own shard file; the corpus term total is the sum of
        the workers' totals. */
    method ConstructIndex(files: seq<FileEntry>, docsPerThread: nat, parse: FileEntry -> Result<nat>)
      returns (plans: seq<SlicePlan>)
      requires docsPerThread > 0
      modifies this
      ensures plans == Plans(|files|, docsPerThread)
      ensures numDocs == |files|
      ensures (indexFromDocId, totalTermFrequency)
        == RunSlices(filenameToDocID, files, docsPerThread, parse, old(indexFromDocId), Slices.Count(|files|, docsPerThread))
      ensures filenameToDocID == old(filenameToDocID)
    {
      var n := |files|;
      numDocs := n;
      totalTermFrequency := 0;
      plans := [];
      ghost var index0 := indexFromDocId;
      for i := 0 to n / docsPerThread + 1
        invariant plans == Plans(n, docsPerThread)[..i]
        invariant (indexFromDocId, totalTermFrequency) == RunSlices(filenameToDocID, files, docsPerThread, parse, index0, i)
        invariant numDocs == n && filenameToDocID == old(filenameToDocID)
      {
        Slices.SliceInside(n, docsPerThread, i);
        var startIndex := i * docsPerThread;
        var endIndex := Slices.Min((i + 1) * docsPerThread, n);
        plans := plans + [SlicePlan(OutputFile(i), startIndex, endIndex)];
        var t, _ := Run(files, startIndex, endIndex, parse);
        totalTermFrequency := totalTermFrequency + t;
      }
    }

    /** The totals of `loadIndex`: the number of documents in the stored
        map and the sum of their sizes, in whatever order the map yields
        them. */
    method LoadIndex(stored: map<int, nat>)
      modifies this
      ensures indexFromDocId == stored
      ensures numDocs == |stored|
      ensures totalTermFrequency == Sum(stored)
      ensures filenameToDocID == old(filenameToDocID)
    {
      indexFromDocId := stored;
      numDocs := |stored|;
      totalTermFrequency := 0;
      var rest := stored.Keys;
      while rest != {}
        invariant rest <= stored.Keys && indexFromDocId == stored && numDocs == |stored|
        invariant totalTermFrequency + SumOf(stored, rest) == Sum(stored)
        invariant filenameToDocID == old(filenameToDocID)
        decreases |rest|
      {
        var k :| k in rest;
        SumOfRemove(stored, rest, k);
        totalTermFrequency := totalTermFrequency + stored[k];
        rest := rest - {k};
      }
    }
  }
}
