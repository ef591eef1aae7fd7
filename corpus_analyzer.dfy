/** The id-generation half of `CorpusAnalyzerPagerank.prepare`: the
    listing cut into parts of `docs_per_thread` files, and one id
    generator per part, each starting from its own base id, all writing
    into one shared name-to-id table. The generators run one after the
    other here. */
module CorpusAnalyzerPagerank {
  import opened Wrappers
  import opened DocIds
  import Slices
  import IG = IdGenerator

  /** The number of files in all the parts. */
  function TotalSize(filelists: seq<seq<FileEntry>>): nat {
    if filelists == [] then 0 else TotalSize(filelists[..|filelists| - 1]) + |filelists[|filelists| - 1]|
  }

  /** The starting id of each generator: `base`, then each part's size
      added on. */
  function Bases(base: int, filelists: seq<seq<FileEntry>>): (r: seq<int>)
    ensures |r| == |filelists|
  {
    seq(|filelists|, k requires 0 <= k < |filelists| => base + TotalSize(filelists[..k]))
  }

  /** The table after the generators of the parts have run, one after the
      other, each from its own base. */
  function AssignAll(m: map<string, int>, filelists: seq<seq<FileEntry>>, base: int,
                     valid: FileEntry -> Result<bool>): map<string, int>
  {
    if filelists == [] then m
    else
      var k := |filelists| - 1;
      Assign(AssignAll(m, filelists[..k], base, valid), filelists[k], base + TotalSize(filelists[..k]), IG.Admitted(valid)).ids
  }

  /** The thread-pool size of `generateId`: one thread per part, at most
      the number of mining threads. */
  function PoolSize(parts: nat, miningThreads: int): int {
    Slices.Min(parts, miningThreads)
  }

  lemma TotalSizeMono(filelists: seq<seq<FileEntry>>, k: nat, l: nat)
    requires k <= l <= |filelists|
    ensures TotalSize(filelists[..k]) + (if k < l then |filelists[k]| else 0) <= TotalSize(filelists[..l])
    decreases l - k
  {
    if k < l {
      if k + 1 < l {
        TotalSizeMono(filelists, k + 1, l);
      }
      assert filelists[..k + 1][..k] == filelists[..k];
    }
  }

  /** The id ranges of the generators, `[base_k, base_k + |part_k|)`, do not
      overlap and lie within `[base, base + TotalSize)`. */
  lemma BasesDisjoint(base: int, filelists: seq<seq<FileEntry>>, k: nat, l: nat)
    requires k < l < |filelists|
    ensures base <= Bases(base, filelists)[k]
    ensures Bases(base, filelists)[k] + |filelists[k]| <= Bases(base, filelists)[l]
    ensures Bases(base, filelists)[l] + |filelists[l]| <= base + TotalSize(filelists)
  {
    TotalSizeMono(filelists, k, l);
    TotalSizeMono(filelists, l, |filelists|);
    assert filelists[..|filelists|] == filelists;
  }

  /** The sizes of the parts of a listing add up to the listing's. */
  lemma {:induction false} FlattenSize(filelists: seq<seq<FileEntry>>)
    ensures |Slices.Flatten(filelists)| == TotalSize(filelists)
  {
    if filelists != [] {
      FlattenSize(filelists[..|filelists| - 1]);
    }
  }

  /** From a table whose ids are all below `base` and distinct, the
      generators keep every entry, and the names they add get distinct ids
      from `base` up to, not including, `base + TotalSize`. */
  lemma {:induction false} AssignAllFresh(m: map<string, int>, filelists: seq<seq<FileEntry>>, base: int,
                                          valid: FileEntry -> Result<bool>)
    requires Injective(m) && forall n :: n in m ==> m[n] < base
    ensures Injective(AssignAll(m, filelists, base, valid))
    ensures forall n :: n in m ==> (n in AssignAll(m, filelists, base, valid) && AssignAll(m, filelists, base, valid)[n] == m[n])
    ensures forall n :: n in AssignAll(m, filelists, base, valid) && n !in m ==>
      base <= AssignAll(m, filelists, base, valid)[n] < base + TotalSize(filelists)
  {
    if filelists != [] {
      var k := |filelists| - 1;
      var before := AssignAll(m, filelists[..k], base, valid);
      var b := base + TotalSize(filelists[..k]);
      AssignAllFresh(m, filelists[..k], base, valid);
      IG.Generated(before, filelists[k], b, valid);
      var after := AssignAll(m, filelists, base, valid);
      assert after == Assign(before, filelists[k], b, IG.Admitted(valid)).ids;
      forall x, y | x in after && y in after && x != y ensures after[x] != after[y] {
        if x in before && y !in before {
          assert before[x] < b <= after[y];
        } else if x !in before && y in before {
          assert before[y] < b <= after[x];
        }
      }
    }
  }

  /** Starting from the empty table and id 1, the ids `prepare` hands out
      are distinct and lie within `[1, 1 + |filelist|)`. */
  lemma PreparedIds(filelist: seq<FileEntry>, d: nat, valid: FileEntry -> Result<bool>)
    requires d > 0
    ensures Injective(AssignAll(map[], Slices.Partition(filelist, d), 1, valid))
    ensures forall n :: n in AssignAll(map[], Slices.Partition(filelist, d), 1, valid) ==>
      1 <= AssignAll(map[], Slices.Partition(filelist, d), 1, valid)[n] < 1 + |filelist|
  {
    AssignAllFresh(map[], Slices.Partition(filelist, d), 1, valid);
    Slices.PartitionFlatten(filelist, d);
    FlattenSize(Slices.Partition(filelist, d));
  }

  class CorpusAnalyzerPagerank {
    var docid: int
    const docidByFilename: DocIdTable
    const docsPerThread: int
    const miningThreads: int

    constructor (docsPerThread: int, miningThreads: int)
      ensures this.docsPerThread == docsPerThread && this.miningThreads == miningThreads
      ensures docid == 1 && fresh(docidByFilename) && docidByFilename.entries == map[]
    {
      this.docsPerThread := docsPerThread;
      this.miningThreads := miningThreads;
      docid := 1;
      docidByFilename := new DocIdTable();
    }

    /** The split loop of `prepare`: part `i` is the listing from `i * d`
        up to `min((i + 1) * d, |filelist|)`, for `i` from 0 to
        `|filelist| / d`. */
    method SplitFileList(filelist: seq<FileEntry>) returns (filelists: seq<seq<FileEntry>>)
      requires docsPerThread > 0
      ensures filelists == Slices.Partition(filelist, docsPerThread)
    {
      var d := docsPerThread;
      filelists := [];
      var startFile := 0;
      for i := 0 to |filelist| / d + 1
        invariant startFile == i * d
        invariant filelists == Slices.Partition(filelist, d)[..i]
      {
        Slices.SliceInside(|filelist|, d, i);
        var endFile := Slices.Min((i + 1) * d, |filelist|);
        filelists := filelists + [filelist[startFile..endFile]];
        startFile := startFile + d;
      }
    }

    /** `generateId`: one generator per part, each given the current
        `docid`, which then moves on by the part's size; a pool of no
        threads is refused before any generator starts. */
    method GenerateId(filelists: seq<seq<FileEntry>>, numFilesTotal: int, valid: FileEntry -> Result<bool>)
      returns (r: Result<seq<int>>)
      modifies this, docidByFilename
      ensures PoolSize(|filelists|, miningThreads) <= 0 ==>
        r == Err(IllegalArgument) && docid == old(docid) && docidByFilename.entries == old(docidByFilename.entries)
      ensures PoolSize(|filelists|, miningThreads) > 0 ==>
        && r == Ok(Bases(old(docid), filelists))
        && docid == old(docid) + TotalSize(filelists)
        && docidByFilename.entries == AssignAll(old(docidByFilename.entries), filelists, old(docid), valid)
    {
      var numIdThreads := PoolSize(|filelists|, miningThreads);
      if numIdThreads <= 0 {
        return Err(IllegalArgument);
      }
      var threadId := 1;
      var bases := [];
      for k := 0 to |filelists|
        invariant docid == old(docid) + TotalSize(filelists[..k])
        invariant bases == Bases(old(docid), filelists)[..k]
        invariant docidByFilename.entries == AssignAll(old(docidByFilename.entries), filelists[..k], old(docid), valid)
      {
        var lf := filelists[k];
        assert filelists[..k + 1][..k] == filelists[..k];
        var idGenerator := new IG.IdGenerator(lf, docidByFilename, docid, threadId, numFilesTotal);
        threadId := threadId + 1;
        bases := bases + [docid];
        docid := docid + |lf|;
        idGenerator.GenerateDocid(valid);
      }
      assert filelists[..|filelists|] == filelists;
      assert bases == Bases(old(docid), filelists);
      return Ok(bases);
    }

    /** The id-generation part of `prepare`: the listing is split and
        numbered part by part. */
    method Prepare(filelist: seq<FileEntry>, valid: FileEntry -> Result<bool>) returns (r: Result<seq<seq<FileEntry>>>)
      requires docsPerThread > 0
      modifies this, docidByFilename
      ensures PoolSize(Slices.Count(|filelist|, docsPerThread), miningThreads) <= 0 ==>
        r == Err(IllegalArgument) && docidByFilename.entries == old(docidByFilename.entries)
      ensures PoolSize(Slices.Count(|filelist|, docsPerThread), miningThreads) > 0 ==>
        && r == Ok(Slices.Partition(filelist, docsPerThread))
        && docidByFilename.entries
          == AssignAll(old(docidByFilename.entries), Slices.Partition(filelist, docsPerThread), old(docid), valid)
    {
      var filelists := SplitFileList(filelist);
      var ids := GenerateId(filelists, |filelist|, valid);
      if ids.Err? {
        return Err(ids.fault);
      }
      return Ok(filelists);
    }
  }
}
