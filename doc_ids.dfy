/** Document ids handed out to the files of the corpus directory, in
    listing order, as `Indexer.generateDocIDs` and
    `IdGenerator.generateDocid` do. */
module DocIds {

  /** A directory entry of the corpus. */
  datatype FileEntry = FileEntry(name: string, isDirectory: bool)

  /** The name-to-id map and the next id to hand out. */
  datatype Assigned = Assigned(ids: map<string, int>, next: int)

  /** The name-to-id map shared by the id generators of the corpus
      analyser (a `ConcurrentHashMap` in the source). */
  class DocIdTable {
    var entries: map<string, int>

    constructor ()
      ensures entries == map[]
    {
      entries := map[];
    }
  }

  /** The files in turn, from `next` on: a file that `eligible` admits and
      whose name is not in the map yet gets the next id, and the counter
      moves on; any other file changes nothing. */
  function Assign(ids: map<string, int>, files: seq<FileEntry>, next: int, eligible: FileEntry -> bool): Assigned
  {
    if files == [] then Assigned(ids, next)
    else
      var a := Assign(ids, files[..|files| - 1], next, eligible);
      var f := files[|files| - 1];
      if eligible(f) && f.name !in a.ids then Assigned(a.ids[f.name := a.next], a.next + 1) else a
  }

  /** Every file is eligible (`generateDocIDs` gives ids to directories
      too). */
  predicate AnyFile(f: FileEntry) {
    true
  }

  /** The names of the files `eligible` admits. */
  function EligibleNames(files: seq<FileEntry>, eligible: FileEntry -> bool): set<string> {
    set i | 0 <= i < |files| && eligible(files[i]) :: files[i].name
  }

  /** The ids of the names added to `ids`. */
  function NewIds(ids: map<string, int>, r: map<string, int>): set<int> {
    set n | n in r && n !in ids :: r[n]
  }

  /** The ids from `lo` up to, not including, `hi`. */
  function Range(lo: int, hi: int): (r: set<int>)
    ensures forall x :: x in r <==> lo <= x < hi
    decreases hi - lo
  {
    if hi <= lo then {} else Range(lo, hi - 1) + {hi - 1}
  }

  /** No two names share an id. */
  predicate Injective(m: map<string, int>) {
    forall a, b :: a in m && b in m && a != b ==> m[a] != m[b]
  }

  lemma AssignSnoc(ids: map<string, int>, files: seq<FileEntry>, f: FileEntry, next: int, eligible: FileEntry -> bool)
    ensures Assign(ids, files + [f], next, eligible)
      == (var a := Assign(ids, files, next, eligible);
          if eligible(f) && f.name !in a.ids then Assigned(a.ids[f.name := a.next], a.next + 1) else a)
  {
    assert (files + [f])[..|files|] == files;
  }

  /** Entries already in the map keep their ids, and the names added are
      exactly the eligible names not there before. */
  lemma {:induction false} AssignKeeps(ids: map<string, int>, files: seq<FileEntry>, next: int, eligible: FileEntry -> bool)
    ensures forall n :: n in ids ==>
      (n in Assign(ids, files, next, eligible).ids && Assign(ids, files, next, eligible).ids[n] == ids[n])
    ensures Assign(ids, files, next, eligible).ids.Keys == ids.Keys + EligibleNames(files, eligible)
    decreases |files|
  {
    if files != [] {
      var k := |files| - 1;
      AssignKeeps(ids, files[..k], next, eligible);
      assert files == files[..k] + [files[k]];
      AssignSnoc(ids, files[..k], files[k], next, eligible);
      assert EligibleNames(files, eligible) == EligibleNames(files[..k], eligible)
        + (if eligible(files[k]) then {files[k].name} else {}) by {
        forall x | x in EligibleNames(files, eligible)
          ensures x in EligibleNames(files[..k], eligible) || (eligible(files[k]) && x == files[k].name)
        {
          var i :| 0 <= i < |files| && eligible(files[i]) && files[i].name == x;
          if i < k {
            assert files[..k][i] == files[i];
          }
        }
        forall x | x in EligibleNames(files[..k], eligible) ensures x in EligibleNames(files, eligible) {
          var i :| 0 <= i < k && eligible(files[..k][i]) && files[..k][i].name == x;
          assert files[i] == files[..k][i];
        }
      }
    }
  }

  /** The ids handed out are exactly `next` up to the new counter, one per
      name added, no two names sharing one. */
  lemma {:induction false} AssignFresh(ids: map<string, int>, files: seq<FileEntry>, next: int, eligible: FileEntry -> bool)
    ensures next <= Assign(ids, files, next, eligible).next <= next + |files|
    ensures NewIds(ids, Assign(ids, files, next, eligible).ids) == Range(next, Assign(ids, files, next, eligible).next)
    ensures forall a, b ::
      (a in Assign(ids, files, next, eligible).ids && a !in ids
       && b in Assign(ids, files, next, eligible).ids && b !in ids && a != b)
      ==> Assign(ids, files, next, eligible).ids[a] != Assign(ids, files, next, eligible).ids[b]
    decreases |files|
  {
    if files != [] {
      var k := |files| - 1;
      var f := files[k];
      AssignFresh(ids, files[..k], next, eligible);
      AssignKeeps(ids, files[..k], next, eligible);
      assert files == files[..k] + [f];
      AssignSnoc(ids, files[..k], f, next, eligible);
      var a := Assign(ids, files[..k], next, eligible);
      if eligible(f) && f.name !in a.ids {
        var r := a.ids[f.name := a.next];
        assert NewIds(ids, r) == NewIds(ids, a.ids) + {a.next} by {
          forall x | x in NewIds(ids, r) ensures x in NewIds(ids, a.ids) + {a.next} {
            var n :| n in r && n !in ids && r[n] == x;
            if n != f.name {
              assert n in a.ids && a.ids[n] == x;
            }
          }
          assert f.name in r && f.name !in ids && r[f.name] == a.next;
          forall x | x in NewIds(ids, a.ids) ensures x in NewIds(ids, r) {
            var n :| n in a.ids && n !in ids && a.ids[n] == x;
            assert n in r && r[n] == x;
          }
        }
        assert Range(next, a.next + 1) == Range(next, a.next) + {a.next};
        forall n | n in a.ids && n !in ids ensures a.ids[n] < a.next {
          assert a.ids[n] in NewIds(ids, a.ids);
        }
      }
    }
  }

  /** A name given an id at position `i` keeps that id for the rest of the
      listing. */
  lemma {:induction false} AssignPrefixKeeps(ids: map<string, int>, files: seq<FileEntry>, p: nat, next: int, eligible: FileEntry -> bool)
    requires p <= |files|
    ensures forall n :: n in Assign(ids, files[..p], next, eligible).ids ==>
      (n in Assign(ids, files, next, eligible).ids
       && Assign(ids, files, next, eligible).ids[n] == Assign(ids, files[..p], next, eligible).ids[n])
    decreases |files| - p
  {
    if p < |files| {
      AssignPrefixKeeps(ids, files, p + 1, next, eligible);
      assert files[..p + 1] == files[..p] + [files[p]];
      AssignSnoc(ids, files[..p], files[p], next, eligible);
    } else {
      assert files[..p] == files;
    }
  }

  /** Ids follow the listing: a name first listed earlier than another,
      both new and eligible, gets the smaller id. */
  lemma ListingOrder(ids: map<string, int>, files: seq<FileEntry>, next: int, eligible: FileEntry -> bool, i: nat, j: nat)
    requires i < j < |files|
    requires eligible(files[i]) && eligible(files[j])
    requires files[i].name !in ids && files[j].name !in ids
    requires forall k :: 0 <= k < j ==> files[k].name != files[j].name
    ensures files[i].name in Assign(ids, files, next, eligible).ids && files[j].name in Assign(ids, files, next, eligible).ids
    ensures Assign(ids, files, next, eligible).ids[files[i].name] < Assign(ids, files, next, eligible).ids[files[j].name]
  {
    var a := Assign(ids, files[..j], next, eligible);
    AssignKeeps(ids, files[..j], next, eligible);
    AssignFresh(ids, files[..j], next, eligible);
    assert files[..j][i] == files[i];
    assert files[i].name in a.ids;
    assert a.ids[files[i].name] in NewIds(ids, a.ids);
    assert files[j].name !in EligibleNames(files[..j], eligible);
    assert files[..j + 1] == files[..j] + [files[j]];
    AssignSnoc(ids, files[..j], files[j], next, eligible);
    AssignPrefixKeeps(ids, files, j + 1, next, eligible);
  }

  /** From an empty map, the `k` distinct eligible names get exactly the
      ids `next` .. `next + k - 1`, one each. */
  lemma FromEmpty(files: seq<FileEntry>, next: int, eligible: FileEntry -> bool)
    ensures Assign(map[], files, next, eligible).ids.Keys == EligibleNames(files, eligible)
    ensures Assign(map[], files, next, eligible).ids.Values == Range(next, next + |EligibleNames(files, eligible)|)
    ensures Assign(map[], files, next, eligible).next == next + |EligibleNames(files, eligible)|
  {
    var r := Assign(map[], files, next, eligible);
    AssignKeeps(map[], files, next, eligible);
    AssignFresh(map[], files, next, eligible);
    assert r.ids.Values == NewIds(map[], r.ids);
    InjectiveCount(r.ids, next, r.next);
  }

  /** A map whose values are a range, no two keys sharing one, has as many
      keys as the range has ids. */
  lemma {:induction false} InjectiveCount(m: map<string, int>, lo: int, hi: int)
    requires lo <= hi
    requires m.Values == Range(lo, hi)
    requires forall a, b :: a in m && b in m && a != b ==> m[a] != m[b]
    ensures |m.Keys| == hi - lo
    decreases hi - lo
  {
    if hi > lo {
      assert hi - 1 in m.Values;
      var n :| n in m && m[n] == hi - 1;
      DropTop(m, n, lo, hi);
      InjectiveCount(m - {n}, lo, hi - 1);
      assert m.Keys == (m - {n}).Keys + {n};
    } else {
      assert m.Keys == {};
    }
  }

  /** Dropping the key of the top id leaves the range below it. */
  lemma DropTop(m: map<string, int>, n: string, lo: int, hi: int)
    requires lo < hi && n in m && m[n] == hi - 1
    requires m.Values == Range(lo, hi)
    requires forall a, b :: a in m && b in m && a != b ==> m[a] != m[b]
    ensures (m - {n}).Values == Range(lo, hi - 1)
    ensures forall a, b :: a in m - {n} && b in m - {n} && a != b ==> (m - {n})[a] != (m - {n})[b]
  {
    var m' := m - {n};
    forall v | v in Range(lo, hi - 1) ensures v in m'.Values {
      assert v in m.Values;
      var x :| x in m && m[x] == v;
      assert x in m' && m'[x] == v;
    }
    forall v | v in m'.Values ensures v in Range(lo, hi - 1) {
      var x :| x in m' && m'[x] == v;
      assert m[x] in m.Values;
    }
  }
}
