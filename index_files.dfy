/** The final index files that `splitIndex` writes and `loadIndexFor` reads:
    each file is a sequence of records, and the index directory maps file
    names to their records. A lookup routes the token to one file by name,
    then scans that file. */
module IndexFiles {
  import opened Wrappers
  import opened JavaString
  import opened Ordered
  import opened Compressor

  /** One record of a final index file: `writeUTF(token)`, `writeInt(n)`,
      then the `n` compressed bytes of the token's posting list. */
  datatype IndexRecord = IndexRecord(token: string, bytes: seq<Byte>)

  /** The index directory: file name to the records of that file. Files that
      are not index files are listed too; their contents are never read. */
  type Directory = map<string, seq<IndexRecord>>

  /** The names `loadIndexFor` considers: those ending in ".idx". */
  predicate IsIndexName(name: string) {
    EndsWith(name, ".idx")
  }

  /** `name.substring(0, name.indexOf(".idx"))`: the name up to the first
      ".idx", which for a block is the token it was named after. */
  function Stem(name: string): (r: string)
    requires IsIndexName(name)
    ensures |r| <= |name| - 4 && r == name[..|r|]
  {
    assert OccursAt(name, ".idx", |name| - 4);
    var i := IndexOfString(name, ".idx");
    name[..i.value]
  }

  /** An index file whose stem does not sort after `token`. */
  predicate Below(name: string, token: string) {
    IsIndexName(name) && !Less(token, Stem(name))
  }

  /** The stems of the index names ascend along `names`. */
  predicate StemsAscend(names: seq<string>) {
    forall i, j :: 0 <= i < j < |names| && IsIndexName(names[i]) && IsIndexName(names[j])
                   ==> Less(Stem(names[i]), Stem(names[j]))
  }

  /** The loop of `loadIndexFor` over the sorted names: other files are
      skipped, the first index file whose stem sorts after `token` ends the
      loop, and the last index file seen before that is the one chosen. */
  function RouteIn(names: seq<string>, token: string, chosen: Option<string>): Option<string> {
    if names == [] then chosen
    else if !IsIndexName(names[0]) then RouteIn(names[1..], token, chosen)
    else if Less(token, Stem(names[0])) then chosen
    else RouteIn(names[1..], token, Some(names[0]))
  }

  /** The file a lookup of `token` reads: the routing loop over the
      directory's names in `compareTo` order of the whole name. */
  ghost function Route(dir: Directory, token: string): Option<string> {
    RouteIn(AscendingNames(dir.Keys), token, None)
  }

  /** The last index file of `names` whose stem does not sort after
      `token`: the file that should hold `token` when the files were cut
      from one sorted run. */
  function LastBelow(names: seq<string>, token: string): (r: Option<string>)
    ensures r.None? <==> forall k :: 0 <= k < |names| ==> !Below(names[k], token)
    ensures r.Some? ==> exists k :: 0 <= k < |names| && names[k] == r.value && Below(names[k], token)
                                    && forall k2 :: k < k2 < |names| ==> !Below(names[k2], token)
  {
    if names == [] then None
    else
      var rest := LastBelow(names[1..], token);
      assert forall k :: 0 < k < |names| ==> names[k] == names[1..][k - 1];
      match rest
      case Some(n) =>
        assert exists k :: 0 < k < |names| && names[k] == n && Below(names[k], token)
                           && forall k2 :: k < k2 < |names| ==> !Below(names[k2], token) by {
          var k :| 0 <= k < |names| - 1 && names[1..][k] == n && Below(names[1..][k], token)
                   && forall k2 :: k < k2 < |names| - 1 ==> !Below(names[1..][k2], token);
          assert names[k + 1] == n;
          forall k2 | k + 1 < k2 < |names| ensures !Below(names[k2], token) {
            assert names[k2] == names[1..][k2 - 1];
          }
        }
        rest
      case None =>
        if Below(names[0], token) then Some(names[0]) else None
  }

  /** The last index file below the token is the one after which no file
      is below it. */
  lemma {:induction false} LastBelowIs(names: seq<string>, token: string, b: nat)
    requires b < |names| && Below(names[b], token)
    requires forall j :: b < j < |names| ==> !Below(names[j], token)
    ensures LastBelow(names, token) == Some(names[b])
  {
    var rest := names[1..];
    if b == 0 {
      forall k | 0 <= k < |rest| ensures !Below(rest[k], token) {
        assert rest[k] == names[k + 1];
      }
    } else {
      forall j | b - 1 < j < |rest| ensures !Below(rest[j], token) {
        assert rest[j] == names[j + 1];
      }
      LastBelowIs(rest, token, b - 1);
    }
  }

  /** When the stems ascend along the sorted names, the early exit of the
      routing loop loses nothing: it picks the last index file whose stem
      does not sort after the token. */
  lemma {:induction false} RouteIsLastBelow(names: seq<string>, token: string, chosen: Option<string>)
    requires StemsAscend(names)
    ensures RouteIn(names, token, chosen) == (if LastBelow(names, token).Some? then LastBelow(names, token) else chosen)
  {
    if names != [] {
      var rest := names[1..];
      assert StemsAscend(rest) by {
        forall i, j | 0 <= i < j < |rest| && IsIndexName(rest[i]) && IsIndexName(rest[j])
          ensures Less(Stem(rest[i]), Stem(rest[j])) {
          assert rest[i] == names[i + 1] && rest[j] == names[j + 1];
        }
      }
      if !IsIndexName(names[0]) {
        RouteIsLastBelow(rest, token, chosen);
      } else if Less(token, Stem(names[0])) {
        forall k | 0 <= k < |rest| ensures !Below(rest[k], token) {
          assert rest[k] == names[k + 1];
          if IsIndexName(rest[k]) {
            LessTransitive(token, Stem(names[0]), Stem(rest[k]));
            LessTotal(token, Stem(rest[k]));
          }
        }
      } else {
        RouteIsLastBelow(rest, token, Some(names[0]));
      }
    }
  }

  /** An index name sorts before another whose stem starts with a
      punctuation character below '.', though its stem sorts after: then the
      loop stops at the first name and finds no file, while a file whose
      stem is the token exists. */
  lemma RouteStopsEarly()
    ensures IsAscendingNames(["a-b.idx", "a.idx"])
    ensures RouteIn(["a-b.idx", "a.idx"], "a", None) == None
    ensures LastBelow(["a-b.idx", "a.idx"], "a") == Some("a.idx")
  {
    var names := ["a-b.idx", "a.idx"];
    assert IsAscendingNames(names) by {
      assert "a-b.idx"[1..] == "-b.idx" && "a.idx"[1..] == ".idx";
      assert Less("-b.idx", ".idx");
      assert Less(names[0], names[1]);
    }
    assert RouteIn(names, "a", None) == None by {
      ExampleNames();
      StemOfPlain("a-b");
      assert "a"[1..] == [] && "a-b"[1..] == "-b";
      assert Less([], "-b");
      assert IsIndexName(names[0]) && Less("a", Stem(names[0]));
    }
    assert LastBelow(names, "a") == Some("a.idx") by {
      ExampleNames();
      StemOfPlain("a");
      LessIrreflexive("a");
      assert Below(names[1], "a");
      LastBelowIs(names, "a", 1);
    }
  }

  lemma ExampleNames()
    ensures "a-b" + ".idx" == "a-b.idx" && "a" + ".idx" == "a.idx"
  {
  }

  /** A name without a dot, followed by ".idx", has that name as its stem. */
  lemma StemOfPlain(s: string)
    requires '.' !in s
    ensures IsIndexName(s + ".idx") && Stem(s + ".idx") == s
  {
    var name := s + ".idx";
    assert name[|s|..] == ".idx";
    assert OccursAt(name, ".idx", |s|);
    forall j | 0 <= j < |s| ensures !OccursAt(name, ".idx", j) {
      assert s[j] in s && name[j] == s[j];
      assert ".idx"[0] == '.';
    }
    assert name[..|s|] == s;
  }

  /** `buildIndexFor(File, token)`: the records are read in order, and the
      bytes of the first one whose token equals `token` are returned; the
      end of the file gives null (None). */
  function Scan(records: seq<IndexRecord>, token: string): (r: Option<seq<Byte>>)
    ensures r.None? <==> forall k :: 0 <= k < |records| ==> records[k].token != token
    ensures r.Some? ==> exists k :: 0 <= k < |records| && records[k].token == token && records[k].bytes == r.value
                                    && forall k2 :: 0 <= k2 < k ==> records[k2].token != token
  {
    if records == [] then None
    else if records[0].token == token then Some(records[0].bytes)
    else
      var r := Scan(records[1..], token);
      assert forall k :: 0 < k < |records| ==> records[k] == records[1..][k - 1];
      assert r.Some? ==> exists k :: 0 < k < |records| && records[k].token == token && records[k].bytes == r.value
                                      && forall k2 :: 0 <= k2 < k ==> records[k2].token != token by {
        if r.Some? {
          var k :| 0 <= k < |records| - 1 && records[1..][k].token == token && records[1..][k].bytes == r.value
                   && forall k2 :: 0 <= k2 < k ==> records[1..][k2].token != token;
          assert records[k + 1] == records[1..][k];
          forall k2 | 0 <= k2 < k + 1 ensures records[k2].token != token {
            if k2 > 0 {
              assert records[k2] == records[1..][k2 - 1];
            }
          }
        }
      }
      r
  }

  /** A lookup on a cache miss: route, then scan the chosen file. With no
      file chosen, `new RandomAccessFile(null, "r")` throws. */
  ghost function Lookup(dir: Directory, token: string): Result<Option<seq<Byte>>> {
    match Route(dir, token)
    case None => Err(NullReference)
    case Some(name) =>
      RouteChoosesBelow(AscendingNames(dir.Keys), token, None);
      Ok(Scan(dir[name], token))
  }

  /** The chosen file is one of the names, an index file whose stem does not
      sort after the token. */
  lemma {:induction false} RouteChoosesBelow(names: seq<string>, token: string, chosen: Option<string>)
    requires chosen.Some? ==> Below(chosen.value, token)
    ensures var r := RouteIn(names, token, chosen);
            r.Some? ==> (r.value in names || r == chosen) && Below(r.value, token)
  {
    if names != [] {
      var rest := names[1..];
      if !IsIndexName(names[0]) {
        RouteChoosesBelow(rest, token, chosen);
      } else if !Less(token, Stem(names[0])) {
        RouteChoosesBelow(rest, token, Some(names[0]));
      }
    }
  }
}
