/** The writing half of `IndexOrganizer`: `write` of a shard's temporary
    index, the two-way merge of two sorted temporary files, the halving
    merge of all shard files, and the ordering of the shard files by their
    number. A file is the sequence of its lines. */
module ShardMerge {
  import opened Wrappers
  import opened JavaString
  import opened Ordered

  /** `DOC_INDEX_PREFIX`: every shard file's name contains it. */
  const DOC_INDEX_PREFIX: string := "document_index_"

  // ---------------------------------------------------------------------------
  // Lines of a temporary index
  // ---------------------------------------------------------------------------

  /** One entry of a temporary index: a token and its numbers. */
  datatype Posting = Posting(token: string, nums: seq<int>)

  /** `" " + n`. */
  function Field(n: int): (r: string)
    ensures |r| >= 2 && r[0] == ' ' && (r[1] == '-' || IsAsciiDigit(r[1])) && IsAsciiDigit(r[|r| - 1])
  {
    " " + Decimal(n)
  }

  /** `" " + n` for every number, in order. */
  function Render(nums: seq<int>): (r: string)
    ensures nums == [] <==> r == []
    ensures nums != [] ==> r[0] == ' ' && IsAsciiDigit(r[|r| - 1])
  {
    if nums == [] then [] else Field(nums[0]) + Render(nums[1..])
  }

  lemma RenderSnoc(xs: seq<int>, x: int)
    ensures Render(xs + [x]) == Render(xs) + Field(x)
  {
    RenderConcat(xs, [x]);
    assert Render([x]) == Field(x) by {
      assert [x][1..] == [];
      assert Render([x]) == Field(x) + Render([]);
    }
  }

  /** The line `write` emits for a posting: the token, then its numbers. */
  function Line(p: Posting): string {
    p.token + Render(p.nums)
  }

  /** The lines of a sequence of postings. */
  function Lines(ps: seq<Posting>): (r: seq<string>)
    ensures |r| == |ps| && forall i :: 0 <= i < |ps| ==> r[i] == Line(ps[i])
  {
    if ps == [] then [] else [Line(ps[0])] + Lines(ps[1..])
  }

  /** A posting the merge can read back: its token has no space, so the
      first space of its line ends the token, and it has a number, so there
      is such a space. */
  predicate WellFormed(p: Posting) {
    ' ' !in p.token && p.nums != []
  }

  predicate AllWellFormed(ps: seq<Posting>) {
    forall i :: 0 <= i < |ps| ==> WellFormed(ps[i])
  }

  /** Tokens strictly ascend in `compareTo` order: the file is sorted and no
      token repeats. */
  predicate Sorted(ps: seq<Posting>) {
    forall i, j :: 0 <= i < j < |ps| ==> Less(ps[i].token, ps[j].token)
  }

  lemma {:induction false} RenderConcat(xs: seq<int>, ys: seq<int>)
    ensures Render(xs + ys) == Render(xs) + Render(ys)
    decreases |xs|
  {
    if xs == [] {
      assert xs + ys == ys;
    } else {
      var f := Field(xs[0]);
      assert Render(xs + ys) == f + Render(xs[1..] + ys) by {
        assert (xs + ys)[0] == xs[0];
        assert (xs + ys)[1..] == xs[1..] + ys;
      }
      RenderConcat(xs[1..], ys);
      ConcatAssoc(f, Render(xs[1..]), Render(ys));
    }
  }

  // ---------------------------------------------------------------------------
  // write
  // ---------------------------------------------------------------------------

  /** The postings of `tokens`, each with its list in `postingList`. */
  function PostingsOf(postingList: map<string, seq<int>>, tokens: seq<string>): (r: seq<Posting>)
    requires forall i :: 0 <= i < |tokens| ==> tokens[i] in postingList
    ensures |r| == |tokens| && forall i :: 0 <= i < |r| ==> r[i] == Posting(tokens[i], postingList[tokens[i]])
  {
    if tokens == [] then [] else [Posting(tokens[0], postingList[tokens[0]])] + PostingsOf(postingList, tokens[1..])
  }

  /** `write(postingList, filename)`: one line per key of the `TreeMap`, in
      ascending key order, each the token followed by `" " + n` for every
      number of its list. */
  method Write(postingList: map<string, seq<int>>) returns (lines: seq<string>)
    ensures lines == Lines(PostingsOf(postingList, AscendingNames(postingList.Keys)))
  {
    var tokens := SortNames(postingList.Keys);
    ghost var ps := PostingsOf(postingList, tokens);
    lines := [];
    for k := 0 to |tokens|
      invariant lines == Lines(ps[..k])
    {
      var line := WriteLine(tokens[k], postingList[tokens[k]]);
      assert line == Line(ps[k]);
      LinesPrefixStep(ps, k);
      lines := lines + [line];
    }
    assert ps[..|tokens|] == ps;
  }

  /** Writing one more posting adds its line. */
  lemma LinesPrefixStep(ps: seq<Posting>, k: nat)
    requires k < |ps|
    ensures Lines(ps[..k + 1]) == Lines(ps[..k]) + [Line(ps[k])]
  {
    assert ps[..k + 1] == ps[..k] + [ps[k]];
    LinesSnoc(ps[..k], ps[k]);
  }

  /** One line of `write`: the token, then `" " + i` for each number. */
  method WriteLine(token: string, nums: seq<int>) returns (line: string)
    ensures line == Line(Posting(token, nums))
  {
    line := token;
    for j := 0 to |nums|
      invariant line == token + Render(nums[..j])
    {
      LinePrefixStep(token, nums, j);
      line := line + Field(nums[j]);
    }
    assert nums[..|nums|] == nums;
  }

  /** The line of a prefix of the numbers grows by one field at a time. */
  lemma LinePrefixStep(token: string, nums: seq<int>, j: nat)
    requires j < |nums|
    ensures token + Render(nums[..j + 1]) == token + Render(nums[..j]) + Field(nums[j])
  {
    assert nums[..j + 1] == nums[..j] + [nums[j]];
    RenderSnoc(nums[..j], nums[j]);
  }

  lemma LinesSnoc(ps: seq<Posting>, p: Posting)
    ensures Lines(ps + [p]) == Lines(ps) + [Line(p)]
  {
  }

  /** What `write` emits is sorted: the keys of a `TreeMap` are distinct and
      ascend. */
  lemma WriteSorted(postingList: map<string, seq<int>>)
    ensures Sorted(PostingsOf(postingList, AscendingNames(postingList.Keys)))
  {
  }

  // ---------------------------------------------------------------------------
  // Merging two files
  // ---------------------------------------------------------------------------

  /** `line.substring(0, line.indexOf(" "))`, for a line that has a space. */
  function KeyOf(line: string): (t: string)
    requires ' ' in line
    ensures |t| < |line| && t == line[..|t|] && line[|t|] == ' ' && ' ' !in t
  {
    line[..IndexOf(line, ' ').value]
  }

  /** The line written for a token both files hold: file 1's line, a space,
      then file 2's line after the token, trimmed. */
  function Joined(line1: string, line2: string, n: nat): string
    requires n <= |line2|
  {
    line1 + " " + Trim(line2[n..])
  }

  /** `line` written before whatever the rest of the merge writes. */
  function Emit(line: string, rest: Result<seq<string>>): Result<seq<string>> {
    match rest
    case Ok(lines) => Ok([line] + lines)
    case Err(f) => Err(f)
  }

  /** `mergeDocumentIndices(index1, index2)`: while both files have lines,
      the line with the smaller token is copied (file 2's on a tie broken by
      `compareTo > 0`, file 1's on `< 0`), and equal tokens give one joined
      line; then the rest of either file is copied unread. A line without a
      space makes `substring(0, -1)` throw. */
  function Merge(file1: seq<string>, file2: seq<string>): (r: Result<seq<string>>)
    decreases |file1| + |file2|
  {
    if file1 == [] then Ok(file2)
    else if file2 == [] then Ok(file1)
    else if ' ' !in file1[0] || ' ' !in file2[0] then Err(IndexOutOfBounds)
    else
      var token1 := KeyOf(file1[0]);
      var token2 := KeyOf(file2[0]);
      if Less(token2, token1) then Emit(file2[0], Merge(file1, file2[1..]))
      else if Less(token1, token2) then Emit(file1[0], Merge(file1[1..], file2))
      else
        LessTotal(token1, token2);
        Emit(Joined(file1[0], file2[0], |token1|), Merge(file1[1..], file2[1..]))
  }

  /** `lines` already written, then the rest. */
  function Emitted(lines: seq<string>, rest: Result<seq<string>>): Result<seq<string>> {
    match rest
    case Ok(more) => Ok(lines + more)
    case Err(f) => Err(f)
  }

  lemma EmitStep(lines: seq<string>, line: string, rest: Result<seq<string>>)
    ensures Emitted(lines, Emit(line, rest)) == Emitted(lines + [line], rest)
  {
    if rest.Ok? {
      assert lines + ([line] + rest.value) == (lines + [line]) + rest.value;
    }
  }

  /** The merge at the lines `i` and `j`: one step of the loop. */
  lemma MergeUnfold(file1: seq<string>, file2: seq<string>, i: nat, j: nat)
    requires i < |file1| && j < |file2|
    ensures ' ' !in file1[i] || ' ' !in file2[j] ==> Merge(file1[i..], file2[j..]) == Err(IndexOutOfBounds)
    ensures ' ' in file1[i] && ' ' in file2[j] && Less(KeyOf(file2[j]), KeyOf(file1[i])) ==>
              Merge(file1[i..], file2[j..]) == Emit(file2[j], Merge(file1[i..], file2[j + 1..]))
    ensures ' ' in file1[i] && ' ' in file2[j] && Less(KeyOf(file1[i]), KeyOf(file2[j])) ==>
              Merge(file1[i..], file2[j..]) == Emit(file1[i], Merge(file1[i + 1..], file2[j..]))
    ensures ' ' in file1[i] && ' ' in file2[j] && !Less(KeyOf(file2[j]), KeyOf(file1[i]))
            && !Less(KeyOf(file1[i]), KeyOf(file2[j])) ==>
              KeyOf(file1[i]) == KeyOf(file2[j])
              && Merge(file1[i..], file2[j..])
                 == Emit(Joined(file1[i], file2[j], |KeyOf(file1[i])|), Merge(file1[i + 1..], file2[j + 1..]))
  {
    assert file1[i..][0] == file1[i] && file2[j..][0] == file2[j];
    assert file1[i..][1..] == file1[i + 1..] && file2[j..][1..] == file2[j + 1..];
    if ' ' in file1[i] && ' ' in file2[j] {
      LessTotal(KeyOf(file1[i]), KeyOf(file2[j]));
    }
  }

  /** The merge loop of `mergeDocumentIndices(index1, index2)` over two
      readers, appending to the writer. */
  method MergeFiles(file1: seq<string>, file2: seq<string>) returns (r: Result<seq<string>>)
    ensures r == Merge(file1, file2)
  {
    var merged: seq<string> := [];
    var i, j := 0, 0;
    assert file1[0..] == file1 && file2[0..] == file2;
    assert Emitted(merged, Merge(file1, file2)) == Merge(file1, file2) by {
      if Merge(file1, file2).Ok? {
        assert merged + Merge(file1, file2).value == Merge(file1, file2).value;
      }
    }
    while i < |file1| && j < |file2|
      invariant i <= |file1| && j <= |file2|
      invariant Merge(file1, file2) == Emitted(merged, Merge(file1[i..], file2[j..]))
      decreases |file1| - i + |file2| - j
    {
      var line1, line2 := file1[i], file2[j];
      MergeUnfold(file1, file2, i, j);
      if ' ' !in line1 || ' ' !in line2 {
        return Err(IndexOutOfBounds);
      }
      var token1 := KeyOf(line1);
      var token2 := KeyOf(line2);
      if Less(token2, token1) {
        EmitStep(merged, line2, Merge(file1[i..], file2[j + 1..]));
        merged := merged + [line2];
        j := j + 1;
      } else if Less(token1, token2) {
        EmitStep(merged, line1, Merge(file1[i + 1..], file2[j..]));
        merged := merged + [line1];
        i := i + 1;
      } else {
        LessTotal(token1, token2);
        var joined := line1 + " " + Trim(line2[|token1|..]);
        EmitStep(merged, joined, Merge(file1[i + 1..], file2[j + 1..]));
        merged := merged + [joined];
        i, j := i + 1, j + 1;
      }
    }
    if i == |file1| {
      assert file1[i..] == [] && [] + file2[j..] == file2[j..];
    } else {
      assert file2[j..] == [] && file1[i..] + [] == file1[i..];
    }
    assert Merge(file1[i..], file2[j..]) == Ok(file1[i..] + file2[j..]);
    ghost var written := merged;
    merged := CopyRest(merged, file1[i..]);
    merged := CopyRest(merged, file2[j..]);
    ConcatAssoc(written, file1[i..], file2[j..]);
    assert merged == written + (file1[i..] + file2[j..]);
    r := Ok(merged);
  }

  /** The copy loops after the merge loop: every remaining line of one
      reader is written, in order. */
  method CopyRest(merged: seq<string>, rest: seq<string>) returns (out: seq<string>)
    ensures out == merged + rest
  {
    out := merged;
    for k := 0 to |rest|
      invariant out == merged + rest[..k]
    {
      assert rest[..k + 1] == rest[..k] + [rest[k]];
      out := out + [rest[k]];
    }
    assert rest[..|rest|] == rest;
  }

  // ---------------------------------------------------------------------------
  // The merge over postings
  // ---------------------------------------------------------------------------

  /** The same merge over postings: equal tokens give one posting with file
      1's numbers followed by file 2's. */
  function MergePostings(a: seq<Posting>, b: seq<Posting>): seq<Posting>
    decreases |a| + |b|
  {
    if a == [] then b
    else if b == [] then a
    else if Less(b[0].token, a[0].token) then [b[0]] + MergePostings(a, b[1..])
    else if Less(a[0].token, b[0].token) then [a[0]] + MergePostings(a[1..], b)
    else [Posting(a[0].token, a[0].nums + b[0].nums)] + MergePostings(a[1..], b[1..])
  }

  /** The key the merge reads from a written line is the posting's token. */
  lemma KeyOfLine(p: Posting)
    requires WellFormed(p)
    ensures ' ' in Line(p) && KeyOf(Line(p)) == p.token
  {
    var line := Line(p);
    assert line[|p.token|] == ' ';
  }

  /** Trimming the numbers of a line leaves them without their first
      space. */
  lemma TrimRender(nums: seq<int>)
    requires nums != []
    ensures Trim(Render(nums)) == Render(nums)[1..]
  {
    var r := Render(nums);
    assert r[1..][0] == Field(nums[0])[1];
    assert r[1..][|r[1..]| - 1] == r[|r| - 1];
  }

  /** Joining the lines of two postings of the same token writes the line of
      the posting holding both lists of numbers. */
  lemma JoinedLines(p: Posting, q: Posting)
    requires WellFormed(p) && WellFormed(q) && p.token == q.token
    ensures |p.token| <= |Line(q)|
    ensures Joined(Line(p), Line(q), |p.token|) == Line(Posting(p.token, p.nums + q.nums))
  {
    var rq := Render(q.nums);
    LineSuffix(q);
    TrimRender(q.nums);
    RenderConcat(p.nums, q.nums);
    Reattach(p.token, Render(p.nums), rq);
  }

  /** A line after its token is its numbers. */
  lemma LineSuffix(p: Posting)
    ensures |p.token| <= |Line(p)| && Line(p)[|p.token|..] == Render(p.nums)
  {
  }

  /** A space put back in front of numbers that lost it. */
  lemma Reattach(token: string, r1: string, r2: string)
    requires r2 != [] && r2[0] == ' '
    ensures (token + r1) + " " + r2[1..] == token + (r1 + r2)
  {
    assert r2 == " " + r2[1..];
  }

  /** The merge of written files is the written merge of their postings:
      on well-formed lines it never throws. */
  lemma {:induction false} MergeRendered(a: seq<Posting>, b: seq<Posting>)
    requires AllWellFormed(a) && AllWellFormed(b)
    ensures Merge(Lines(a), Lines(b)) == Ok(Lines(MergePostings(a, b)))
    decreases |a| + |b|
  {
    if a != [] && b != [] {
      assert AllWellFormed(a[1..]) && AllWellFormed(b[1..]) by {
        assert forall i :: 0 <= i < |a| - 1 ==> a[1..][i] == a[i + 1];
        assert forall i :: 0 <= i < |b| - 1 ==> b[1..][i] == b[i + 1];
      }
      MergeLinesStep(a, b);
      if Less(b[0].token, a[0].token) {
        MergeRendered(a, b[1..]);
        LinesCons(b[0], MergePostings(a, b[1..]));
      } else if Less(a[0].token, b[0].token) {
        MergeRendered(a[1..], b);
        LinesCons(a[0], MergePostings(a[1..], b));
      } else {
        MergeRendered(a[1..], b[1..]);
        LinesCons(Posting(a[0].token, a[0].nums + b[0].nums), MergePostings(a[1..], b[1..]));
      }
    }
  }

  lemma LinesCons(p: Posting, ps: seq<Posting>)
    ensures Lines([p] + ps) == [Line(p)] + Lines(ps)
  {
    assert ([p] + ps)[1..] == ps;
  }

  /** One step of the line merge on the lines of two postings lists. */
  lemma MergeLinesStep(a: seq<Posting>, b: seq<Posting>)
    requires a != [] && b != [] && WellFormed(a[0]) && WellFormed(b[0])
    ensures Less(b[0].token, a[0].token) ==>
              Merge(Lines(a), Lines(b)) == Emit(Line(b[0]), Merge(Lines(a), Lines(b[1..])))
    ensures Less(a[0].token, b[0].token) ==>
              Merge(Lines(a), Lines(b)) == Emit(Line(a[0]), Merge(Lines(a[1..]), Lines(b)))
    ensures !Less(b[0].token, a[0].token) && !Less(a[0].token, b[0].token) ==>
              Merge(Lines(a), Lines(b))
              == Emit(Line(Posting(a[0].token, a[0].nums + b[0].nums)), Merge(Lines(a[1..]), Lines(b[1..])))
  {
    var la, lb := Lines(a), Lines(b);
    KeyOfLine(a[0]);
    KeyOfLine(b[0]);
    assert la[0] == Line(a[0]) && lb[0] == Line(b[0]);
    assert la[1..] == Lines(a[1..]) && lb[1..] == Lines(b[1..]);
    MergeUnfold(la, lb, 0, 0);
    assert la[0..] == la && lb[0..] == lb;
    if !Less(b[0].token, a[0].token) && !Less(a[0].token, b[0].token) {
      LessTotal(a[0].token, b[0].token);
      JoinedLines(a[0], b[0]);
    }
  }

  /** Every token of `ps` sorts after `t`. */
  predicate AllAbove(ps: seq<Posting>, t: string) {
    forall i :: 0 <= i < |ps| ==> Less(t, ps[i].token)
  }

  /** The numbers of the first posting of `t` in `ps`, or none. */
  function Find(ps: seq<Posting>, t: string): seq<int> {
    if ps == [] then [] else if ps[0].token == t then ps[0].nums else Find(ps[1..], t)
  }

  lemma {:induction false} FindAbove(ps: seq<Posting>, t: string)
    requires AllAbove(ps, t)
    ensures Find(ps, t) == []
  {
    if ps != [] {
      LessIrreflexive(t);
      assert AllAbove(ps[1..], t) by {
        forall i | 0 <= i < |ps| - 1 ensures Less(t, ps[1..][i].token) {
          assert ps[1..][i] == ps[i + 1];
        }
      }
      FindAbove(ps[1..], t);
    }
  }

  lemma {:induction false} MergeAbove(a: seq<Posting>, b: seq<Posting>, t: string)
    requires AllAbove(a, t) && AllAbove(b, t)
    ensures AllAbove(MergePostings(a, b), t)
    decreases |a| + |b|
  {
    if a != [] && b != [] {
      assert AllAbove(a[1..], t) && AllAbove(b[1..], t) by {
        assert forall i :: 0 <= i < |a| - 1 ==> a[1..][i] == a[i + 1];
        assert forall i :: 0 <= i < |b| - 1 ==> b[1..][i] == b[i + 1];
      }
      if Less(b[0].token, a[0].token) {
        MergeAbove(a, b[1..], t);
      } else if Less(a[0].token, b[0].token) {
        MergeAbove(a[1..], b, t);
      } else {
        MergeAbove(a[1..], b[1..], t);
      }
    }
  }

  /** The rest of a sorted file is sorted and lies above its first token. */
  lemma SortedTail(ps: seq<Posting>)
    requires Sorted(ps) && ps != []
    ensures Sorted(ps[1..]) && AllAbove(ps[1..], ps[0].token)
  {
    assert forall i :: 0 <= i < |ps| - 1 ==> ps[1..][i] == ps[i + 1];
  }

  lemma SortedCons(p: Posting, ps: seq<Posting>)
    requires Sorted(ps) && AllAbove(ps, p.token)
    ensures Sorted([p] + ps)
  {
    var r := [p] + ps;
    forall i, j | 0 <= i < j < |r| ensures Less(r[i].token, r[j].token) {
      assert r[j] == ps[j - 1];
      if i > 0 {
        assert r[i] == ps[i - 1];
      }
    }
  }

  /** A sorted file lies above any token below its first. */
  lemma SortedAbove(ps: seq<Posting>, t: string)
    requires Sorted(ps) && ps != [] && Less(t, ps[0].token)
    ensures AllAbove(ps, t)
  {
    forall i | 0 < i < |ps| ensures Less(t, ps[i].token) {
      LessTransitive(t, ps[0].token, ps[i].token);
    }
  }

  /** Merging two sorted files gives a sorted file holding, for every token,
      file 1's numbers followed by file 2's. */
  lemma {:induction false} MergeSorted(a: seq<Posting>, b: seq<Posting>)
    requires Sorted(a) && Sorted(b)
    ensures Sorted(MergePostings(a, b))
    ensures forall t :: Find(MergePostings(a, b), t) == Find(a, t) + Find(b, t)
    decreases |a| + |b|
  {
    if a == [] {
      assert forall t :: Find(a, t) == [];
    } else if b == [] {
      assert forall t :: Find(b, t) == [];
    } else {
      SortedTail(a);
      SortedTail(b);
      var a0, b0 := a[0], b[0];
      if Less(b0.token, a0.token) {
        var rest := MergePostings(a, b[1..]);
        MergeSorted(a, b[1..]);
        SortedAbove(a, b0.token);
        MergeAbove(a, b[1..], b0.token);
        SortedCons(b0, rest);
        FindAbove(a, b0.token);
      } else if Less(a0.token, b0.token) {
        var rest := MergePostings(a[1..], b);
        MergeSorted(a[1..], b);
        SortedAbove(b, a0.token);
        MergeAbove(a[1..], b, a0.token);
        SortedCons(a0, rest);
        FindAbove(b, a0.token);
      } else {
        LessTotal(a0.token, b0.token);
        var rest := MergePostings(a[1..], b[1..]);
        MergeSorted(a[1..], b[1..]);
        MergeAbove(a[1..], b[1..], a0.token);
        SortedCons(Posting(a0.token, a0.nums + b0.nums), rest);
        FindAbove(a[1..], a0.token);
        FindAbove(b[1..], a0.token);
      }
    }
  }

  /** Merging keeps every posting readable. */
  lemma {:induction false} MergeWellFormed(a: seq<Posting>, b: seq<Posting>)
    requires AllWellFormed(a) && AllWellFormed(b)
    ensures AllWellFormed(MergePostings(a, b))
    decreases |a| + |b|
  {
    if a != [] && b != [] {
      if Less(b[0].token, a[0].token) {
        MergeWellFormed(a, b[1..]);
      } else if Less(a[0].token, b[0].token) {
        MergeWellFormed(a[1..], b);
      } else {
        MergeWellFormed(a[1..], b[1..]);
      }
    }
  }

  // ---------------------------------------------------------------------------
  // Merging all shard files
  // ---------------------------------------------------------------------------

  /** `mergeDocumentIndices(files)`, with its two worker threads run one
      after the other. One file is returned as it is; otherwise both halves
      (split at `size / 2`) are merged and then merged together. A half
      whose merge throws is caught as an `ExecutionException`, and this
      level returns null (None); a null half makes `getName()` throw. */
  function MergeTree(files: seq<seq<string>>): (r: Result<Option<seq<string>>>)
    requires |files| >= 1
    decreases |files|
  {
    if |files| == 1 then Ok(Some(files[0]))
    else
      var half := |files| / 2;
      var first := MergeTree(files[..half]);
      var second := MergeTree(files[half..]);
      if first.Err? || second.Err? then Ok(None)
      else if first.value.None? || second.value.None? then Err(NullReference)
      else
        match Merge(first.value.value, second.value.value)
        case Ok(lines) => Ok(Some(lines))
        case Err(f) => Err(f)
  }

  /** The recursive merge, each level waiting for both halves. */
  method MergeDocumentIndices(files: seq<seq<string>>) returns (r: Result<Option<seq<string>>>)
    requires |files| >= 1
    ensures r == MergeTree(files)
    decreases |files|
  {
    if |files| == 1 {
      return Ok(Some(files[0]));
    }
    var firstHalf := files[..|files| / 2];
    var secondHalf := files[|files| / 2..];
    var mergedFirstHalf := MergeDocumentIndices(firstHalf);
    var mergedSecondHalf := MergeDocumentIndices(secondHalf);
    if mergedFirstHalf.Err? || mergedSecondHalf.Err? {
      return Ok(None);
    }
    if mergedFirstHalf.value.None? || mergedSecondHalf.value.None? {
      return Err(NullReference);
    }
    var merged := MergeFiles(mergedFirstHalf.value.value, mergedSecondHalf.value.value);
    if merged.Err? {
      return Err(merged.fault);
    }
    r := Ok(Some(merged.value));
  }

  /** The same halving merge over postings. */
  function MergeAllPostings(files: seq<seq<Posting>>): seq<Posting>
    requires |files| >= 1
    decreases |files|
  {
    if |files| == 1 then files[0]
    else MergePostings(MergeAllPostings(files[..|files| / 2]), MergeAllPostings(files[|files| / 2..]))
  }

  /** The numbers of `t` in every file, file after file. */
  function Gather(files: seq<seq<Posting>>, t: string): seq<int> {
    if files == [] then [] else Find(files[0], t) + Gather(files[1..], t)
  }

  lemma {:induction false} GatherConcat(x: seq<seq<Posting>>, y: seq<seq<Posting>>, t: string)
    ensures Gather(x + y, t) == Gather(x, t) + Gather(y, t)
    decreases |x|
  {
    if x == [] {
      assert x + y == y;
    } else {
      assert (x + y)[1..] == x[1..] + y;
      GatherConcat(x[1..], y, t);
    }
  }

  /** Merging sorted shard files gives one sorted file whose numbers for a
      token are those of every shard, in the order of the shard list. */
  lemma {:induction false} MergeAllSorted(files: seq<seq<Posting>>)
    requires |files| >= 1 && forall i :: 0 <= i < |files| ==> Sorted(files[i])
    ensures Sorted(MergeAllPostings(files))
    ensures forall t :: Find(MergeAllPostings(files), t) == Gather(files, t)
    decreases |files|
  {
    if |files| == 1 {
      assert forall t :: Gather(files, t) == Find(files[0], t) + Gather([], t);
    } else {
      var half := |files| / 2;
      var x, y := files[..half], files[half..];
      MergeAllSorted(x);
      MergeAllSorted(y);
      MergeSorted(MergeAllPostings(x), MergeAllPostings(y));
      assert files == x + y;
      forall t ensures Gather(files, t) == Gather(x, t) + Gather(y, t) {
        GatherConcat(x, y, t);
      }
    }
  }

  lemma {:induction false} MergeAllWellFormed(files: seq<seq<Posting>>)
    requires |files| >= 1 && forall i :: 0 <= i < |files| ==> AllWellFormed(files[i])
    ensures AllWellFormed(MergeAllPostings(files))
    decreases |files|
  {
    if |files| > 1 {
      var half := |files| / 2;
      MergeAllWellFormed(files[..half]);
      MergeAllWellFormed(files[half..]);
      MergeWellFormed(MergeAllPostings(files[..half]), MergeAllPostings(files[half..]));
    }
  }

  /** The lines of every file. */
  function LinesOfAll(files: seq<seq<Posting>>): (r: seq<seq<string>>)
    ensures |r| == |files| && forall i :: 0 <= i < |files| ==> r[i] == Lines(files[i])
  {
    if files == [] then [] else [Lines(files[0])] + LinesOfAll(files[1..])
  }

  /** `lines` holds, file by file, the lines written for `files`. */
  predicate WrittenAs(lines: seq<seq<string>>, files: seq<seq<Posting>>) {
    |lines| == |files| && forall i :: 0 <= i < |files| ==> lines[i] == Lines(files[i])
  }

  /** On written files the halving merge never fails: it writes the merge of
      the shards' postings. */
  lemma MergeTreeRendered(files: seq<seq<Posting>>)
    requires |files| >= 1 && forall i :: 0 <= i < |files| ==> AllWellFormed(files[i])
    ensures MergeTree(LinesOfAll(files)) == Ok(Some(Lines(MergeAllPostings(files))))
  {
    MergeTreeWritten(LinesOfAll(files), files);
  }

  lemma {:induction false} MergeTreeWritten(lines: seq<seq<string>>, files: seq<seq<Posting>>)
    requires |files| >= 1 && forall i :: 0 <= i < |files| ==> AllWellFormed(files[i])
    requires WrittenAs(lines, files)
    ensures MergeTree(lines) == Ok(Some(Lines(MergeAllPostings(files))))
    decreases |files|
  {
    if |files| > 1 {
      var half := |files| / 2;
      WrittenSplit(lines, files, half);
      MergeTreeWritten(lines[..half], files[..half]);
      MergeTreeWritten(lines[half..], files[half..]);
      MergeHalvesRendered(files);
    }
  }

  lemma WrittenSplit(lines: seq<seq<string>>, files: seq<seq<Posting>>, half: nat)
    requires WrittenAs(lines, files) && half <= |files|
    requires forall i :: 0 <= i < |files| ==> AllWellFormed(files[i])
    ensures WrittenAs(lines[..half], files[..half]) && WrittenAs(lines[half..], files[half..])
    ensures forall i :: 0 <= i < half ==> AllWellFormed(files[..half][i])
    ensures forall i :: 0 <= i < |files| - half ==> AllWellFormed(files[half..][i])
  {
    forall i | 0 <= i < |files| - half ensures lines[half..][i] == Lines(files[half..][i]) {
      assert lines[half..][i] == lines[half + i] && files[half..][i] == files[half + i];
    }
  }

  /** The two halves' merged postings, written, merge into the whole
      merge's lines. */
  lemma MergeHalvesRendered(files: seq<seq<Posting>>)
    requires |files| > 1 && forall i :: 0 <= i < |files| ==> AllWellFormed(files[i])
    ensures var half := |files| / 2;
            Merge(Lines(MergeAllPostings(files[..half])), Lines(MergeAllPostings(files[half..])))
            == Ok(Lines(MergeAllPostings(files)))
  {
    var half := |files| / 2;
    MergeAllWellFormed(files[..half]);
    MergeAllWellFormed(files[half..]);
    MergeRendered(MergeAllPostings(files[..half]), MergeAllPostings(files[half..]));
  }

  // ---------------------------------------------------------------------------
  // Choosing and ordering the shard files
  // ---------------------------------------------------------------------------

  /** `f.getName().contains(DOC_INDEX_PREFIX)`. */
  predicate IsShard(name: string) {
    IndexOfString(name, DOC_INDEX_PREFIX).Some?
  }

  /** The shard files of a directory listing, in listing order. */
  function Shards(listing: seq<string>): seq<string> {
    if listing == [] then []
    else (if IsShard(listing[0]) then [listing[0]] else []) + Shards(listing[1..])
  }

  /** The shard files are exactly the listed names that contain the
      prefix. */
  lemma {:induction false} ShardsMembers(listing: seq<string>)
    ensures forall x :: x in Shards(listing) <==> x in listing && IsShard(x)
  {
    if listing != [] {
      ShardsMembers(listing[1..]);
      assert listing == [listing[0]] + listing[1..];
    }
  }

  /** `Integer.parseInt` of the name after its last '_' (the whole name
      when it has none); None is the NumberFormatException. */
  function ShardNumber(name: string): Option<int> {
    match LastIndexOf(name, '_')
    case None => ParseInt(name)
    case Some(i) => ParseInt(name[i + 1..])
  }

  /** A shard file together with its number. */
  datatype Shard = Shard(name: string, number: int)

  predicate ByNumber(s: seq<Shard>) {
    forall i, j :: 0 <= i < j < |s| ==> s[i].number <= s[j].number
  }

  /** `x` placed before the first shard whose number is not below its own. */
  function Insert(x: Shard, s: seq<Shard>): (r: seq<Shard>)
    ensures multiset(r) == multiset(s) + multiset{x}
    ensures |r| == |s| + 1
  {
    if s == [] || x.number <= s[0].number then [x] + s
    else
      assert s == [s[0]] + s[1..];
      [s[0]] + Insert(x, s[1..])
  }

  /** Inserting into shards ordered by number keeps them ordered. */
  lemma {:induction false} InsertKeepsOrder(x: Shard, s: seq<Shard>)
    requires ByNumber(s)
    ensures ByNumber(Insert(x, s))
  {
    if s == [] || x.number <= s[0].number {
      InsertFront(x, s);
    } else {
      var rest := Insert(x, s[1..]);
      assert ByNumber(s[1..]) by {
        forall i, j | 0 <= i < j < |s| - 1 ensures s[1..][i].number <= s[1..][j].number {
          assert s[1..][i] == s[i + 1] && s[1..][j] == s[j + 1];
        }
      }
      InsertKeepsOrder(x, s[1..]);
      forall k | 0 <= k < |rest| ensures s[0].number <= rest[k].number {
        assert rest[k] in multiset(s[1..]) + multiset{x};
        if rest[k] != x {
          assert rest[k] in s[1..];
          var m :| 0 <= m < |s[1..]| && s[1..][m] == rest[k];
          assert s[m + 1] == rest[k];
        }
      }
      InsertFront(s[0], rest);
    }
  }

  lemma InsertFront(x: Shard, s: seq<Shard>)
    requires ByNumber(s) && forall k :: 0 <= k < |s| ==> x.number <= s[k].number
    ensures ByNumber([x] + s)
  {
    var r := [x] + s;
    forall i, j | 0 <= i < j < |r| ensures r[i].number <= r[j].number {
      assert r[j] == s[j - 1];
      if i > 0 {
        assert r[i] == s[i - 1];
      }
    }
  }

  /** `Collections.sort` with the comparator on shard numbers: a stable sort,
      here by insertion. */
  function SortByNumber(s: seq<Shard>): (r: seq<Shard>)
    ensures ByNumber(r) && multiset(r) == multiset(s)
  {
    if s == [] then []
    else
      assert s == [s[0]] + s[1..];
      var rest := SortByNumber(s[1..]);
      InsertKeepsOrder(s[0], rest);
      Insert(s[0], rest)
  }

  /** The shard files paired with their numbers; None when a number does not
      parse. */
  function Numbered(names: seq<string>): (r: Option<seq<Shard>>)
    ensures r.Some? ==> |r.value| == |names|
                        && forall i :: 0 <= i < |names| ==>
                             r.value[i].name == names[i] && ShardNumber(names[i]) == Some(r.value[i].number)
    ensures r.None? <==> exists i :: 0 <= i < |names| && ShardNumber(names[i]).None?
  {
    if names == [] then Some([])
    else
      var rest := Numbered(names[1..]);
      assert forall i :: 0 < i < |names| ==> names[i] == names[1..][i - 1];
      match ShardNumber(names[0])
      case None => None
      case Some(n) =>
        if rest.None? then None else Some([Shard(names[0], n)] + rest.value)
  }

  /** The order `Collections.sort` leaves the shard files in. With fewer
      than two files the comparator is never called; otherwise every file
      is compared, so a number that does not parse throws. */
  function ShardOrder(shards: seq<string>): (r: Result<seq<string>>)
    ensures r.Ok? ==> |r.value| == |shards| && forall k :: 0 <= k < |r.value| ==> r.value[k] in shards
    ensures r.Err? <==> |shards| >= 2 && exists i :: 0 <= i < |shards| && ShardNumber(shards[i]).None?
    ensures r.Err? ==> r.fault == NumberFormat
  {
    if |shards| < 2 then Ok(shards)
    else
      match Numbered(shards)
      case None => Err(NumberFormat)
      case Some(numbered) =>
        SortedNamesFrom(shards, numbered);
        Ok(ShardNames(SortByNumber(numbered)))
  }

  /** Sorting the numbered shards keeps their names and numbers, in
      ascending number. */
  lemma SortedNamesFrom(names: seq<string>, numbered: seq<Shard>)
    requires |numbered| == |names|
    requires forall i :: 0 <= i < |names| ==> numbered[i].name == names[i] && ShardNumber(names[i]) == Some(numbered[i].number)
    ensures |SortByNumber(numbered)| == |names|
    ensures forall k :: 0 <= k < |names| ==> SortByNumber(numbered)[k].name in names
    ensures forall k :: 0 <= k < |names| ==> ShardNumber(SortByNumber(numbered)[k].name) == Some(SortByNumber(numbered)[k].number)
  {
    var sorted := SortByNumber(numbered);
    assert |sorted| == |numbered| by {
      assert |multiset(sorted)| == |multiset(numbered)|;
    }
    forall k | 0 <= k < |names|
      ensures sorted[k].name in names && ShardNumber(sorted[k].name) == Some(sorted[k].number)
    {
      assert sorted[k] in multiset(numbered);
      var i :| 0 <= i < |numbered| && numbered[i] == sorted[k];
    }
  }

  /** When there are two shard files or more, their order ascends by
      number. */
  lemma ShardOrderByNumber(shards: seq<string>)
    requires |shards| >= 2 && ShardOrder(shards).Ok?
    ensures var order := ShardOrder(shards).value;
            forall i, j :: 0 <= i < j < |order| ==>
              ShardNumber(order[i]).Some? && ShardNumber(order[j]).Some?
              && ShardNumber(order[i]).value <= ShardNumber(order[j]).value
  {
    var numbered := Numbered(shards).value;
    SortedNamesFrom(shards, numbered);
  }

  /** `mergeDocumentIndices()`: the shard files of the listing, sorted by
      number, merged; the merged file becomes the full index. A null merge
      result makes `renameTo` throw. */
  ghost function FullIndex(listing: seq<string>, files: map<string, seq<string>>): Result<seq<string>>
    requires forall x :: x in listing ==> x in files
    requires Shards(listing) != []
  {
    match ShardOrder(Shards(listing))
    case Err(f) => Err(f)
    case Ok(order) =>
      ShardsMembers(listing);
      match MergeTree(Contents(files, order))
      case Err(f) => Err(f)
      case Ok(None) => Err(NullReference)
      case Ok(Some(lines)) => Ok(lines)
  }

  function ShardNames(s: seq<Shard>): (r: seq<string>)
    ensures |r| == |s| && forall i :: 0 <= i < |s| ==> r[i] == s[i].name
  {
    if s == [] then [] else [s[0].name] + ShardNames(s[1..])
  }

  /** The contents of the named files, in order (their lines, or the
      postings they were written from). */
  function Contents<V>(files: map<string, V>, names: seq<string>): (r: seq<V>)
    requires forall k :: 0 <= k < |names| ==> names[k] in files
    ensures |r| == |names| && forall i :: 0 <= i < |names| ==> r[i] == files[names[i]]
  {
    if names == [] then [] else [files[names[0]]] + Contents(files, names[1..])
  }

  lemma {:induction false} ShardsSnoc(listing: seq<string>, name: string)
    ensures Shards(listing + [name]) == Shards(listing) + (if IsShard(name) then [name] else [])
    decreases |listing|
  {
    var last := if IsShard(name) then [name] else [];
    if listing == [] {
      assert [name][1..] == [];
      assert Shards([name]) == last + Shards([]);
    } else {
      var head := if IsShard(listing[0]) then [listing[0]] else [];
      assert (listing + [name])[1..] == listing[1..] + [name];
      assert Shards(listing + [name]) == head + Shards(listing[1..] + [name]);
      ShardsSnoc(listing[1..], name);
      assert head + (Shards(listing[1..]) + last) == (head + Shards(listing[1..])) + last;
    }
  }

  /** `mergeDocumentIndices()` over a directory listing and the lines of its
      files: the files whose name does not contain the prefix are removed
      from a copy of the listing, the rest are sorted by number and merged,
      and the result is renamed to the full index. */
  method MergeShards(listing: seq<string>, files: map<string, seq<string>>) returns (r: Result<seq<string>>)
    requires forall x :: x in listing ==> x in files
    requires Shards(listing) != []
    ensures r == FullIndex(listing, files)
  {
    var copy: seq<string> := [];
    for k := 0 to |listing|
      invariant copy == Shards(listing[..k])
    {
      assert listing[..k + 1] == listing[..k] + [listing[k]];
      ShardsSnoc(listing[..k], listing[k]);
      if IsShard(listing[k]) {
        copy := copy + [listing[k]];
      }
    }
    assert listing[..|listing|] == listing;
    var order := ShardOrder(copy);
    if order.Err? {
      return Err(order.fault);
    }
    ShardsMembers(listing);
    var tempFinalIndex := MergeDocumentIndices(Contents(files, order.value));
    if tempFinalIndex.Err? {
      return Err(tempFinalIndex.fault);
    }
    if tempFinalIndex.value.None? {
      return Err(NullReference);
    }
    r := Ok(tempFinalIndex.value.value);
  }

  /** When every shard file holds the lines `write` wrote for sorted,
      well-formed postings, and the shard numbers parse, the full index is
      the line rendering of the merged postings: sorted, with each token's
      numbers gathered from every shard in number order. */
  lemma FullIndexOfWritten(listing: seq<string>, files: map<string, seq<string>>, written: map<string, seq<Posting>>)
    requires forall x :: x in listing ==> x in files
    requires Shards(listing) != []
    requires forall x :: x in Shards(listing) ==>
               x in written && x in files && files[x] == Lines(written[x])
               && AllWellFormed(written[x]) && Sorted(written[x])
    requires ShardOrder(Shards(listing)).Ok?
    ensures var order := ShardOrder(Shards(listing)).value;
            var merged := MergeAllPostings(Contents(written, order));
            FullIndex(listing, files) == Ok(Lines(merged))
            && Sorted(merged) && forall t :: Find(merged, t) == Gather(Contents(written, order), t)
  {
    var order := ShardOrder(Shards(listing)).value;
    ShardsMembers(listing);
    var ps := Contents(written, order);
    assert LinesOfAll(ps) == Contents(files, order);
    MergeTreeRendered(ps);
    MergeAllSorted(ps);
  }
}
