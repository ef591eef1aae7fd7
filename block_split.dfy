/** `splitIndex`: the full index, one line per token, is cut into index
    blocks. Every kept line becomes one record of the open block. A block
    is opened, named after the token of its first record, whenever none is
    open, and it is closed once the compressed bytes written to it reach the
    threshold. Tokens made of letters also go to the dictionary. */
module BlockSplit {
  import opened Wrappers
  import opened JavaInt
  import opened JavaString
  import opened Ordered
  import opened Compressor
  import opened Postings
  import opened IndexFiles

  /** The longest token kept: longer tokens are skipped. */
  const MAX_TOKEN_LENGTH: nat := 20

  /** An index block: its file name and the records written to it. */
  datatype Block = Block(name: string, records: seq<IndexRecord>)

  /** The loop's state: the blocks in the order they were opened, the
      dictionary lines, whether a block is open (`outputFile != null`; the
      open block is the last one) and `bytesWritten` to it. */
  datatype State = State(blocks: seq<Block>, dictionary: seq<string>, open: bool, bytesWritten: int)

  /** Nothing written yet. */
  const Start: State := State([], [], false, 0)

  // ---------------------------------------------------------------------------
  // One line
  // ---------------------------------------------------------------------------

  /** `line.substring(0, line.indexOf(" ")).trim()` and
      `line.substring(line.indexOf(" ") + 1).trim()`: the token and the
      numbers' text. A line without a space makes `substring(0, -1)`
      throw. */
  function Cut(line: string): (r: Result<(string, string)>)
    ensures r.Err? <==> ' ' !in line
    ensures r.Err? ==> r.fault == IndexOutOfBounds
  {
    match IndexOf(line, ' ')
    case None => Err(IndexOutOfBounds)
    case Some(i) => Ok((Trim(line[..i]), Trim(line[i + 1..])))
  }

  /** A line is skipped when its token is longer than 20 characters or
      matches `.*[0-9].*`. */
  predicate Kept(token: string) {
    |token| <= MAX_TOKEN_LENGTH && !MatchesDigit(token)
  }

  /** `Long.parseLong` of every token of a `StringTokenizer`; None is the
      `NumberFormatException` of the first one that does not parse. */
  function ParseLongs(words: seq<string>): (r: Option<seq<int>>)
    ensures r.Some? ==> |r.value| == |words|
                        && forall k :: 0 <= k < |words| ==> ParseLong(words[k]) == Some(r.value[k])
    ensures r.None? ==> exists k :: 0 <= k < |words| && ParseLong(words[k]).None?
  {
    if words == [] then Some([])
    else
      match ParseLong(words[0])
      case None => None
      case Some(n) =>
        var rest := ParseLongs(words[1..]);
        assert forall k :: 0 < k < |words| ==> words[k] == words[1..][k - 1];
        if rest.None? then None else Some([n] + rest.value)
  }

  /** The record a kept line becomes, under `key`: the numbers parsed and
      encoded. A malformed count makes the delta pass index past the end. */
  function RecordOf(key: string, rest: string): (r: Result<IndexRecord>)
    ensures r.Ok? ==> r.value.token == key
    ensures r.Err? ==> r.fault == NumberFormat || r.fault == IndexOutOfBounds
  {
    match ParseLongs(Words(rest, TokenizerDelimiters))
    case None => Err(NumberFormat)
    case Some(nums) =>
      match Encoded(nums)
      case None => Err(IndexOutOfBounds)
      case Some(bytes) => Ok(IndexRecord(key, bytes))
  }

  function Last(blocks: seq<Block>): Block
    requires blocks != []
  {
    blocks[|blocks| - 1]
  }

  /** Writing a record: to the open block, or to a new block named after
      the record's token; the block is closed when its bytes reach
      `threshold`. */
  function Append(st: State, rec: IndexRecord, threshold: int): (r: State)
    requires st.open ==> st.blocks != []
    ensures r.open ==> r.blocks != []
    ensures r.dictionary == st.dictionary
  {
    var blocks := if st.open then st.blocks else st.blocks + [Block(rec.token + ".idx", [])];
    var last := Last(blocks);
    var grown := blocks[..|blocks| - 1] + [Block(last.name, last.records + [rec])];
    var written := st.bytesWritten + |rec.bytes|;
    if written >= threshold then State(grown, st.dictionary, false, 0)
    else State(grown, st.dictionary, true, written)
  }

  /** A kept line whose token is `token` and whose record is written under
      `key`. */
  function Keep(st: State, token: string, key: string, rest: string, threshold: int): (r: Result<State>)
    requires st.open ==> st.blocks != []
    ensures r.Ok? ==> r.value.open ==> r.value.blocks != []
  {
    var dictionary := st.dictionary + (if IsLetters(token) then [token] else []);
    match RecordOf(key, rest)
    case Err(f) => Err(f)
    case Ok(rec) => Ok(Append(st.(dictionary := dictionary), rec, threshold))
  }

  /** One pass of the loop of `splitIndex`, each record under its own
      token. */
  function Step(st: State, line: string, threshold: int): (r: Result<State>)
    requires st.open ==> st.blocks != []
    ensures r.Ok? ==> r.value.open ==> r.value.blocks != []
  {
    match Cut(line)
    case Err(f) => Err(f)
    case Ok((token, rest)) =>
      if !Kept(token) then Ok(st) else Keep(st, token, token, rest, threshold)
  }

  function SplitFrom(st: State, lines: seq<string>, threshold: int): (r: Result<State>)
    requires st.open ==> st.blocks != []
    decreases |lines|
  {
    if lines == [] then Ok(st)
    else
      match Step(st, lines[0], threshold)
      case Err(f) => Err(f)
      case Ok(next) => SplitFrom(next, lines[1..], threshold)
  }

  /** `splitIndex` over the lines of the full index. */
  function Split(lines: seq<string>, threshold: int): Result<State> {
    SplitFrom(Start, lines, threshold)
  }

  // ---------------------------------------------------------------------------
  // The loop
  // ---------------------------------------------------------------------------

  /** `done`, then whatever the rest of the parse gives. */
  function Prefixed(done: seq<int>, r: Option<seq<int>>): Option<seq<int>> {
    match r
    case None => None
    case Some(more) => Some(done + more)
  }

  lemma ParseLongsStep(words: seq<string>, k: nat, done: seq<int>)
    requires k < |words|
    ensures ParseLong(words[k]).None? ==> ParseLongs(words[k..]) == None
    ensures ParseLong(words[k]).Some? ==>
              Prefixed(done, ParseLongs(words[k..]))
              == Prefixed(done + [ParseLong(words[k]).value], ParseLongs(words[k + 1..]))
  {
    assert words[k..][0] == words[k];
    assert words[k..][1..] == words[k + 1..];
    var rest := ParseLongs(words[k + 1..]);
    if ParseLong(words[k]).Some? && rest.Some? {
      var n := ParseLong(words[k]).value;
      assert done + ([n] + rest.value) == (done + [n]) + rest.value;
    }
  }

  /** The loop over the tokens of a `StringTokenizer`. */
  method ParseNumbers(line: string) returns (r: Option<seq<int>>)
    ensures r == ParseLongs(Words(line, TokenizerDelimiters))
  {
    var words := Words(line, TokenizerDelimiters);
    var postingList: seq<int> := [];
    assert words[0..] == words;
    assert Prefixed([], ParseLongs(words)) == ParseLongs(words) by {
      if ParseLongs(words).Some? {
        assert [] + ParseLongs(words).value == ParseLongs(words).value;
      }
    }
    for k := 0 to |words|
      invariant ParseLongs(words) == Prefixed(postingList, ParseLongs(words[k..]))
    {
      ParseLongsStep(words, k, postingList);
      var n := ParseLong(words[k]);
      if n.None? {
        return None;
      }
      postingList := postingList + [n.value];
    }
    assert words[|words|..] == [];
    assert postingList + [] == postingList;
    r := Some(postingList);
  }

  /** The numbers of a kept line parsed and encoded into its record. */
  method ReadRecord(key: string, rest: string) returns (r: Result<IndexRecord>)
    ensures r == RecordOf(key, rest)
  {
    var numbers := ParseNumbers(rest);
    if numbers.None? {
      return Err(NumberFormat);
    }
    var lineBytes := Encode(numbers.value);
    if lineBytes.None? {
      return Err(IndexOutOfBounds);
    }
    r := Ok(IndexRecord(key, lineBytes.value));
  }

  /** The record written: a block opened if none is, the record appended
      to it, and the rollover. */
  method WriteRecord(st: State, record: IndexRecord, threshold: int) returns (r: State)
    requires st.open ==> st.blocks != []
    ensures r == Append(st, record, threshold)
  {
    var blocks, open, bytesWritten := st.blocks, st.open, st.bytesWritten;
    if !open {
      blocks := blocks + [Block(record.token + ".idx", [])];
    }
    AppendShape(st, record, threshold, blocks);
    var last := blocks[|blocks| - 1];
    blocks := blocks[..|blocks| - 1] + [Block(last.name, last.records + [record])];
    bytesWritten := bytesWritten + |record.bytes|;
    if bytesWritten >= threshold {
      open := false;
      bytesWritten := 0;
    } else {
      open := true;
    }
    r := State(blocks, st.dictionary, open, bytesWritten);
  }

  /** The loop body of `splitIndex` for a kept line, with the autocomplete
      side output left out: the dictionary line, then the record. */
  method KeepLine(st: State, token: string, rest: string, threshold: int) returns (r: Result<State>)
    requires st.open ==> st.blocks != []
    ensures r == Keep(st, token, token, rest, threshold)
  {
    var dictionary := st.dictionary;
    if IsLetters(token) {
      dictionary := dictionary + [token];
    }
    assert dictionary == st.dictionary + (if IsLetters(token) then [token] else []);
    var record := ReadRecord(token, rest);
    if record.Err? {
      return Err(record.fault);
    }
    var next := WriteRecord(st.(dictionary := dictionary), record.value, threshold);
    r := Ok(next);
  }

  lemma StepCut(st: State, line: string, threshold: int, token: string, rest: string)
    requires st.open ==> st.blocks != []
    requires Cut(line) == Ok((token, rest))
    ensures !Kept(token) ==> Step(st, line, threshold) == Ok(st)
    ensures Kept(token) ==> Step(st, line, threshold) == Keep(st, token, token, rest, threshold)
  {
  }

  /** `Append` written out the way the loop body does it. */
  lemma AppendShape(st: State, rec: IndexRecord, threshold: int, blocks: seq<Block>)
    requires st.open ==> st.blocks != []
    requires blocks == if st.open then st.blocks else st.blocks + [Block(rec.token + ".idx", [])]
    ensures var last := blocks[|blocks| - 1];
            var grown := blocks[..|blocks| - 1] + [Block(last.name, last.records + [rec])];
            var written := st.bytesWritten + |rec.bytes|;
            Append(st, rec, threshold)
            == if written >= threshold then State(grown, st.dictionary, false, 0)
               else State(grown, st.dictionary, true, written)
  {
  }

  lemma SplitFromStep(st: State, lines: seq<string>, k: nat, threshold: int)
    requires st.open ==> st.blocks != []
    requires k < |lines|
    ensures Step(st, lines[k], threshold).Err? ==>
              SplitFrom(st, lines[k..], threshold) == Err(Step(st, lines[k], threshold).fault)
    ensures Step(st, lines[k], threshold).Ok? ==>
              SplitFrom(st, lines[k..], threshold) == SplitFrom(Step(st, lines[k], threshold).value, lines[k + 1..], threshold)
  {
    assert lines[k..][0] == lines[k];
    assert lines[k..][1..] == lines[k + 1..];
  }

  /** `splitIndex`: the loop over the lines of the full index. */
  method SplitIndex(lines: seq<string>, threshold: int) returns (r: Result<State>)
    ensures r == Split(lines, threshold)
  {
    var st := Start;
    assert lines[0..] == lines;
    for k := 0 to |lines|
      invariant st.open ==> st.blocks != []
      invariant Split(lines, threshold) == SplitFrom(st, lines[k..], threshold)
    {
      SplitFromStep(st, lines, k, threshold);
      var cut := Cut(lines[k]);
      if cut.Err? {
        return Err(cut.fault);
      }
      var token, rest := cut.value.0, cut.value.1;
      StepCut(st, lines[k], threshold, token, rest);
      if |token| > MAX_TOKEN_LENGTH || MatchesDigit(token) {
        continue;
      }
      var next := KeepLine(st, token, rest, threshold);
      if next.Err? {
        return Err(next.fault);
      }
      st := next.value;
    }
    assert lines[|lines|..] == [];
    r := Ok(st);
  }

  // ---------------------------------------------------------------------------
  // What the split writes
  // ---------------------------------------------------------------------------

  /** The record a cut line becomes: None when the token is skipped, or
      the fault parsing or encoding throws. */
  function TokenRecord(token: string, rest: string): (r: Result<Option<IndexRecord>>)
    ensures r.Ok? && r.value.Some? ==> Kept(r.value.value.token)
  {
    if !Kept(token) then Ok(None)
    else
      match RecordOf(token, rest)
      case Err(f) => Err(f)
      case Ok(rec) => Ok(Some(rec))
  }

  /** The record a line of the full index becomes: None for a skipped
      line, or the fault the line throws. */
  function LineRecord(line: string): (r: Result<Option<IndexRecord>>)
    ensures r.Ok? && r.value.Some? ==> Kept(r.value.value.token)
  {
    match Cut(line)
    case Err(f) => Err(f)
    case Ok(cut) => TokenRecord(cut.0, cut.1)
  }

  /** What each line of the full index becomes. */
  function Outcomes(lines: seq<string>): (r: seq<Result<Option<IndexRecord>>>)
    ensures |r| == |lines| && forall k :: 0 <= k < |lines| ==> r[k] == LineRecord(lines[k])
  {
    seq(|lines|, k requires 0 <= k < |lines| => LineRecord(lines[k]))
  }

  /** The records of the kept lines, in order, or the fault of the first
      line that throws. */
  function Collect(outcomes: seq<Result<Option<IndexRecord>>>): Result<seq<IndexRecord>> {
    if outcomes == [] then Ok([])
    else
      match outcomes[0]
      case Err(f) => Err(f)
      case Ok(rec) =>
        match Collect(outcomes[1..])
        case Err(f) => Err(f)
        case Ok(recs) => Ok((if rec.Some? then [rec.value] else []) + recs)
  }

  /** The records the kept lines of the full index become. */
  function KeptRecords(lines: seq<string>): Result<seq<IndexRecord>> {
    Collect(Outcomes(lines))
  }

  lemma {:induction false} CollectKept(outcomes: seq<Result<Option<IndexRecord>>>)
    requires forall k :: 0 <= k < |outcomes| && outcomes[k].Ok? && outcomes[k].value.Some? ==> Kept(outcomes[k].value.value.token)
    requires Collect(outcomes).Ok?
    ensures forall k :: 0 <= k < |Collect(outcomes).value| ==> Kept(Collect(outcomes).value[k].token)
  {
    if outcomes != [] {
      var rest := outcomes[1..];
      assert forall k :: 0 <= k < |rest| ==> rest[k] == outcomes[k + 1];
      CollectKept(rest);
    }
  }

  /** Only kept tokens are written: no token longer than 20 characters, and
      none holding a digit. */
  lemma KeptRecordsKept(lines: seq<string>)
    requires KeptRecords(lines).Ok?
    ensures forall k :: 0 <= k < |KeptRecords(lines).value| ==> Kept(KeptRecords(lines).value[k].token)
  {
    CollectKept(Outcomes(lines));
  }

  /** The loop of `splitIndex` over what the lines become. */
  function WriteAll(st: State, outcomes: seq<Result<Option<IndexRecord>>>, threshold: int): Result<State>
    requires st.open ==> st.blocks != []
    decreases |outcomes|
  {
    if outcomes == [] then Ok(st)
    else
      match outcomes[0]
      case Err(f) => Err(f)
      case Ok(None) => WriteAll(st, outcomes[1..], threshold)
      case Ok(Some(rec)) =>
        var dictionary := st.dictionary + (if IsLetters(rec.token) then [rec.token] else []);
        WriteAll(Append(st.(dictionary := dictionary), rec, threshold), outcomes[1..], threshold)
  }

  lemma {:induction false} SplitFromWriteAll(st: State, lines: seq<string>, threshold: int)
    requires st.open ==> st.blocks != []
    ensures SplitFrom(st, lines, threshold) == WriteAll(st, Outcomes(lines), threshold)
    decreases |lines|
  {
    if lines != [] {
      StepRecord(st, lines[0], threshold);
      assert Outcomes(lines)[1..] == Outcomes(lines[1..]);
      var step := Step(st, lines[0], threshold);
      if step.Ok? {
        SplitFromWriteAll(step.value, lines[1..], threshold);
      }
    }
  }

  /** A kept token's pass of the loop in terms of its record. */
  lemma KeepRecord(st: State, token: string, rest: string, threshold: int)
    requires st.open ==> st.blocks != []
    requires Kept(token)
    ensures TokenRecord(token, rest).Err? ==> Keep(st, token, token, rest, threshold) == Err(TokenRecord(token, rest).fault)
    ensures TokenRecord(token, rest).Ok? ==>
              TokenRecord(token, rest).value.Some?
              && var rec := TokenRecord(token, rest).value.value;
                 Keep(st, token, token, rest, threshold)
                 == Ok(Append(st.(dictionary := st.dictionary + (if IsLetters(rec.token) then [rec.token] else [])), rec, threshold))
  {
  }

  /** One pass of the loop in terms of the line's record. */
  lemma StepRecord(st: State, line: string, threshold: int)
    requires st.open ==> st.blocks != []
    ensures LineRecord(line).Err? ==> Step(st, line, threshold) == Err(LineRecord(line).fault)
    ensures LineRecord(line) == Ok(None) ==> Step(st, line, threshold) == Ok(st)
    ensures LineRecord(line).Ok? && LineRecord(line).value.Some? ==>
              var rec := LineRecord(line).value.value;
              Step(st, line, threshold)
              == Ok(Append(st.(dictionary := st.dictionary + (if IsLetters(rec.token) then [rec.token] else [])), rec, threshold))
  {
    var c := Cut(line);
    if c.Ok? {
      var token, rest := c.value.0, c.value.1;
      StepCut(st, line, threshold, token, rest);
      assert LineRecord(line) == TokenRecord(token, rest);
      if Kept(token) {
        KeepRecord(st, token, rest, threshold);
      }
    }
  }

  /** The dictionary lines the records give: the tokens made of letters. */
  function LetterTokens(recs: seq<IndexRecord>): (r: seq<string>)
    ensures |r| <= |recs|
  {
    if recs == [] then []
    else (if IsLetters(recs[0].token) then [recs[0].token] else []) + LetterTokens(recs[1..])
  }

  /** A token is a dictionary line exactly when it is the token of a record
      and made of letters. */
  lemma {:induction false} LetterTokensMembers(recs: seq<IndexRecord>, t: string)
    ensures t in LetterTokens(recs) <==> IsLetters(t) && exists k :: 0 <= k < |recs| && recs[k].token == t
  {
    if recs != [] {
      LetterTokensMembers(recs[1..], t);
      if exists k :: 0 <= k < |recs| && recs[k].token == t {
        var k :| 0 <= k < |recs| && recs[k].token == t;
        if k > 0 {
          assert recs[1..][k - 1].token == t;
        }
      }
      if exists k :: 0 <= k < |recs[1..]| && recs[1..][k].token == t {
        var k :| 0 <= k < |recs[1..]| && recs[1..][k].token == t;
        assert recs[k + 1].token == t;
      }
    }
  }

  /** The records of the blocks, block after block. */
  function Flat(blocks: seq<Block>): seq<IndexRecord> {
    if blocks == [] then [] else Flat(blocks[..|blocks| - 1]) + Last(blocks).records
  }

  lemma {:induction false} FlatConcat(a: seq<Block>, b: seq<Block>)
    ensures Flat(a + b) == Flat(a) + Flat(b)
    decreases |b|
  {
    if b == [] {
      assert a + b == a;
    } else {
      var c := b[..|b| - 1];
      assert (a + b)[..|a + b| - 1] == a + c;
      FlatConcat(a, c);
    }
  }

  /** The compressed bytes of the records. */
  function Total(records: seq<IndexRecord>): nat {
    if records == [] then 0 else Total(records[..|records| - 1]) + |records[|records| - 1].bytes|
  }

  /** A block is named after the token of its first record. */
  predicate Named(b: Block) {
    b.records != [] && b.name == b.records[0].token + ".idx"
  }

  /** A block took its last record while below the threshold. */
  predicate Fills(b: Block, threshold: int) {
    |b.records| >= 2 ==> Total(b.records[..|b.records| - 1]) < threshold
  }

  /** A block has reached the threshold. */
  predicate Full(b: Block, threshold: int) {
    Total(b.records) >= threshold
  }

  /** The rollover invariant of the loop: every block is named after its
      first record and was below the threshold when it took its last record;
      every block but the open one reached the threshold; the open block
      holds `bytesWritten` bytes, below the threshold; with none open,
      `bytesWritten` is 0. */
  predicate Shaped(st: State, threshold: int) {
    (forall i :: 0 <= i < |st.blocks| ==> Named(st.blocks[i]) && Fills(st.blocks[i], threshold))
    && (forall i :: 0 <= i < |st.blocks| - 1 ==> Full(st.blocks[i], threshold))
    && if st.open then st.blocks != [] && Total(Last(st.blocks).records) == st.bytesWritten < threshold
       else st.bytesWritten == 0 && (st.blocks != [] ==> Full(Last(st.blocks), threshold))
  }

  /** Writing a record appends it to the records of the blocks. */
  lemma AppendFlat(st: State, rec: IndexRecord, threshold: int)
    requires st.open ==> st.blocks != []
    ensures Flat(Append(st, rec, threshold).blocks) == Flat(st.blocks) + [rec]
  {
    var blocks := if st.open then st.blocks else st.blocks + [Block(rec.token + ".idx", [])];
    assert Flat(blocks) == Flat(st.blocks) by {
      if !st.open {
        assert blocks[..|blocks| - 1] == st.blocks;
      }
    }
    var n := |blocks| - 1;
    var last := blocks[n];
    var grown := blocks[..n] + [Block(last.name, last.records + [rec])];
    assert grown[..n] == blocks[..n];
    assert Flat(grown) == Flat(blocks[..n]) + (last.records + [rec]);
  }

  lemma TotalSnoc(records: seq<IndexRecord>, rec: IndexRecord)
    ensures Total(records + [rec]) == Total(records) + |rec.bytes|
  {
    assert (records + [rec])[..|records|] == records;
  }

  /** Writing a record keeps the rollover invariant. */
  lemma AppendShaped(st: State, rec: IndexRecord, threshold: int)
    requires Shaped(st, threshold)
    ensures Shaped(Append(st, rec, threshold), threshold)
  {
    var blocks := if st.open then st.blocks else st.blocks + [Block(rec.token + ".idx", [])];
    var n := |blocks| - 1;
    var last := blocks[n];
    var records := last.records + [rec];
    var grown := blocks[..n] + [Block(last.name, records)];
    assert Total(last.records) == st.bytesWritten by {
      if !st.open {
        assert last.records == [];
      }
    }
    TotalSnoc(last.records, rec);
    assert records[..|last.records|] == last.records;
    var r := Append(st, rec, threshold);
    assert r.blocks == grown && |grown| == n + 1;
    forall i | 0 <= i <= n ensures Named(grown[i]) && Fills(grown[i], threshold) {
      if i < n {
        assert grown[i] == st.blocks[i];
      }
    }
    forall i | 0 <= i < n ensures Full(grown[i], threshold) {
      assert grown[i] == st.blocks[i];
      if i == |st.blocks| - 1 {
        assert !st.open && st.blocks[i] == Last(st.blocks);
      }
    }
    assert Last(r.blocks) == grown[n];
  }

  /** The loop fails exactly when some line throws, with the first
      fault. */
  lemma {:induction false} WriteAllFails(st: State, outcomes: seq<Result<Option<IndexRecord>>>, threshold: int)
    requires st.open ==> st.blocks != []
    ensures WriteAll(st, outcomes, threshold).Ok? <==> Collect(outcomes).Ok?
    ensures WriteAll(st, outcomes, threshold).Err? ==> WriteAll(st, outcomes, threshold).fault == Collect(outcomes).fault
    decreases |outcomes|
  {
    if outcomes != [] && outcomes[0].Ok? {
      var next := if outcomes[0].value.None? then st
                  else var rec := outcomes[0].value.value;
                       Append(st.(dictionary := st.dictionary + (if IsLetters(rec.token) then [rec.token] else [])), rec, threshold);
      assert WriteAll(st, outcomes, threshold) == WriteAll(next, outcomes[1..], threshold);
      WriteAllFails(next, outcomes[1..], threshold);
    }
  }

  /** Otherwise the records are appended to the blocks, in order. */
  lemma {:induction false} WriteAllBlocks(st: State, outcomes: seq<Result<Option<IndexRecord>>>, threshold: int)
    requires st.open ==> st.blocks != []
    requires WriteAll(st, outcomes, threshold).Ok? && Collect(outcomes).Ok?
    ensures Flat(WriteAll(st, outcomes, threshold).value.blocks) == Flat(st.blocks) + Collect(outcomes).value
    decreases |outcomes|
  {
    if outcomes == [] {
      assert Flat(st.blocks) + [] == Flat(st.blocks);
    } else if outcomes[0] == Ok(None) {
      WriteAllBlocks(st, outcomes[1..], threshold);
      assert [] + Collect(outcomes[1..]).value == Collect(outcomes[1..]).value;
    } else {
      var rec := outcomes[0].value.value;
      var st1 := st.(dictionary := st.dictionary + (if IsLetters(rec.token) then [rec.token] else []));
      var next := Append(st1, rec, threshold);
      AppendFlat(st1, rec, threshold);
      WriteAllBlocks(next, outcomes[1..], threshold);
      var recs := Collect(outcomes[1..]).value;
      assert Collect(outcomes) == Ok([rec] + recs);
      assert (Flat(st.blocks) + [rec]) + recs == Flat(st.blocks) + ([rec] + recs);
    }
  }

  /** and their letter tokens to the dictionary. */
  lemma {:induction false} WriteAllDictionary(st: State, outcomes: seq<Result<Option<IndexRecord>>>, threshold: int)
    requires st.open ==> st.blocks != []
    requires WriteAll(st, outcomes, threshold).Ok? && Collect(outcomes).Ok?
    ensures WriteAll(st, outcomes, threshold).value.dictionary == st.dictionary + LetterTokens(Collect(outcomes).value)
    decreases |outcomes|
  {
    if outcomes == [] {
      assert st.dictionary + [] == st.dictionary;
    } else if outcomes[0] == Ok(None) {
      WriteAllDictionary(st, outcomes[1..], threshold);
      assert [] + Collect(outcomes[1..]).value == Collect(outcomes[1..]).value;
    } else {
      var rec := outcomes[0].value.value;
      var letters := if IsLetters(rec.token) then [rec.token] else [];
      var st1 := st.(dictionary := st.dictionary + letters);
      WriteAllDictionary(Append(st1, rec, threshold), outcomes[1..], threshold);
      var recs := Collect(outcomes[1..]).value;
      assert Collect(outcomes) == Ok([rec] + recs);
      assert LetterTokens([rec] + recs) == letters + LetterTokens(recs) by {
        assert ([rec] + recs)[1..] == recs;
      }
      assert (st.dictionary + letters) + LetterTokens(recs) == st.dictionary + (letters + LetterTokens(recs));
    }
  }

  /** The loop keeps the rollover invariant. */
  lemma {:induction false} WriteAllShaped(st: State, outcomes: seq<Result<Option<IndexRecord>>>, threshold: int)
    requires Shaped(st, threshold)
    requires WriteAll(st, outcomes, threshold).Ok?
    ensures Shaped(WriteAll(st, outcomes, threshold).value, threshold)
    decreases |outcomes|
  {
    if outcomes != [] {
      if outcomes[0] == Ok(None) {
        WriteAllShaped(st, outcomes[1..], threshold);
      } else {
        var rec := outcomes[0].value.value;
        var st1 := st.(dictionary := st.dictionary + (if IsLetters(rec.token) then [rec.token] else []));
        AppendShaped(st1, rec, threshold);
        WriteAllShaped(Append(st1, rec, threshold), outcomes[1..], threshold);
      }
    }
  }

  /** `splitIndex` over the whole full index. */
  lemma SplitMeaning(lines: seq<string>, threshold: int)
    ensures Split(lines, threshold).Ok? <==> KeptRecords(lines).Ok?
    ensures Split(lines, threshold).Err? ==> Split(lines, threshold).fault == KeptRecords(lines).fault
    ensures Split(lines, threshold).Ok? ==>
              var out := Split(lines, threshold).value;
              var recs := KeptRecords(lines).value;
              Flat(out.blocks) == recs && out.dictionary == LetterTokens(recs) && Shaped(out, threshold)
  {
    SplitFromWriteAll(Start, lines, threshold);
    WriteAllFails(Start, Outcomes(lines), threshold);
    if Split(lines, threshold).Ok? {
      WriteAllBlocks(Start, Outcomes(lines), threshold);
      WriteAllDictionary(Start, Outcomes(lines), threshold);
      WriteAllShaped(Start, Outcomes(lines), threshold);
    }
  }

  // ---------------------------------------------------------------------------
  // Finding a record again
  // ---------------------------------------------------------------------------

  /** The records of one block sit, in order, between those of the blocks
      before it and those after it. */
  lemma FlatAt(blocks: seq<Block>, i: nat)
    requires i < |blocks|
    ensures Flat(blocks) == Flat(blocks[..i]) + blocks[i].records + Flat(blocks[i + 1..])
  {
    assert Flat(blocks) == Flat(blocks[..i + 1]) + Flat(blocks[i + 1..]) by {
      assert blocks == blocks[..i + 1] + blocks[i + 1..];
      FlatConcat(blocks[..i + 1], blocks[i + 1..]);
    }
    FlatPrefixSnoc(blocks, i);
  }

  /** The records of the first `i + 1` blocks: those of the first `i`, then
      those of block `i`. */
  lemma FlatPrefixSnoc(blocks: seq<Block>, i: nat)
    requires i < |blocks|
    ensures Flat(blocks[..i + 1]) == Flat(blocks[..i]) + blocks[i].records
  {
    assert blocks[..i + 1][..i] == blocks[..i];
  }

  /** The records of later blocks come after those of earlier ones. */
  lemma OffsetsGrow(blocks: seq<Block>, i: nat, j: nat)
    requires i < j <= |blocks|
    ensures |Flat(blocks[..i])| + |blocks[i].records| <= |Flat(blocks[..j])|
  {
    assert blocks[..j] == blocks[..i + 1] + blocks[i + 1..j];
    FlatConcat(blocks[..i + 1], blocks[i + 1..j]);
    assert blocks[..i + 1][..i] == blocks[..i];
  }

  /** The block and the place in it of the record at `q` of `Flat(blocks)`. */
  lemma {:induction false} Locate(blocks: seq<Block>, q: nat) returns (b: nat, p: nat)
    requires q < |Flat(blocks)|
    ensures b < |blocks| && p < |blocks[b].records|
    ensures |Flat(blocks[..b])| + p == q && blocks[b].records[p] == Flat(blocks)[q]
    decreases |blocks|
  {
    var n := |blocks| - 1;
    var front := blocks[..n];
    if q < |Flat(front)| {
      b, p := Locate(front, q);
      assert front[..b] == blocks[..b];
    } else {
      b, p := n, q - |Flat(front)|;
      assert blocks[..b] == front;
      assert Flat(blocks) == Flat(front) + blocks[n].records;
    }
  }

  /** The tokens of the records strictly ascend. */
  predicate TokensAscend(records: seq<IndexRecord>) {
    forall i, j :: 0 <= i < j < |records| ==> Less(records[i].token, records[j].token)
  }

  /** Every character of `s` sorts after '.': such names keep their order
      when ".idx" is appended. */
  predicate Plain(s: string) {
    forall i :: 0 <= i < |s| ==> '.' < s[i]
  }

  lemma {:induction false} LessWithSuffix(a: string, b: string)
    requires Plain(a) && Plain(b)
    ensures Less(a + ".idx", b + ".idx") <==> Less(a, b)
    decreases |a|
  {
    var x, y := a + ".idx", b + ".idx";
    if a == [] {
      if b == [] {
        assert x == ".idx" && y == ".idx";
        LessIrreflexive(".idx");
      } else {
        assert x[0] == '.' && y[0] == b[0];
      }
    } else if b == [] {
      assert x[0] == a[0] && y[0] == '.';
    } else {
      assert x[0] == a[0] && y[0] == b[0];
      assert x[1..] == a[1..] + ".idx" && y[1..] == b[1..] + ".idx";
      LessWithSuffix(a[1..], b[1..]);
    }
  }

  /** The index directory the blocks make: each block's file under its
      name. */
  function DirectoryOf(blocks: seq<Block>): Directory {
    if blocks == [] then map[] else DirectoryOf(blocks[..|blocks| - 1])[Last(blocks).name := Last(blocks).records]
  }

  function Names(blocks: seq<Block>): (r: seq<string>)
    ensures |r| == |blocks| && forall i :: 0 <= i < |blocks| ==> r[i] == blocks[i].name
  {
    seq(|blocks|, i requires 0 <= i < |blocks| => blocks[i].name)
  }

  /** With distinct names, the directory holds exactly the blocks. */
  lemma {:induction false} DirectoryOfBlocks(blocks: seq<Block>)
    requires forall i, j :: 0 <= i < j < |blocks| ==> blocks[i].name != blocks[j].name
    ensures forall x :: x in DirectoryOf(blocks).Keys <==> x in Names(blocks)
    ensures forall i :: 0 <= i < |blocks| ==> DirectoryOf(blocks)[blocks[i].name] == blocks[i].records
    decreases |blocks|
  {
    if blocks != [] {
      var n := |blocks| - 1;
      var front := blocks[..n];
      DirectoryOfBlocks(front);
      var dir := DirectoryOf(blocks);
      assert dir == DirectoryOf(front)[blocks[n].name := blocks[n].records];
      forall i | 0 <= i < |blocks| ensures dir[blocks[i].name] == blocks[i].records {
        if i < n {
          assert front[i] == blocks[i] && blocks[i].name != blocks[n].name;
        }
      }
      forall x ensures x in DirectoryOf(blocks).Keys <==> x in Names(blocks) {
        if x in Names(front) {
          var i :| 0 <= i < n && Names(front)[i] == x;
          assert Names(blocks)[i] == x;
        }
        if x in Names(blocks) {
          var i :| 0 <= i <= n && Names(blocks)[i] == x;
          if i < n {
            assert Names(front)[i] == x;
          }
        }
      }
    }
  }

  /** Blocks named after their first records, over records whose tokens
      ascend: the blocks' first tokens ascend too. */
  lemma FirstTokensAscend(blocks: seq<Block>, i: nat, j: nat)
    requires forall k :: 0 <= k < |blocks| ==> Named(blocks[k])
    requires TokensAscend(Flat(blocks))
    requires i < j < |blocks|
    ensures blocks[i].records != [] && blocks[j].records != []
            && Less(blocks[i].records[0].token, blocks[j].records[0].token)
  {
    assert Named(blocks[i]) && Named(blocks[j]);
    FlatAt(blocks, i);
    FlatAt(blocks, j);
    OffsetsGrow(blocks, i, j);
    assert Flat(blocks)[|Flat(blocks[..i])|] == blocks[i].records[0];
    assert Flat(blocks)[|Flat(blocks[..j])|] == blocks[j].records[0];
  }

  /** A block named after its first record, over plain tokens: an index
      file name whose stem is that record's token. */
  lemma NamedBlock(blocks: seq<Block>, k: nat)
    requires forall k :: 0 <= k < |blocks| ==> Named(blocks[k])
    requires forall k :: 0 <= k < |Flat(blocks)| ==> Plain(Flat(blocks)[k].token)
    requires k < |blocks|
    ensures blocks[k].records != [] && Plain(blocks[k].records[0].token)
    ensures IsIndexName(blocks[k].name) && Stem(blocks[k].name) == blocks[k].records[0].token
  {
    assert Named(blocks[k]);
    FlatAt(blocks, k);
    assert Flat(blocks)[|Flat(blocks[..k])|] == blocks[k].records[0];
    var t := blocks[k].records[0].token;
    assert forall c :: 0 <= c < |t| ==> t[c] != '.';
    assert '.' !in t;
    StemOfPlain(t);
  }

  /** Two blocks in file order: their names ascend, and so do their stems. */
  lemma NamedPairAscends(blocks: seq<Block>, i: nat, j: nat)
    requires forall k :: 0 <= k < |blocks| ==> Named(blocks[k])
    requires TokensAscend(Flat(blocks))
    requires forall k :: 0 <= k < |Flat(blocks)| ==> Plain(Flat(blocks)[k].token)
    requires i < j < |blocks|
    ensures IsIndexName(blocks[i].name) && IsIndexName(blocks[j].name)
    ensures Less(blocks[i].name, blocks[j].name) && Less(Stem(blocks[i].name), Stem(blocks[j].name))
  {
    NamedBlock(blocks, i);
    NamedBlock(blocks, j);
    FirstTokensAscend(blocks, i, j);
    LessWithSuffix(blocks[i].records[0].token, blocks[j].records[0].token);
  }

  /** The whole file names then ascend in `compareTo` order, and so do their
      stems. */
  lemma NamesAscend(blocks: seq<Block>)
    requires forall k :: 0 <= k < |blocks| ==> Named(blocks[k])
    requires TokensAscend(Flat(blocks))
    requires forall k :: 0 <= k < |Flat(blocks)| ==> Plain(Flat(blocks)[k].token)
    ensures IsAscendingNames(Names(blocks)) && StemsAscend(Names(blocks))
    ensures forall k :: 0 <= k < |blocks| ==>
              IsIndexName(blocks[k].name) && blocks[k].records != [] && Stem(blocks[k].name) == blocks[k].records[0].token
  {
    forall k | 0 <= k < |blocks|
      ensures IsIndexName(blocks[k].name) && blocks[k].records != [] && Stem(blocks[k].name) == blocks[k].records[0].token
    {
      NamedBlock(blocks, k);
    }
    var names := Names(blocks);
    forall i, j | 0 <= i < j < |names| ensures Less(names[i], names[j]) && Less(Stem(names[i]), Stem(names[j])) {
      NamedPairAscends(blocks, i, j);
    }
  }

  /** Within one block, the tokens ascend too. */
  lemma BlockAscends(blocks: seq<Block>, b: nat)
    requires TokensAscend(Flat(blocks)) && b < |blocks|
    ensures TokensAscend(blocks[b].records)
  {
    FlatAt(blocks, b);
    var flat, offset := Flat(blocks), |Flat(blocks[..b])|;
    assert blocks[b].records == flat[offset..offset + |blocks[b].records|];
  }

  /** Over ascending tokens, the scan stops at the record sought. */
  lemma ScanFinds(records: seq<IndexRecord>, p: nat)
    requires TokensAscend(records) && p < |records|
    ensures Scan(records, records[p].token) == Some(records[p].bytes)
  {
    var t := records[p].token;
    LessIrreflexive(t);
    assert forall j :: p < j < |records| ==> records[j].token != t;
    var r := Scan(records, t);
    assert r.Some? by {
      assert records[p].token == t;
    }
    var k :| 0 <= k < |records| && records[k].token == t && records[k].bytes == r.value
             && forall k2 :: 0 <= k2 < k ==> records[k2].token != t;
  }

  /** The directory the blocks make lists their names in block order, with
      each block's records under its name. */
  lemma DirectoryNames(blocks: seq<Block>)
    requires forall k :: 0 <= k < |blocks| ==> Named(blocks[k])
    requires TokensAscend(Flat(blocks))
    requires forall k :: 0 <= k < |Flat(blocks)| ==> Plain(Flat(blocks)[k].token)
    ensures AscendingNames(DirectoryOf(blocks).Keys) == Names(blocks) && StemsAscend(Names(blocks))
    ensures forall i :: 0 <= i < |blocks| ==> DirectoryOf(blocks)[blocks[i].name] == blocks[i].records
  {
    var names := Names(blocks);
    NamesAscend(blocks);
    forall i, j | 0 <= i < j < |blocks| ensures blocks[i].name != blocks[j].name {
      assert Less(names[i], names[j]);
      LessIrreflexive(names[i]);
    }
    DirectoryOfBlocks(blocks);
    AscendingNamesUnique(names, DirectoryOf(blocks).Keys);
  }

  /** Routing over the directory the blocks make picks block `b` when it is
      the last one whose first token does not sort after `t`. */
  lemma RouteToBlock(blocks: seq<Block>, t: string, b: nat)
    requires forall k :: 0 <= k < |blocks| ==> Named(blocks[k])
    requires TokensAscend(Flat(blocks))
    requires forall k :: 0 <= k < |Flat(blocks)| ==> Plain(Flat(blocks)[k].token)
    requires b < |blocks| && Below(blocks[b].name, t)
    requires forall j :: b < j < |blocks| ==> !Below(blocks[j].name, t)
    ensures Route(DirectoryOf(blocks), t) == Some(blocks[b].name)
  {
    var names := Names(blocks);
    DirectoryNames(blocks);
    RouteIsLastBelow(names, t, None);
    assert names[b] == blocks[b].name;
    LastBelowIs(names, t, b);
  }

  /** The block holding the record at `b`, `p` is the last one whose first
      token does not sort after the record's token. */
  lemma LastBlockBelow(blocks: seq<Block>, b: nat, p: nat)
    requires forall k :: 0 <= k < |blocks| ==> Named(blocks[k])
    requires TokensAscend(Flat(blocks))
    requires forall k :: 0 <= k < |Flat(blocks)| ==> Plain(Flat(blocks)[k].token)
    requires b < |blocks| && p < |blocks[b].records|
    ensures Below(blocks[b].name, blocks[b].records[p].token)
    ensures forall j :: b < j < |blocks| ==> !Below(blocks[j].name, blocks[b].records[p].token)
  {
    var t := blocks[b].records[p].token;
    NamesAscend(blocks);
    FlatAt(blocks, b);
    assert Flat(blocks)[|Flat(blocks[..b])| + p] == blocks[b].records[p];
    assert Below(blocks[b].name, t) by {
      var first := blocks[b].records[0].token;
      LessIrreflexive(t);
      if p > 0 {
        assert Flat(blocks)[|Flat(blocks[..b])|] == blocks[b].records[0];
        assert Less(first, t);
        if Less(t, first) {
          LessTransitive(t, first, t);
        }
      }
    }
    forall j | b < j < |blocks| ensures !Below(blocks[j].name, t) {
      OffsetsGrow(blocks, b, j);
      FlatAt(blocks, j);
      assert Flat(blocks)[|Flat(blocks[..j])|] == blocks[j].records[0];
    }
  }

  /** A lookup in the directory the blocks make finds every record: routing
      picks the record's block, and the scan stops at the record. Tokens
      must ascend and sort their characters after '.'. */
  lemma LookupFindsRecord(blocks: seq<Block>, q: nat)
    requires forall k :: 0 <= k < |blocks| ==> Named(blocks[k])
    requires TokensAscend(Flat(blocks))
    requires forall k :: 0 <= k < |Flat(blocks)| ==> Plain(Flat(blocks)[k].token)
    requires q < |Flat(blocks)|
    ensures Lookup(DirectoryOf(blocks), Flat(blocks)[q].token) == Ok(Some(Flat(blocks)[q].bytes))
  {
    var b, p := Locate(blocks, q);
    LastBlockBelow(blocks, b, p);
    RouteToBlock(blocks, Flat(blocks)[q].token, b);
    DirectoryNames(blocks);
    BlockAscends(blocks, b);
    ScanFinds(blocks[b].records, p);
  }

  /** `splitIndex` then `loadIndexFor`: when the kept tokens of the full
      index ascend and sort their characters after '.', a lookup in the
      directory the split writes finds every kept record. */
  lemma SplitThenLookup(lines: seq<string>, threshold: int, k: nat)
    requires KeptRecords(lines).Ok?
    requires TokensAscend(KeptRecords(lines).value)
    requires forall i :: 0 <= i < |KeptRecords(lines).value| ==> Plain(KeptRecords(lines).value[i].token)
    requires k < |KeptRecords(lines).value|
    ensures Split(lines, threshold).Ok?
    ensures Lookup(DirectoryOf(Split(lines, threshold).value.blocks), KeptRecords(lines).value[k].token)
            == Ok(Some(KeptRecords(lines).value[k].bytes))
  {
    SplitMeaning(lines, threshold);
    LookupFindsRecord(Split(lines, threshold).value.blocks, k);
  }

  // ---------------------------------------------------------------------------
  // The autocomplete branch as written
  // ---------------------------------------------------------------------------

  /** The key a kept token is written under, and the autocomplete file's
      letter after it, as the loop is written: a lower-case token of two or
      more letters whose first letter is not the current file's starts a new
      autocomplete file, and `token` itself is reassigned to its JSON text
      `"token",`, which then names the block and keys the record. */
  function KeyAsWritten(token: string, json: char): (string, char) {
    if |token| > 1 && IsLowerLetters(token) && token[0] != json then ("\"" + token + "\",", token[0])
    else (token, json)
  }

  function StepAsWritten(st: State, json: char, line: string, threshold: int): (r: Result<(State, char)>)
    requires st.open ==> st.blocks != []
    ensures r.Ok? ==> r.value.0.open ==> r.value.0.blocks != []
  {
    match Cut(line)
    case Err(f) => Err(f)
    case Ok(cut) =>
      if !Kept(cut.0) then Ok((st, json))
      else
        var key := KeyAsWritten(cut.0, json);
        match Keep(st, cut.0, key.0, cut.1, threshold)
        case Err(f) => Err(f)
        case Ok(next) => Ok((next, key.1))
  }

  function SplitFromAsWritten(st: State, json: char, lines: seq<string>, threshold: int): Result<State>
    requires st.open ==> st.blocks != []
    decreases |lines|
  {
    if lines == [] then Ok(st)
    else
      match StepAsWritten(st, json, lines[0], threshold)
      case Err(f) => Err(f)
      case Ok(next) => SplitFromAsWritten(next.0, next.1, lines[1..], threshold)
  }

  /** `splitIndex` as written, the autocomplete letter starting at ']'. */
  function SplitAsWritten(lines: seq<string>, threshold: int): Result<State> {
    SplitFromAsWritten(Start, ']', lines, threshold)
  }

  /** The directory of one block. */
  lemma DirectoryOfOne(b: Block)
    ensures DirectoryOf([b]) == map[b.name := b.records]
  {
    assert [b][..0] == [];
  }

  /** A directory of one block, named after a stem without a dot: a
      token that does not sort before the stem is looked up in it. */
  lemma LookupOneBlock(stem: string, records: seq<IndexRecord>, t: string)
    requires '.' !in stem && !Less(t, stem)
    ensures Lookup(DirectoryOf([Block(stem + ".idx", records)]), t) == Ok(Scan(records, t))
  {
    var name := stem + ".idx";
    DirectoryOfOne(Block(name, records));
    var dir := map[name := records];
    assert dir.Keys == {name};
    RouteOne(stem, dir.Keys, t);
  }

  /** Routing over a directory of one index file. */
  lemma RouteOne(stem: string, keys: set<string>, t: string)
    requires '.' !in stem && !Less(t, stem) && keys == {stem + ".idx"}
    ensures RouteIn(AscendingNames(keys), t, None) == Some(stem + ".idx")
  {
    var name := stem + ".idx";
    StemOfPlain(stem);
    AscendingNamesUnique([name], keys);
    assert [name][1..] == [];
  }

  /** The as-written split of one kept line whose token is two or more
      lower-case letters. */
  lemma AsWrittenOneLine(line: string, threshold: int)
    requires Cut(line).Ok? && Kept(Cut(line).value.0)
    requires |Cut(line).value.0| > 1 && IsLowerLetters(Cut(line).value.0)
    requires RecordOf(Cut(line).value.0, Cut(line).value.1).Ok?
    ensures var json := "\"" + Cut(line).value.0 + "\",";
            var bytes := RecordOf(Cut(line).value.0, Cut(line).value.1).value.bytes;
            SplitAsWritten([line], threshold).Ok?
            && SplitAsWritten([line], threshold).value.blocks == [Block(json + ".idx", [IndexRecord(json, bytes)])]
  {
    var token, rest := Cut(line).value.0, Cut(line).value.1;
    var json := "\"" + token + "\",";
    assert KeyAsWritten(token, ']') == (json, token[0]);
    var rec := IndexRecord(json, RecordOf(token, rest).value.bytes);
    assert RecordOf(json, rest) == Ok(rec);
    var st1 := Start.(dictionary := Start.dictionary + (if IsLetters(token) then [token] else []));
    var next := Append(st1, rec, threshold);
    assert Keep(Start, token, json, rest, threshold) == Ok(next);
    assert StepAsWritten(Start, ']', line, threshold) == Ok((next, token[0]));
    assert next.blocks == [Block(json + ".idx", [rec])] by {
      AppendShape(st1, rec, threshold, [Block(json + ".idx", [])]);
      assert [Block(json + ".idx", [])][..0] == [];
      assert [] + [rec] == [rec];
    }
    assert [line][1..] == [];
    assert SplitAsWritten([line], threshold) == SplitFromAsWritten(next, token[0], [], threshold);
  }

  /** The corrected split of one kept line. */
  lemma SplitOneLine(line: string, threshold: int)
    requires Cut(line).Ok? && Kept(Cut(line).value.0)
    requires RecordOf(Cut(line).value.0, Cut(line).value.1).Ok?
    ensures Split([line], threshold).Ok?
            && Split([line], threshold).value.blocks
               == [Block(Cut(line).value.0 + ".idx", [RecordOf(Cut(line).value.0, Cut(line).value.1).value])]
  {
    var token, rest := Cut(line).value.0, Cut(line).value.1;
    StepCut(Start, line, threshold, token, rest);
    var rec := RecordOf(token, rest).value;
    var st1 := Start.(dictionary := Start.dictionary + (if IsLetters(token) then [token] else []));
    var next := Append(st1, rec, threshold);
    assert Step(Start, line, threshold) == Ok(next);
    assert next.blocks == [Block(token + ".idx", [rec])] by {
      AppendShape(st1, rec, threshold, [Block(token + ".idx", [])]);
      assert [Block(token + ".idx", [])][..0] == [];
      assert [] + [rec] == [rec];
    }
    assert [line][1..] == [];
    assert Split([line], threshold) == SplitFrom(next, [], threshold);
  }

  /** A full index of one line whose token is two or more lower-case
      letters: as written, the block is named after the token's JSON text
      and the record keyed by it, so the lookup of the token reads that
      block and finds nothing; the corrected split names the block after
      the token, and the lookup finds the record. */
  lemma AsWrittenLosesToken(line: string, threshold: int)
    requires Cut(line).Ok? && Kept(Cut(line).value.0)
    requires |Cut(line).value.0| > 1 && IsLowerLetters(Cut(line).value.0)
    requires RecordOf(Cut(line).value.0, Cut(line).value.1).Ok?
    ensures SplitAsWritten([line], threshold).Ok?
            && Lookup(DirectoryOf(SplitAsWritten([line], threshold).value.blocks), Cut(line).value.0) == Ok(None)
    ensures Split([line], threshold).Ok?
            && Lookup(DirectoryOf(Split([line], threshold).value.blocks), Cut(line).value.0)
               == Ok(Some(RecordOf(Cut(line).value.0, Cut(line).value.1).value.bytes))
  {
    var token, rest := Cut(line).value.0, Cut(line).value.1;
    var json := "\"" + token + "\",";
    var rec := RecordOf(token, rest).value;
    AsWrittenOneLine(line, threshold);
    assert '.' !in json && json[0] == '"';
    assert !Less(token, json);
    LookupOneBlock(json, [IndexRecord(json, rec.bytes)], token);
    assert Scan([IndexRecord(json, rec.bytes)], token) == None by {
      assert json != token;
    }
    SplitOneLine(line, threshold);
    assert '.' !in token by {
      assert forall i :: 0 <= i < |token| ==> token[i] != '.';
    }
    LessIrreflexive(token);
    LookupOneBlock(token, [rec], token);
  }
}
