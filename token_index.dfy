/** The in-memory index of `IndexerInvertedCompressed` as values: how
    `processDocument` records a body's tokens, how a word is loaded from
    the index files on demand, the three frequencies, and the documents a
    phrase occurs in. The class that holds this state is in module
    `InvertedIndex`. */
module TokenIndex {
  import opened Wrappers
  import opened JavaInt
  import opened Ordered
  import opened Compressor
  import opened Postings
  import opened IndexFiles
  import opened QueryEval

  /** `indexFromToken`: token to the position lists of its documents. */
  type Index = map<string, Occurrences>

  /** `DocumentIndexed`: the page rank is a float and is not modelled. */
  datatype Doc = Doc(url: string, docid: int, size: int, title: string)

  // ---------------------------------------------------------------------------
  // processDocument
  // ---------------------------------------------------------------------------

  /** One pass of `processDocument`'s loop: the token gets an empty map if
      it is new, the document an empty list if it is new, and the offset is
      appended. */
  function Record(index: Index, token: string, docId: int, i: int): Index {
    var m := if token in index then index[token] else map[];
    var ps := if docId in m then m[docId] else [];
    index[token := m[docId := ps + [i]]]
  }

  /** The whole loop: the k-th word is recorded at offset k. */
  function AddAll(index: Index, words: seq<string>, docId: int): Index {
    if words == [] then index
    else Record(AddAll(index, words[..|words| - 1], docId), words[|words| - 1], docId, |words| - 1)
  }

  /** The offsets at which `t` occurs in `words`, ascending. */
  function PositionsOf(words: seq<string>, t: string): (r: seq<int>)
    ensures IsAscending(r)
    ensures forall p :: p in r <==> 0 <= p < |words| && words[p] == t
  {
    if words == [] then []
    else
      var n := |words| - 1;
      var pre := PositionsOf(words[..n], t);
      assert forall p :: 0 <= p < n ==> words[..n][p] == words[p];
      assert forall k :: 0 <= k < |pre| ==> pre[k] < n by {
        forall k | 0 <= k < |pre| ensures pre[k] < n {
          assert pre[k] in pre;
        }
      }
      pre + (if words[n] == t then [n] else [])
  }

  /** Offsets of different tokens never meet, and every offset of the body
      belongs to the token at that offset: the offsets 0..n-1 are each
      recorded once. */
  lemma OffsetsPartition(words: seq<string>, t: string, u: string, k: nat)
    requires k < |words|
    ensures k in PositionsOf(words, words[k])
    ensures t != u ==> !(k in PositionsOf(words, t) && k in PositionsOf(words, u))
  {
  }

  /** A token absent from the body has no offsets. */
  lemma AbsentNoPositions(words: seq<string>, t: string)
    requires t !in words
    ensures PositionsOf(words, t) == []
  {
  }

  /** `processDocument` leaves the other documents of every token alone. */
  lemma {:induction false} AddAllKeepsOthers(index: Index, words: seq<string>, docId: int, t: string, d: int)
    requires d != docId
    ensures var r := AddAll(index, words, docId);
            (t in index ==> t in r)
            && (t in r && d in r[t] <==> t in index && d in index[t])
            && (t in r && d in r[t] ==> r[t][d] == index[t][d])
  {
    if words != [] {
      AddAllKeepsOthers(index, words[..|words| - 1], docId, t, d);
    }
  }

  /** For a document the index has not seen, each token of the body maps
      the document to exactly the offsets where it occurs, so every list is
      strictly increasing; tokens not in the body do not gain the
      document. */
  lemma {:induction false} AddAllFresh(index: Index, words: seq<string>, docId: int, t: string)
    requires forall x :: x in index ==> docId !in index[x]
    ensures var r := AddAll(index, words, docId);
            (t in r <==> t in index || t in words)
            && (t in r ==> (docId in r[t] <==> t in words))
            && (t in words ==> r[t][docId] == PositionsOf(words, t))
  {
    if words != [] {
      var n := |words| - 1;
      var pre := words[..n];
      AddAllFresh(index, pre, docId, t);
      assert PositionsOf(words, t) == PositionsOf(pre, t) + (if words[n] == t then [n] else []);
      if t !in pre {
        AbsentNoPositions(pre, t);
      }
      assert t in words <==> t in pre || t == words[n] by {
        if t in words {
          var k :| 0 <= k < |words| && words[k] == t;
          if k < n {
            assert pre[k] == t;
          }
        }
      }
    }
  }

  // ---------------------------------------------------------------------------
  // Loading a word at query time
  // ---------------------------------------------------------------------------

  /** `buildIndexFor(token, bytes)`: a token the index already holds is
      kept; otherwise bytes, when there are any, are read into the token's
      map, and a read that runs past the decoded numbers throws. */
  function Built(index: Index, token: string, bytes: Option<seq<Byte>>): Result<Index> {
    if token in index then Ok(index)
    else
      match bytes
      case None => Ok(index)
      case Some(b) =>
        match Restored(b)
        case Err(f) => Err(f)
        case Ok(m) => Ok(index[token := m])
  }

  /** The word branch of `getDocsWithToken`: ask the organizer (which may
      throw), then build. */
  ghost function LoadWord(index: Index, dir: Directory, token: string): Result<Index> {
    match Lookup(dir, token)
    case Err(f) => Err(f)
    case Ok(bytes) => Built(index, token, bytes)
  }

  /** Loading each word of `tokens` in turn. */
  ghost function LoadWords(index: Index, dir: Directory, tokens: seq<string>): Result<Index>
    decreases |tokens|
  {
    if tokens == [] then Ok(index)
    else
      var first := LoadWord(index, dir, tokens[0]);
      if first.Err? then first else LoadWords(first.value, dir, tokens[1..])
  }

  /** A word whose load changes nothing any more: the lookup succeeds and
      either the word is in the index or the files do not have it. */
  ghost predicate Settled(index: Index, dir: Directory, token: string) {
    Lookup(dir, token).Ok? && (token in index || Lookup(dir, token).value.None?)
  }

  /** What `getDocsWithToken` returns for a word: the documents of the
      word, or null when the index does not hold it. */
  function DocSet(index: Index, token: string): Option<set<int>> {
    if token in index then Some(index[token].Keys) else None
  }

  /** The sets `getDocsWithTokens` intersects, one per token. */
  function DocSets(index: Index, tokens: seq<string>): (r: seq<Option<set<int>>>)
    ensures |r| == |tokens| && forall k :: 0 <= k < |tokens| ==> r[k] == DocSet(index, tokens[k])
  {
    if tokens == [] then [] else [DocSet(index, tokens[0])] + DocSets(index, tokens[1..])
  }

  /** A successful load only adds the word, leaves it settled, and loading
      it again changes nothing. */
  lemma LoadWordSettles(index: Index, dir: Directory, token: string)
    requires LoadWord(index, dir, token).Ok?
    ensures var next := LoadWord(index, dir, token).value;
            Settled(next, dir, token)
            && LoadWord(next, dir, token) == Ok(next)
            && (forall x :: x in index ==> x in next && next[x] == index[x])
            && (forall x :: x in next && x != token ==> x in index)
  {
  }

  /** Loading other words keeps a settled word settled, with the same
      entry. */
  lemma LoadWordKeepsSettled(index: Index, dir: Directory, token: string, t: string)
    requires LoadWord(index, dir, token).Ok? && Settled(index, dir, t)
    ensures var next := LoadWord(index, dir, token).value;
            Settled(next, dir, t) && DocSet(next, t) == DocSet(index, t)
            && (t in index ==> next[t] == index[t])
  {
  }

  /** A settled word loads without effect. */
  lemma SettledLoad(index: Index, dir: Directory, token: string)
    requires Settled(index, dir, token)
    ensures LoadWord(index, dir, token) == Ok(index)
  {
  }

  // ---------------------------------------------------------------------------
  // Frequencies
  // ---------------------------------------------------------------------------

  /** `documentTermFrequency`'s loop: the position count of the first
      document (in `docs` order) whose URL is `url`, or 0; a document id
      without a document throws. */
  function UrlFrequency(m: Occurrences, docIndex: map<int, Doc>, docs: seq<int>, url: string): (r: Result<int>)
    requires forall k :: 0 <= k < |docs| ==> docs[k] in m
    ensures r.Ok? ==> r.value >= 0
  {
    if docs == [] then Ok(0)
    else if docs[0] !in docIndex then Err(NullReference)
    else if docIndex[docs[0]].url == url then Ok(|m[docs[0]]|)
    else UrlFrequency(m, docIndex, docs[1..], url)
  }

  /** With every id a document, the frequency is that of the first
      document with the URL, and 0 when none has it; a missing document
      before any match throws. */
  lemma {:induction false} UrlFrequencyMeaning(m: Occurrences, docIndex: map<int, Doc>, docs: seq<int>, url: string)
    requires forall k :: 0 <= k < |docs| ==> docs[k] in m
    ensures var r := UrlFrequency(m, docIndex, docs, url);
            ((forall k :: 0 <= k < |docs| ==> docs[k] in docIndex) ==> r.Ok?)
            && ((forall k :: 0 <= k < |docs| ==> docs[k] in docIndex && docIndex[docs[k]].url != url) ==> r == Ok(0))
            && (forall k :: 0 <= k < |docs| && docs[k] in docIndex && docIndex[docs[k]].url == url
                  && (forall k2 :: 0 <= k2 < k ==> docs[k2] in docIndex && docIndex[docs[k2]].url != url)
                  ==> r == Ok(|m[docs[k]]|))
            && (forall k :: 0 <= k < |docs| && docs[k] !in docIndex
                  && (forall k2 :: 0 <= k2 < k ==> docs[k2] in docIndex && docIndex[docs[k2]].url != url)
                  ==> r == Err(NullReference))
  {
    if docs != [] && docs[0] in docIndex && docIndex[docs[0]].url != url {
      var rest := docs[1..];
      UrlFrequencyMeaning(m, docIndex, rest, url);
      assert forall k :: 0 < k < |docs| ==> docs[k] == rest[k - 1];
      assert forall k2 :: 0 <= k2 < |rest| ==> rest[k2] == docs[k2 + 1];
    }
  }

  /** The position count summed over `docs`, with `int` overflow. */
  lemma TotalSnoc(m: Occurrences, docs: seq<int>, k: nat)
    requires k < |docs| && forall j :: 0 <= j < |docs| ==> docs[j] in m
    ensures TotalOccurrences(m, docs[..k + 1]) == TotalOccurrences(m, docs[..k]) + |m[docs[k]]|
  {
    TotalConcat(m, docs[..k], [docs[k]]);
    assert docs[..k] + [docs[k]] == docs[..k + 1];
    assert [docs[k]][1..] == [];
  }

  lemma {:induction false} TotalConcat(m: Occurrences, a: seq<int>, b: seq<int>)
    requires forall j :: 0 <= j < |a| ==> a[j] in m
    requires forall j :: 0 <= j < |b| ==> b[j] in m
    ensures TotalOccurrences(m, a + b) == TotalOccurrences(m, a) + TotalOccurrences(m, b)
  {
    if a != [] {
      assert (a + b)[1..] == a[1..] + b;
      TotalConcat(m, a[1..], b);
    } else {
      assert a + b == b;
    }
  }

  // ---------------------------------------------------------------------------
  // The documents a phrase occurs in
  // ---------------------------------------------------------------------------

  /** Every token is a plain word: it holds no space, so
      `getDocsWithToken` loads it rather than treating it as a phrase. */
  predicate AllWords(tokens: seq<string>) {
    forall k :: 0 <= k < |tokens| ==> ' ' !in tokens[k]
  }

  /** How the index may change while a query runs: an existing word keeps
      its entry, an existing phrase keeps at least its documents, and a word
      is added only when the files hold it. */
  ghost predicate Grows(dir: Directory, a: Index, b: Index) {
    (forall t :: t in a ==> t in b && a[t].Keys <= b[t].Keys && (' ' !in t ==> b[t] == a[t]))
    && (forall t :: t in b && t !in a && ' ' !in t ==> Lookup(dir, t).Ok? && Lookup(dir, t).value.Some?)
  }

  /** Growth composes. */
  lemma GrowsTransitive(dir: Directory, a: Index, b: Index, c: Index)
    requires Grows(dir, a, b) && Grows(dir, b, c)
    ensures Grows(dir, a, c)
  {
  }

  /** The `putAll` of a phrase search's answer into the phrase's entry,
      which is created empty when missing: the entry gains the answer's
      documents, with the answer's positions for them, and no other entry
      changes. */
  function Merged(index: Index, phrase: string, found: Occurrences): (r: Index)
    ensures r.Keys == index.Keys + {phrase}
    ensures r[phrase].Keys == (if phrase in index then index[phrase].Keys else {}) + found.Keys
    ensures forall d :: d in found ==> r[phrase][d] == found[d]
    ensures phrase in index ==> forall d :: d in index[phrase] && d !in found ==> r[phrase][d] == index[phrase][d]
    ensures forall t :: t in index && t != phrase ==> r[t] == index[t]
  {
    var entry := if phrase in index then index[phrase] else map[];
    index[phrase := entry + found]
  }

  /** Merging positions into a phrase's entry is growth. */
  lemma MergeGrows(dir: Directory, index: Index, phrase: string, found: Occurrences)
    requires ' ' in phrase
    ensures Grows(dir, index, Merged(index, phrase, found))
  {
    var entry := if phrase in index then index[phrase] else map[];
    var next := Merged(index, phrase, found);
    forall t | t in index
      ensures t in next && index[t].Keys <= next[t].Keys && (' ' !in t ==> next[t] == index[t])
    {
      if t == phrase {
        assert (entry + found).Keys == entry.Keys + found.Keys;
      }
    }
  }

  /** A successful load of a word is growth. */
  lemma LoadWordGrows(index: Index, dir: Directory, token: string)
    requires LoadWord(index, dir, token).Ok?
    ensures Grows(dir, index, LoadWord(index, dir, token).value)
  {
  }

  /** Growth keeps a settled word settled, with the same documents. */
  lemma GrowsKeepsSettled(dir: Directory, a: Index, b: Index, t: string)
    requires Grows(dir, a, b) && ' ' !in t && Settled(a, dir, t)
    ensures Settled(b, dir, t) && DocSet(b, t) == DocSet(a, t)
  {
  }

  /** Some token of the phrase is in the index. */
  predicate AnyIndexed(index: Index, tokens: seq<string>) {
    exists t :: t in tokens && t in index
  }

  /** The tokens of a one-longer prefix. */
  lemma PrefixMembers(tokens: seq<string>, k: nat)
    requires k < |tokens|
    ensures forall t :: t in tokens[..k + 1] <==> t in tokens[..k] || t == tokens[k]
  {
    assert tokens[..k + 1] == tokens[..k] + [tokens[k]];
  }

  /** The occurrence map of a one-longer prefix of the tokens. */
  lemma OccurrencesSnoc(index: Index, tokens: seq<string>, k: nat, d: int)
    requires k < |tokens|
    ensures var t := tokens[k];
            OccurrencesOf(index, tokens[..k + 1], d)
            == if t in index then OccurrencesOf(index, tokens[..k], d)[t := if d in index[t] then Some(index[t][d]) else None]
               else OccurrencesOf(index, tokens[..k], d)
  {
    PrefixMembers(tokens, k);
  }

  /** `weHaveAWinner(doc, tokens, i)` once the tokens are loaded: a null
      document throws as soon as a token of the phrase is in the index
      (`doc._docid`), and otherwise meets an empty map. */
  function WinnerFor(index: Index, doc: Option<Doc>, tokens: seq<string>, i: int): Result<int> {
    match doc
    case Some(d) => Winner(OccurrencesOf(index, tokens, d.docid), tokens, i)
    case None => if AnyIndexed(index, tokens) then Err(NullReference) else Winner(map[], tokens, i)
  }

  /** The winner loop of `getDocumentsWithPhrase` for one document: every
      winner after -1, or the first exception. */
  function WinnersFor(index: Index, doc: Option<Doc>, tokens: seq<string>): Result<seq<int>> {
    match doc
    case Some(d) => WinnersFrom(OccurrencesOf(index, tokens, d.docid), tokens, -1)
    case None =>
      match WinnerFor(index, None, tokens, -1)
      case Err(f) => Err(f)
      case Ok(_) => Ok([])
  }

  /** `indexFromDocId.get(docId)`. */
  function DocOf(docIndex: map<int, Doc>, docId: int): Option<Doc> {
    if docId in docIndex then Some(docIndex[docId]) else None
  }

  /** The phrase loop over the documents `docs`, in that order: the winners
      of each are appended to the list of the document's own id. */
  function PhraseDocs(index: Index, docIndex: map<int, Doc>, tokens: seq<string>, docs: seq<int>, acc: Occurrences): Result<Occurrences> {
    if docs == [] then Ok(acc)
    else
      var doc := DocOf(docIndex, docs[0]);
      match WinnersFor(index, doc, tokens)
      case Err(f) => Err(f)
      case Ok(ws) => PhraseDocs(index, docIndex, tokens, docs[1..], Collect(acc, doc, ws))
  }

  /** The winners `ws` of `doc` appended to the list of its id (a document
      without winners adds nothing). */
  function Collect(acc: Occurrences, doc: Option<Doc>, ws: seq<int>): Occurrences {
    if ws == [] then acc
    else
      match doc
      case None => acc
      case Some(d) =>
        var prior := if d.docid in acc then acc[d.docid] else [];
        acc[d.docid := prior + ws]
  }

  /** One document of the phrase loop: its exception ends the loop,
      otherwise its winners are collected. */
  lemma PhraseDocsStep(index: Index, docIndex: map<int, Doc>, tokens: seq<string>, docs: seq<int>, k: nat, acc: Occurrences)
    requires k < |docs|
    ensures var w := WinnersFor(index, DocOf(docIndex, docs[k]), tokens);
            (w.Err? ==> PhraseDocs(index, docIndex, tokens, docs[k..], acc) == Err(w.fault))
            && (w.Ok? ==> PhraseDocs(index, docIndex, tokens, docs[k..], acc)
                          == PhraseDocs(index, docIndex, tokens, docs[k + 1..], Collect(acc, DocOf(docIndex, docs[k]), w.value)))
  {
    assert docs[k..][1..] == docs[k + 1..];
  }

  /** The starts of the phrase in document `d`, ascending. */
  function PhraseStarts(index: Index, tokens: seq<string>, d: int): seq<int> {
    var occ := OccurrencesOf(index, tokens, d);
    Starts(occ, tokens, Firsts(occ, tokens), -1)
  }

  /** Document `d` has a list for every token the index holds, and the
      first token's list ascends. */
  predicate PhraseReady(index: Index, tokens: seq<string>, d: int) {
    var occ := OccurrencesOf(index, tokens, d);
    NullFree(occ, tokens) && IsAscending(Firsts(occ, tokens))
  }

  /** When every document is in the document index under its own id and
      holds every token, the phrase loop neither throws nor loses a start:
      the documents with a start are added, each with all its starts in
      ascending order, and nothing else changes. */
  lemma {:induction false} PhraseDocsMeaning(index: Index, docIndex: map<int, Doc>, tokens: seq<string>, docs: seq<int>, acc: Occurrences)
    requires tokens != [] && IsAscending(docs)
    requires forall k :: 0 <= k < |docs| ==> docs[k] in docIndex && docIndex[docs[k]].docid == docs[k]
    requires forall k :: 0 <= k < |docs| ==> docs[k] !in acc && PhraseReady(index, tokens, docs[k])
    ensures var r := PhraseDocs(index, docIndex, tokens, docs, acc);
            r.Ok?
            && (forall d :: d in r.value <==> d in acc || (d in docs && PhraseStarts(index, tokens, d) != []))
            && (forall d :: d in acc ==> r.value[d] == acc[d])
            && (forall d :: d in r.value && d in docs ==> r.value[d] == PhraseStarts(index, tokens, d))
  {
    if docs != [] {
      var d := docs[0];
      var rest := docs[1..];
      var occ := OccurrencesOf(index, tokens, d);
      WinnersAreStarts(occ, tokens, -1);
      assert WinnersFor(index, DocOf(docIndex, d), tokens) == Ok(PhraseStarts(index, tokens, d));
      assert IsAscending(rest);
      assert forall k :: 0 <= k < |rest| ==> rest[k] == docs[k + 1] && d < rest[k];
      assert forall x :: x in docs <==> x == d || x in rest;
      var ws := PhraseStarts(index, tokens, d);
      var r := PhraseDocs(index, docIndex, tokens, docs, acc);
      if ws == [] {
        assert r == PhraseDocs(index, docIndex, tokens, rest, acc);
        PhraseDocsMeaning(index, docIndex, tokens, rest, acc);
      } else {
        var next := acc[d := [] + ws];
        assert Collect(acc, DocOf(docIndex, d), ws) == next;
        assert r == PhraseDocs(index, docIndex, tokens, rest, next);
        PhraseDocsMeaning(index, docIndex, tokens, rest, next);
        forall x | x in acc ensures r.value[x] == acc[x] {
          assert x != d && x in next && next[x] == acc[x];
        }
      }
    }
  }

  /** The ascending ids of a map are keys of it. */
  lemma AllKeys(m: Occurrences, docs: seq<int>)
    requires docs == Ascending(m.Keys)
    ensures forall k :: 0 <= k < |docs| ==> docs[k] in m
  {
    forall k | 0 <= k < |docs| ensures docs[k] in m {
      assert docs[k] in docs;
    }
  }

  /** One more document added to the wrapped running sum. */
  lemma SumStep(m: Occurrences, docs: seq<int>, k: nat, frequency: int)
    requires k < |docs| && forall j :: 0 <= j < |docs| ==> docs[j] in m
    requires frequency == Wrap32(TotalOccurrences(m, docs[..k]))
    ensures Wrap32(frequency + |m[docs[k]]|) == Wrap32(TotalOccurrences(m, docs[..k + 1]))
  {
    TotalSnoc(m, docs, k);
    Wrap32Add(TotalOccurrences(m, docs[..k]), |m[docs[k]]|);
  }

  /** The summing loop of `corpusTermFrequency`, over the documents in
      ascending order. */
  method SumPositions(m: Occurrences) returns (frequency: int)
    ensures frequency == Wrap32(TotalOccurrences(m, Ascending(m.Keys)))
  {
    var docs := SortIds(m.Keys);
    AllKeys(m, docs);
    frequency := 0;
    for k := 0 to |docs|
      invariant frequency == Wrap32(TotalOccurrences(m, docs[..k]))
    {
      SumStep(m, docs, k, frequency);
      frequency := Wrap32(frequency + |m[docs[k]]|);
    }
    assert docs[..|docs|] == docs;
  }

  /** The loop of `documentTermFrequency` over the documents in ascending
      order. */
  method FirstUrlCount(m: Occurrences, docIndex: map<int, Doc>, url: string) returns (r: Result<int>)
    ensures r == UrlFrequency(m, docIndex, Ascending(m.Keys), url)
  {
    var docs := SortIds(m.Keys);
    AllKeys(m, docs);
    for k := 0 to |docs|
      invariant UrlFrequency(m, docIndex, docs, url) == UrlFrequency(m, docIndex, docs[k..], url)
    {
      assert docs[k..][1..] == docs[k + 1..];
      var docId := docs[k];
      if docId !in docIndex {
        return Err(NullReference);
      }
      if docIndex[docId].url == url {
        return Ok(|m[docId]|);
      }
    }
    r := Ok(0);
  }
}
