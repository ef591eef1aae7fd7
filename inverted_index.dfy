/** `IndexerInvertedCompressed`: `processDocument` at indexing time, and at
    query time words loaded through the organizer on demand, phrases
    answered from an access-ordered cache of three or by scanning the
    documents that hold every word, `nextDoc` over the intersection, and
    the three frequencies. */
module InvertedIndex {
  import opened Wrappers
  import opened JavaInt
  import opened JavaString
  import opened Ordered
  import opened Lru
  import opened Compressor
  import opened Postings
  import opened IndexFiles
  import opened QueryEval
  import opened TokenIndex
  import opened Organizer

  /** `PHRASES_TO_CACHE`. */
  const PHRASES_TO_CACHE: nat := 3

  /** `found` followed by the winners still to come, or their exception. */
  function Then(found: seq<int>, rest: Result<seq<int>>): Result<seq<int>> {
    match rest
    case Err(f) => Err(f)
    case Ok(ws) => Ok(found + ws)
  }

  /** What `nextDoc` returns for the documents `docs`: the document of the
      id `NextDocId` picks in ascending order, or null. */
  ghost function DocAfter(docIndex: map<int, Doc>, docs: set<int>, docid: int): Option<Doc> {
    match NextDocId(Ascending(docs), docid)
    case None => None
    case Some(d) => DocOf(docIndex, d)
  }

  /** One pass of the winner loop of `getDocumentsWithPhrase`: an
      exception ends the loop with it, -1 ends it with the winners found,
      and any other winner lies above `i`, extends the winners found and
      leaves fewer occurrences above it. */
  lemma {:induction false} WinnersLoopStep(index: Index, doc: Option<Doc>, tokens: seq<string>, i: int, found: seq<int>, w: Result<int>)
    requires w == WinnerFor(index, doc, tokens, i)
    requires doc.None? ==> i == -1 && found == []
    requires doc.Some? ==>
               WinnersFor(index, doc, tokens) == Then(found, WinnersFrom(OccurrencesOf(index, tokens, doc.value.docid), tokens, i))
    ensures w.Err? ==> WinnersFor(index, doc, tokens) == Err(w.fault)
    ensures w.Ok? && w.value == -1 ==> WinnersFor(index, doc, tokens) == Ok(found)
    ensures w.Ok? && w.value != -1 ==>
              doc.Some? && w.value > i
              && (var occ := OccurrencesOf(index, tokens, doc.value.docid);
                  CountAbove(Firsts(occ, tokens), w.value) < CountAbove(Firsts(occ, tokens), i)
                  && WinnersFor(index, doc, tokens) == Then(found + [w.value], WinnersFrom(occ, tokens, w.value)))
  {
    if doc.Some? {
      var occ := OccurrencesOf(index, tokens, doc.value.docid);
      if w.Ok? && w.value == -1 {
        assert found + [] == found;
      } else if w.Ok? {
        WinnerSound(occ, tokens, i, w.value);
        CountAboveDecreases(Firsts(occ, tokens), i, w.value);
        match WinnersFrom(occ, tokens, w.value)
        case Err(f) =>
        case Ok(ws) =>
          assert found + ([w.value] + ws) == found + [w.value] + ws;
      }
    }
  }

  /** The three updates of `processDocument`'s loop body make one
      `Record`. */
  lemma RecordSteps(index: Index, token: string, docId: int, i: int)
    ensures var index1 := if token !in index then index[token := map[]] else index;
            var docs1 := if docId !in index1[token] then index1[token][docId := []] else index1[token];
            index1[token := docs1[docId := docs1[docId] + [i]]] == Record(index, token, docId, i)
  {
    var m := if token in index then index[token] else map[];
    var ps := if docId in m then m[docId] else [];
    var index1 := if token !in index then index[token := map[]] else index;
    assert index1[token] == m;
    var docs1 := if docId !in m then m[docId := []] else m;
    assert docs1[docId] == ps;
    assert docs1[docId := ps + [i]] == m[docId := ps + [i]];
    assert index1[token := m[docId := ps + [i]]] == index[token := m[docId := ps + [i]]];
  }

  /** Nothing found yet changes nothing. */
  lemma ThenNothing(rest: Result<seq<int>>)
    ensures Then([], rest) == rest
  {
    match rest
    case Err(_) =>
    case Ok(ws) =>
      assert [] + ws == ws;
  }

  /** Without a document there is no winner: only -1 or an exception. */
  lemma NoDocNoWinner(index: Index, doc: Option<Doc>, tokens: seq<string>, i: int)
    ensures doc.None? && WinnerFor(index, doc, tokens, i).Ok? ==> WinnerFor(index, doc, tokens, i).value == -1
  {
  }

  /** The pieces of `split("\\s+")` hold no space. */
  lemma PhraseWords(phrase: string)
    ensures AllWords(SplitRuns(phrase, RegexSpace))
  {
    var tokens := SplitRuns(phrase, RegexSpace);
    forall k | 0 <= k < |tokens| ensures ' ' !in tokens[k] {
      assert Unseparated(tokens[k], RegexSpace);
      assert IsSeparator(' ', RegexSpace);
    }
  }

  /** What `getDocumentsWithPhrase` answers for a phrase it has not
      cached: the phrase's words, split on runs of white space, are loaded,
      giving the index `loaded`, and `found` holds the winners of every
      document with all the words, taken in ascending order of id. */
  ghost predicate PhraseSearched(before: Index, dir: Directory, docIndex: map<int, Doc>, phrase: string,
                                 loaded: Index, found: Occurrences)
  {
    var tokens := SplitRuns(phrase, RegexSpace);
    LoadWords(before, dir, tokens) == Ok(loaded)
    && PhraseDocs(loaded, docIndex, tokens, Ascending(Intersect(DocSets(loaded, tokens))), map[]) == Ok(found)
  }

  /** The answer of a phrase search over a consistent index: when every
      document holding all the phrase's words is stored under its own id
      and has a list for each of them, the answer holds exactly the
      documents with all the words in which the phrase starts somewhere,
      each with all its starts in ascending order. */
  lemma PhraseSearchedMeaning(before: Index, dir: Directory, docIndex: map<int, Doc>, phrase: string,
                              loaded: Index, found: Occurrences)
    requires PhraseSearched(before, dir, docIndex, phrase, loaded, found)
    requires forall d :: d in Intersect(DocSets(loaded, SplitRuns(phrase, RegexSpace))) ==>
               d in docIndex && docIndex[d].docid == d && PhraseReady(loaded, SplitRuns(phrase, RegexSpace), d)
    ensures var tokens := SplitRuns(phrase, RegexSpace);
            (forall d :: d in found <==> d in Intersect(DocSets(loaded, tokens)) && PhraseStarts(loaded, tokens, d) != [])
            && (forall d :: d in found ==> found[d] == PhraseStarts(loaded, tokens, d))
  {
    var tokens := SplitRuns(phrase, RegexSpace);
    var docs := Ascending(Intersect(DocSets(loaded, tokens)));
    if tokens == [] {
      assert DocSets(loaded, tokens) == [];
      assert docs == [];
    } else {
      PhraseDocsMeaning(loaded, docIndex, tokens, docs, map[]);
    }
  }

  /** What `getDocsWithTokens` knows of the sets gathered so far, one per
      leading token: a word's set is the settled word's documents, a
      phrase's set is the key set of the answer `found` its phrase search
      gave, which was merged into its entry. */
  ghost predicate SetsHold(index: Index, dir: Directory, tokens: seq<string>, sets: seq<Option<set<int>>>,
                           found: seq<Occurrences>)
  {
    |sets| <= |tokens| && |found| == |sets|
    && (forall j :: 0 <= j < |sets| && ' ' !in tokens[j] ==>
          Settled(index, dir, tokens[j]) && sets[j] == DocSet(index, tokens[j]))
    && (forall j :: 0 <= j < |sets| && ' ' in tokens[j] ==>
          sets[j] == Some(found[j].Keys) && tokens[j] in index && found[j].Keys <= index[tokens[j]].Keys)
  }

  /** Growth of the index keeps what held of the sets gathered so far. */
  lemma SetsKept(dir: Directory, before: Index, after: Index, tokens: seq<string>, sets: seq<Option<set<int>>>,
                 found: seq<Occurrences>)
    requires SetsHold(before, dir, tokens, sets, found) && Grows(dir, before, after)
    ensures SetsHold(after, dir, tokens, sets, found)
  {
    forall j | 0 <= j < |sets| && ' ' !in tokens[j]
      ensures Settled(after, dir, tokens[j]) && sets[j] == DocSet(after, tokens[j])
    {
      GrowsKeepsSettled(dir, before, after, tokens[j]);
    }
  }

  /** One token of `getDocsWithTokens`: the index grows from `before` to
      `after` while the token's set `s` is found (for a phrase, from the
      answer `f`), and what held of the earlier sets still holds, now with
      `s`. */
  lemma SetsStep(dir: Directory, before: Index, after: Index, tokens: seq<string>, sets: seq<Option<set<int>>>,
                 found: seq<Occurrences>, s: Option<set<int>>, f: Occurrences)
    requires |sets| < |tokens| && SetsHold(before, dir, tokens, sets, found) && Grows(dir, before, after)
    requires ' ' !in tokens[|sets|] ==> LoadWord(before, dir, tokens[|sets|]) == Ok(after) && s == DocSet(after, tokens[|sets|])
    requires ' ' in tokens[|sets|] ==> s == Some(f.Keys) && tokens[|sets|] in after && f.Keys <= after[tokens[|sets|]].Keys
    ensures SetsHold(after, dir, tokens, sets + [s], found + [f])
  {
    var k := |sets|;
    var next := sets + [s];
    var nextFound := found + [f];
    SetsKept(dir, before, after, tokens, sets, found);
    forall j | 0 <= j < |next| && ' ' !in tokens[j]
      ensures Settled(after, dir, tokens[j]) && next[j] == DocSet(after, tokens[j])
    {
      if j < k {
        assert next[j] == sets[j];
      } else {
        LoadWordSettles(before, dir, tokens[k]);
      }
    }
    forall j | 0 <= j < |next| && ' ' in tokens[j]
      ensures next[j] == Some(nextFound[j].Keys) && tokens[j] in after && nextFound[j].Keys <= after[tokens[j]].Keys
    {
      if j < k {
        assert next[j] == sets[j] && nextFound[j] == found[j];
      }
    }
  }

  /** Loading the first of the remaining words, then the rest. */
  lemma LoadWordsStep(index: Index, dir: Directory, tokens: seq<string>, k: nat)
    requires k < |tokens| && LoadWord(index, dir, tokens[k]).Ok?
    ensures LoadWords(index, dir, tokens[k..]) == LoadWords(LoadWord(index, dir, tokens[k]).value, dir, tokens[k + 1..])
  {
    assert tokens[k..][1..] == tokens[k + 1..];
  }

  class IndexerInvertedCompressed {
    /** `indexFromToken`. */
    var indexFromToken: Index
    /** `indexFromDocId`. */
    var indexFromDocId: map<int, Doc>
    /** The document ids `docIDToPageRank` holds; the ranks themselves are
        floats and are not modelled. */
    const ranked: set<int>
    /** `cachedPhrases`: phrase to its documents' start positions. */
    var cachedPhrases: Cache<Occurrences>
    /** The organizer that reads the index files. */
    const organizer: IndexOrganizer

    /** The organizer is consistent with its files, and the phrase cache
        keeps its bound of three. */
    ghost predicate Valid()
      reads this, organizer
    {
      organizer.Valid() && cachedPhrases.Valid() && cachedPhrases.capacity == PHRASES_TO_CACHE
    }

    constructor (organizer: IndexOrganizer, indexFromDocId: map<int, Doc>, ranked: set<int>)
      requires organizer.Valid()
      ensures Valid()
      ensures this.organizer == organizer && this.indexFromDocId == indexFromDocId && this.ranked == ranked
      ensures indexFromToken == map[] && cachedPhrases.entries == map[]
    {
      this.organizer := organizer;
      this.indexFromDocId := indexFromDocId;
      this.ranked := ranked;
      indexFromToken := map[];
      cachedPhrases := Empty(PHRASES_TO_CACHE);
    }

    /** `processDocument`: the k-th token of the body is recorded at offset
        k, and the document is stored with the number of tokens as its size;
        a document without a page rank throws when the rank is unboxed,
        after its tokens were recorded and before it is stored. */
    method ProcessDocument(url: string, docId: int, title: string, body: string) returns (r: Result<()>)
      requires Valid()
      modifies this
      ensures Valid() && cachedPhrases == old(cachedPhrases)
      ensures indexFromToken == AddAll(old(indexFromToken), Words(body, TokenizerDelimiters), docId)
      ensures docId in ranked ==>
                r.Ok? && indexFromDocId == old(indexFromDocId)[docId := Doc(url, docId, |Words(body, TokenizerDelimiters)|, title)]
      ensures docId !in ranked ==> r == Err(NullReference) && indexFromDocId == old(indexFromDocId)
    {
      var words := Words(body, TokenizerDelimiters);
      var i := 0;
      while i < |words|
        invariant i <= |words|
        invariant indexFromToken == AddAll(old(indexFromToken), words[..i], docId)
        invariant indexFromDocId == old(indexFromDocId) && cachedPhrases == old(cachedPhrases)
      {
        ghost var before := indexFromToken;
        var token := words[i];
        if token !in indexFromToken {
          indexFromToken := indexFromToken[token := map[]];
        }
        var docs := indexFromToken[token];
        if docId !in docs {
          docs := docs[docId := []];
        }
        docs := docs[docId := docs[docId] + [i]];
        indexFromToken := indexFromToken[token := docs];
        RecordSteps(before, token, docId, i);
        assert words[..i + 1][..i] == words[..i];
        i := i + 1;
      }
      assert words[..i] == words;
      if docId !in ranked {
        return Err(NullReference);
      }
      indexFromDocId := indexFromDocId[docId := Doc(url, docId, i, title)];
      r := Ok(());
    }

    /** `buildIndexFor(token, bytes)`, `read` included. */
    method BuildIndexFor(token: string, bytes: Option<seq<Byte>>) returns (r: Result<()>)
      requires Valid()
      modifies this
      ensures Valid() && indexFromDocId == old(indexFromDocId) && cachedPhrases == old(cachedPhrases)
      ensures r.Ok? <==> Built(old(indexFromToken), token, bytes).Ok?
      ensures r.Ok? ==> indexFromToken == Built(old(indexFromToken), token, bytes).value
      ensures r.Err? ==> Built(old(indexFromToken), token, bytes) == Err(r.fault) && indexFromToken == old(indexFromToken)
    {
      if token in indexFromToken {
        return Ok(());
      }
      if bytes.Some? {
        var m := Read(bytes.value);
        if m.Err? {
          return Err(m.fault);
        }
        indexFromToken := indexFromToken[token := m.value];
      }
      r := Ok(());
    }

    /** `getDocsWithToken`. A word is loaded through the organizer and
        answered with its documents, or null when the files do not hold it.
        A phrase is answered with the documents of the answer `found` that
        `getDocumentsWithPhrase` gives, which is also merged into the
        phrase's entry of the index. Either way the index only grows. */
    method GetDocsWithToken(token: string) returns (r: Result<Option<set<int>>>, ghost found: Occurrences)
      requires Valid()
      modifies this, organizer
      decreases if ' ' in token then 7 else 0
      ensures Valid() && indexFromDocId == old(indexFromDocId)
      ensures Grows(organizer.dir, old(indexFromToken), indexFromToken)
      ensures ' ' !in token ==> cachedPhrases == old(cachedPhrases)
      ensures ' ' !in token ==> (r.Ok? <==> LoadWord(old(indexFromToken), organizer.dir, token).Ok?)
      ensures ' ' !in token && r.Ok? ==> LoadWord(old(indexFromToken), organizer.dir, token) == Ok(indexFromToken)
                                          && r.value == DocSet(indexFromToken, token)
      ensures ' ' !in token && r.Err? ==> indexFromToken == old(indexFromToken)
      ensures ' ' in token && r.Ok? ==> r == Ok(Some(found.Keys)) && token in indexFromToken
                                        && found.Keys <= indexFromToken[token].Keys
      ensures ' ' in token && old(token in cachedPhrases.entries) ==>
                r.Ok? && found == old(cachedPhrases.entries[token]) && cachedPhrases == Get(old(cachedPhrases), token).1
                && indexFromToken == Merged(old(indexFromToken), token, found)
      ensures ' ' in token && old(token !in cachedPhrases.entries) && r.Ok? ==>
                var loaded := LoadWords(old(indexFromToken), organizer.dir, SplitRuns(token, RegexSpace));
                loaded.Ok? && PhraseSearched(old(indexFromToken), organizer.dir, indexFromDocId, token, loaded.value, found)
                && indexFromToken == Merged(loaded.value, token, found)
                && cachedPhrases == Put(old(cachedPhrases), token, found)
    {
      if ' ' in token {
        r, found := GetDocsWithPhrase(token);
      } else {
        r := GetDocsWithWord(token);
        found := map[];
      }
    }

    /** The phrase branch of `getDocsWithToken`: the documents of the
        answer `found` of `getDocumentsWithPhrase`, whose positions are
        merged into the phrase's entry of the index (created empty when
        missing). A cached phrase is answered from the cache; otherwise the
        answer is the phrase search over the index with the phrase's words
        loaded. */
    method GetDocsWithPhrase(token: string) returns (r: Result<Option<set<int>>>, ghost found: Occurrences)
      requires Valid() && ' ' in token
      modifies this, organizer
      decreases 6
      ensures Valid() && indexFromDocId == old(indexFromDocId)
      ensures Grows(organizer.dir, old(indexFromToken), indexFromToken)
      ensures r.Ok? ==> r == Ok(Some(found.Keys)) && token in indexFromToken && found.Keys <= indexFromToken[token].Keys
      ensures old(token in cachedPhrases.entries) ==>
                r.Ok? && found == old(cachedPhrases.entries[token]) && cachedPhrases == Get(old(cachedPhrases), token).1
                && indexFromToken == Merged(old(indexFromToken), token, found)
      ensures old(token !in cachedPhrases.entries) && r.Ok? ==>
                var loaded := LoadWords(old(indexFromToken), organizer.dir, SplitRuns(token, RegexSpace));
                loaded.Ok? && PhraseSearched(old(indexFromToken), organizer.dir, indexFromDocId, token, loaded.value, found)
                && indexFromToken == Merged(loaded.value, token, found)
                && cachedPhrases == Put(old(cachedPhrases), token, found)
    {
      var p := GetDocumentsWithPhrase(token);
      if p.Err? {
        return Err(p.fault), map[];
      }
      found := p.value;
      ghost var mid := indexFromToken;
      MergeGrows(organizer.dir, mid, token, p.value);
      var entry := if token in indexFromToken then indexFromToken[token] else map[];
      indexFromToken := indexFromToken[token := entry + p.value];
      assert indexFromToken == Merged(mid, token, found);
      GrowsTransitive(organizer.dir, old(indexFromToken), mid, indexFromToken);
      r := Ok(Some(p.value.Keys));
    }

    /** The word branch of `getDocsWithToken`: `loadIndexFor`, then
        `buildIndexFor`, then the word's documents or null. */
    method GetDocsWithWord(token: string) returns (r: Result<Option<set<int>>>)
      requires Valid()
      modifies this, organizer
      ensures Valid() && indexFromDocId == old(indexFromDocId) && cachedPhrases == old(cachedPhrases)
      ensures r.Ok? <==> LoadWord(old(indexFromToken), organizer.dir, token).Ok?
      ensures r.Ok? ==> LoadWord(old(indexFromToken), organizer.dir, token) == Ok(indexFromToken)
                        && r.value == DocSet(indexFromToken, token)
                        && Grows(organizer.dir, old(indexFromToken), indexFromToken)
      ensures r.Err? ==> indexFromToken == old(indexFromToken)
    {
      var bytes := organizer.LoadIndexFor(token);
      if bytes.Err? {
        return Err(bytes.fault);
      }
      var built := BuildIndexFor(token, bytes.value);
      if built.Err? {
        return Err(built.fault);
      }
      LoadWordGrows(old(indexFromToken), organizer.dir, token);
      r := Ok(if token in indexFromToken then Some(indexFromToken[token].Keys) else None);
    }

    /** `getDocsWithTokens`: each token's documents, in order, then their
        `intersection`. The sets of words are the documents the grown index
        holds for them; a phrase's set lies within its entry. */
    method GetDocsWithTokens(tokens: seq<string>)
      returns (r: Result<set<int>>, ghost sets: seq<Option<set<int>>>, ghost found: seq<Occurrences>)
      requires Valid()
      modifies this, organizer
      decreases if AllWords(tokens) then 1 else 8
      ensures Valid() && indexFromDocId == old(indexFromDocId)
      ensures Grows(organizer.dir, old(indexFromToken), indexFromToken)
      ensures AllWords(tokens) ==> cachedPhrases == old(cachedPhrases)
      ensures AllWords(tokens) && r.Ok? ==> LoadWords(old(indexFromToken), organizer.dir, tokens) == Ok(indexFromToken)
      ensures r.Ok? ==> |sets| == |tokens| && r.value == Intersect(sets)
      ensures r.Ok? ==> forall k :: 0 <= k < |tokens| && ' ' !in tokens[k] ==>
                Settled(indexFromToken, organizer.dir, tokens[k]) && sets[k] == DocSet(indexFromToken, tokens[k])
      ensures r.Ok? ==> |found| == |tokens| && forall k :: 0 <= k < |tokens| && ' ' in tokens[k] ==>
                sets[k] == Some(found[k].Keys) && tokens[k] in indexFromToken && found[k].Keys <= indexFromToken[tokens[k]].Keys
    {
      var docsWithToken: seq<Option<set<int>>> := [];
      found := [];
      var k := 0;
      while k < |tokens|
        invariant k <= |tokens| && |docsWithToken| == k
        invariant Valid() && indexFromDocId == old(indexFromDocId)
        invariant Grows(organizer.dir, old(indexFromToken), indexFromToken)
        invariant AllWords(tokens) ==> cachedPhrases == old(cachedPhrases)
        invariant AllWords(tokens) ==>
                    LoadWords(old(indexFromToken), organizer.dir, tokens) == LoadWords(indexFromToken, organizer.dir, tokens[k..])
        invariant SetsHold(indexFromToken, organizer.dir, tokens, docsWithToken, found)
      {
        ghost var before := indexFromToken;
        var s, f := GetDocsWithToken(tokens[k]);
        if s.Err? {
          return Err(s.fault), docsWithToken, found;
        }
        GrowsTransitive(organizer.dir, old(indexFromToken), before, indexFromToken);
        SetsStep(organizer.dir, before, indexFromToken, tokens, docsWithToken, found, s.value, f);
        if ' ' !in tokens[k] {
          LoadWordsStep(before, organizer.dir, tokens, k);
        }
        docsWithToken := docsWithToken + [s.value];
        found := found + [f];
        k := k + 1;
      }
      var result := Intersection(docsWithToken);
      return Ok(result), docsWithToken, found;
    }

    /** `getDocumentsWithPhrase`. A cached phrase is answered from the cache
        (and becomes its most recent access). Otherwise the phrase is split
        on runs of white space, its words are loaded, and every document
        holding all of them (as `intersection` computes it, in ascending
        order) is scanned for winners; the answer is cached. */
    method GetDocumentsWithPhrase(phrase: string) returns (r: Result<Occurrences>)
      requires Valid()
      modifies this, organizer
      decreases 5
      ensures Valid() && indexFromDocId == old(indexFromDocId)
      ensures Grows(organizer.dir, old(indexFromToken), indexFromToken)
      ensures old(phrase in cachedPhrases.entries) ==>
                r == Ok(old(cachedPhrases.entries[phrase])) && cachedPhrases == Get(old(cachedPhrases), phrase).1
                && indexFromToken == old(indexFromToken)
      ensures old(phrase !in cachedPhrases.entries) && r.Ok? ==>
                var tokens := SplitRuns(phrase, RegexSpace);
                LoadWords(old(indexFromToken), organizer.dir, tokens) == Ok(indexFromToken)
                && PhraseDocs(indexFromToken, indexFromDocId, tokens, Ascending(Intersect(DocSets(indexFromToken, tokens))), map[])
                   == Ok(r.value)
                && cachedPhrases == Put(old(cachedPhrases), phrase, r.value)
    {
      if ContainsKey(cachedPhrases, phrase) {
        var hit := Get(cachedPhrases, phrase);
        cachedPhrases := hit.1;
        return Ok(hit.0.value);
      }
      var tokens := SplitRuns(phrase, RegexSpace);
      PhraseWords(phrase);
      var docs, sets, _ := GetDocsWithTokens(tokens);
      if docs.Err? {
        return Err(docs.fault);
      }
      assert sets == DocSets(indexFromToken, tokens);
      var ids := SortIds(docs.value);
      var result := CollectPhraseDocs(tokens, ids);
      if result.Err? {
        return Err(result.fault);
      }
      cachedPhrases := Put(cachedPhrases, phrase, result.value);
      r := Ok(result.value);
    }

    /** The document loop of `getDocumentsWithPhrase`: each id's document in
        turn, its winners collected under its id; the first exception ends
        the loop. */
    method CollectPhraseDocs(tokens: seq<string>, ids: seq<int>) returns (r: Result<Occurrences>)
      requires Valid() && AllWords(tokens)
      requires forall k :: 0 <= k < |tokens| ==> Settled(indexFromToken, organizer.dir, tokens[k])
      modifies this, organizer
      decreases 4
      ensures Valid() && indexFromToken == old(indexFromToken) && indexFromDocId == old(indexFromDocId)
      ensures cachedPhrases == old(cachedPhrases)
      ensures r == PhraseDocs(indexFromToken, indexFromDocId, tokens, ids, map[])
    {
      var result: Occurrences := map[];
      var k := 0;
      while k < |ids|
        invariant k <= |ids|
        invariant Valid() && indexFromToken == old(indexFromToken) && indexFromDocId == old(indexFromDocId)
        invariant cachedPhrases == old(cachedPhrases)
        invariant PhraseDocs(indexFromToken, indexFromDocId, tokens, ids, map[])
                  == PhraseDocs(indexFromToken, indexFromDocId, tokens, ids[k..], result)
      {
        var doc := if ids[k] in indexFromDocId then Some(indexFromDocId[ids[k]]) else None;
        assert doc == DocOf(indexFromDocId, ids[k]);
        var winners := WinnersOf(doc, tokens);
        PhraseDocsStep(indexFromToken, indexFromDocId, tokens, ids, k, result);
        if winners.Err? {
          return Err(winners.fault);
        }
        if winners.value != [] {
          var id := doc.value.docid;
          var prior := if id in result then result[id] else [];
          result := result[id := prior + winners.value];
        }
        k := k + 1;
      }
      r := Ok(result);
    }

    /** The winner loop of `getDocumentsWithPhrase` for one document: start
        at -1 and collect each winner until -1. */
    method WinnersOf(doc: Option<Doc>, tokens: seq<string>) returns (r: Result<seq<int>>)
      requires Valid() && AllWords(tokens)
      requires forall k :: 0 <= k < |tokens| ==> Settled(indexFromToken, organizer.dir, tokens[k])
      modifies this, organizer
      decreases 3
      ensures Valid() && indexFromToken == old(indexFromToken) && indexFromDocId == old(indexFromDocId)
      ensures cachedPhrases == old(cachedPhrases)
      ensures r == WinnersFor(indexFromToken, doc, tokens)
    {
      var i := -1;
      var found: seq<int> := [];
      ThenNothing(WinnersFor(indexFromToken, doc, tokens));
      while true
        invariant Valid() && indexFromToken == old(indexFromToken) && indexFromDocId == old(indexFromDocId)
        invariant cachedPhrases == old(cachedPhrases)
        invariant doc.None? ==> i == -1 && found == []
        invariant doc.Some? ==>
                    i >= -1 && WinnersFor(indexFromToken, doc, tokens) == Then(found, WinnersFrom(OccurrencesOf(indexFromToken, tokens, doc.value.docid), tokens, i))
        decreases if doc.Some? then CountAbove(Firsts(OccurrencesOf(indexFromToken, tokens, doc.value.docid), tokens), i) else 0
      {
        var w := WeHaveAWinner(doc, tokens, i);
        WinnersLoopStep(indexFromToken, doc, tokens, i, found, w);
        if w.Err? {
          return Err(w.fault);
        }
        if w.value == -1 {
          return Ok(found);
        }
        found := found + [w.value];
        i := w.value;
      }
    }

    /** `weHaveAWinner(doc, tokens, i)` with the tokens already loaded, as
        they are whenever `getDocumentsWithPhrase` calls it: each token is
        looked up again (which then changes nothing), its list for the
        document is collected, and the first start after `i` is returned. */
    method WeHaveAWinner(doc: Option<Doc>, tokens: seq<string>, i: int) returns (r: Result<int>)
      requires Valid() && AllWords(tokens)
      requires forall k :: 0 <= k < |tokens| ==> Settled(indexFromToken, organizer.dir, tokens[k])
      modifies this, organizer
      decreases 2
      ensures Valid() && indexFromToken == old(indexFromToken) && indexFromDocId == old(indexFromDocId)
      ensures cachedPhrases == old(cachedPhrases)
      ensures r == WinnerFor(indexFromToken, doc, tokens, i)
    {
      var occurrences: TokenOccurrences := map[];
      var k := 0;
      while k < |tokens|
        invariant k <= |tokens|
        invariant Valid() && indexFromToken == old(indexFromToken) && indexFromDocId == old(indexFromDocId)
        invariant cachedPhrases == old(cachedPhrases)
        invariant doc.Some? ==> occurrences == OccurrencesOf(indexFromToken, tokens[..k], doc.value.docid)
        invariant doc.None? ==> occurrences == map[] && !AnyIndexed(indexFromToken, tokens[..k])
      {
        var token := tokens[k];
        SettledLoad(indexFromToken, organizer.dir, token);
        var loaded, _ := GetDocsWithToken(token);
        PrefixMembers(tokens, k);
        if token in indexFromToken {
          if doc.None? {
            assert token in tokens;
            return Err(NullReference);
          }
          OccurrencesSnoc(indexFromToken, tokens, k, doc.value.docid);
          var m := indexFromToken[token];
          occurrences := occurrences[token := if doc.value.docid in m then Some(m[doc.value.docid]) else None];
        } else if doc.Some? {
          OccurrencesSnoc(indexFromToken, tokens, k, doc.value.docid);
        }
        k := k + 1;
      }
      assert tokens[..k] == tokens;
      r := FirstWinner(occurrences, tokens, i);
    }

    /** `nextDoc(query, docid)`: the intersection of the tokens' documents,
        sorted, searched for `docid`, and the chosen id's document, or null.
        The sets intersected are those of the tokens, as for
        `getDocsWithTokens`. */
    method NextDoc(tokens: seq<string>, docid: int)
      returns (r: Result<Option<Doc>>, ghost sets: seq<Option<set<int>>>, ghost found: seq<Occurrences>)
      requires Valid()
      modifies this, organizer
      ensures Valid() && indexFromDocId == old(indexFromDocId)
      ensures Grows(organizer.dir, old(indexFromToken), indexFromToken)
      ensures r.Ok? ==> |sets| == |tokens| && r.value == DocAfter(indexFromDocId, Intersect(sets), docid)
      ensures r.Ok? ==> forall k :: 0 <= k < |tokens| && ' ' !in tokens[k] ==> sets[k] == DocSet(indexFromToken, tokens[k])
      ensures r.Ok? ==> |found| == |tokens| && forall k :: 0 <= k < |tokens| && ' ' in tokens[k] ==>
                sets[k] == Some(found[k].Keys) && tokens[k] in indexFromToken && found[k].Keys <= indexFromToken[tokens[k]].Keys
    {
      var docs;
      docs, sets, found := GetDocsWithTokens(tokens);
      if docs.Err? {
        return Err(docs.fault), sets, found;
      }
      var docsWithAllTokens := SortIds(docs.value);
      var next := NextDocIn(docsWithAllTokens, docid);
      if next.None? {
        return Ok(None), sets, found;
      }
      r := Ok(if next.value in indexFromDocId then Some(indexFromDocId[next.value]) else None);
    }

    /** `corpusDocFrequencyByTerm`: the number of documents in the term's
        entry after loading it, 0 when there is none. */
    method CorpusDocFrequencyByTerm(term: string) returns (r: Result<int>)
      requires Valid()
      modifies this, organizer
      ensures Valid() && indexFromDocId == old(indexFromDocId)
      ensures Grows(organizer.dir, old(indexFromToken), indexFromToken)
      ensures ' ' !in term ==> (r.Ok? <==> LoadWord(old(indexFromToken), organizer.dir, term).Ok?)
      ensures ' ' !in term && r.Ok? ==> LoadWord(old(indexFromToken), organizer.dir, term) == Ok(indexFromToken)
      ensures r.Ok? ==> r.value == (if term in indexFromToken then |indexFromToken[term]| else 0)
    {
      var loaded, _ := GetDocsWithToken(term);
      if loaded.Err? {
        return Err(loaded.fault);
      }
      if term !in indexFromToken {
        return Ok(0);
      }
      r := Ok(|indexFromToken[term]|);
    }

    /** `corpusTermFrequency`: the positions of the term's entry summed in
        an `int`, 0 when there is no entry. */
    method CorpusTermFrequency(term: string) returns (r: Result<int>)
      requires Valid()
      modifies this, organizer
      ensures Valid() && indexFromDocId == old(indexFromDocId)
      ensures Grows(organizer.dir, old(indexFromToken), indexFromToken)
      ensures ' ' !in term ==> (r.Ok? <==> LoadWord(old(indexFromToken), organizer.dir, term).Ok?)
      ensures ' ' !in term && r.Ok? ==> LoadWord(old(indexFromToken), organizer.dir, term) == Ok(indexFromToken)
      ensures r.Ok? ==> r.value == if term in indexFromToken
                                   then Wrap32(TotalOccurrences(indexFromToken[term], Ascending(indexFromToken[term].Keys)))
                                   else 0
    {
      var loaded, _ := GetDocsWithToken(term);
      if loaded.Err? {
        return Err(loaded.fault);
      }
      if term !in indexFromToken {
        return Ok(0);
      }
      var frequency := TokenIndex.SumPositions(indexFromToken[term]);
      r := Ok(frequency);
    }

    /** `documentTermFrequency`: the count of the first document of the
        term's entry whose URL is `url`, 0 when none is or there is no
        entry; an id without a document throws. */
    method DocumentTermFrequency(term: string, url: string) returns (r: Result<int>)
      requires Valid()
      modifies this, organizer
      ensures Valid() && indexFromDocId == old(indexFromDocId)
      ensures Grows(organizer.dir, old(indexFromToken), indexFromToken)
      ensures ' ' !in term && r.Ok? ==> LoadWord(old(indexFromToken), organizer.dir, term).Ok?
      ensures term in indexFromToken && r.Ok? ==>
                r == UrlFrequency(indexFromToken[term], indexFromDocId, Ascending(indexFromToken[term].Keys), url)
      ensures term in indexFromToken && ' ' !in term && LoadWord(old(indexFromToken), organizer.dir, term).Ok? ==>
                r == UrlFrequency(indexFromToken[term], indexFromDocId, Ascending(indexFromToken[term].Keys), url)
      ensures term !in indexFromToken && r.Ok? ==> r.value == 0
    {
      var loaded, _ := GetDocsWithToken(term);
      if loaded.Err? {
        return Err(loaded.fault);
      }
      if term !in indexFromToken {
        return Ok(0);
      }
      r := TokenIndex.FirstUrlCount(indexFromToken[term], indexFromDocId, url);
    }

  }
}
