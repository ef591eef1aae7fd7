/** `RankerComprehensive.runQuery`: answer a processed query from the query
    cache, or check its spelling against the corpus, drop its stop words,
    keep the best-scored of the documents the index enumerates for what is
    left, and cache that answer. The indexer's statistics and its document
    enumeration are parameters (`IndexView`); the token cache it clears is
    the concrete `IndexOrganizer`. */
module RankerComprehensive {
  import opened Wrappers
  import opened JavaString
  import opened Lru
  import QP = QueryPhrase
  import Organizer
  import IndexFiles
  import TokenIndex

  const QUERIES_TO_CACHE: nat := 10

  /** `ScoredDocument`: a document id and its score, compared by score. */
  datatype Scored = Scored(docid: int, score: int)

  /** What the ranker asks of the indexer. A statistic that fails is the
      exception the indexer's call throws. */
  datatype IndexView = IndexView(
    termFrequency: string -> Result<int>,                // corpusTermFrequency
    docFrequency: string -> Result<int>,                 // corpusDocFrequencyByTerm
    numDocs: nat,                                        // numDocs
    nextDoc: (seq<string>, int) -> Result<Option<int>>,  // nextDoc for the query's tokens; Err is an exception
    score: (seq<string>, int) -> Result<int>,            // the score of a document for the tokens; Err is an exception
    lastDoc: int)                                        // no document id is larger

  /** A statistic of a word starts with `getDocsWithToken`, which calls
      `loadIndexFor`: a word the directory cannot route throws there. */
  ghost predicate Routes(stat: string -> Result<int>, dir: IndexFiles.Directory) {
    forall t :: ' ' !in t && IndexFiles.Lookup(dir, t).Err? ==> stat(t) == Err(IndexFiles.Lookup(dir, t).fault)
  }

  /** Every word among the tokens can be routed, looked at in order. */
  ghost predicate Routed(dir: IndexFiles.Directory, tokens: seq<string>)
    decreases |tokens|
  {
    tokens == [] ||
    (Routed(dir, tokens[..|tokens| - 1])
     && (' ' !in tokens[|tokens| - 1] ==> IndexFiles.Lookup(dir, tokens[|tokens| - 1]).Ok?))
  }

  lemma {:induction false} RoutedMeaning(dir: IndexFiles.Directory, tokens: seq<string>)
    ensures Routed(dir, tokens) <==> forall t :: t in tokens && ' ' !in t ==> IndexFiles.Lookup(dir, t).Ok?
    decreases |tokens|
  {
    if tokens != [] {
      var n := |tokens| - 1;
      RoutedMeaning(dir, tokens[..n]);
      TakeSnoc(tokens, n);
      assert tokens[..n + 1] == tokens;
    }
  }

  /** One word that cannot be routed is enough. */
  lemma NotRouted(dir: IndexFiles.Directory, tokens: seq<string>, k: nat)
    requires k < |tokens| && ' ' !in tokens[k] && IndexFiles.Lookup(dir, tokens[k]).Err?
    ensures !Routed(dir, tokens)
  {
    RoutedMeaning(dir, tokens);
  }

  lemma RoutedSnoc(dir: IndexFiles.Directory, tokens: seq<string>, k: nat)
    requires k < |tokens| && Routed(dir, tokens[..k])
    requires ' ' !in tokens[k] ==> IndexFiles.Lookup(dir, tokens[k]).Ok?
    ensures Routed(dir, tokens[..k + 1])
  {
    assert tokens[..k + 1][..k] == tokens[..k];
  }

  /** `nextDoc` only moves forward, and never past the last document. */
  ghost predicate Ascends(v: IndexView) {
    forall tokens, d :: v.nextDoc(tokens, d).Ok? && v.nextDoc(tokens, d).value.Some? ==>
      d < v.nextDoc(tokens, d).value.value <= v.lastDoc
  }

  /** Strictly ascending. */
  predicate Ascending(s: seq<int>) {
    forall i, j :: 0 <= i < j < |s| ==> s[i] < s[j]
  }

  function Min(a: int, b: int): int {
    if a <= b then a else b
  }

  function Max(a: int, b: int): int {
    if a <= b then b else a
  }

  // ---------------------------------------------------------------------------
  // Spelling
  // ---------------------------------------------------------------------------

  /** Two answers in turn: the first exception, or whether either is
      true. */
  function Or(a: Result<bool>, b: Result<bool>): (r: Result<bool>)
    ensures r.Ok? <==> a.Ok? && b.Ok?
    ensures r == Ok(true) <==> a.Ok? && b.Ok? && (a.value || b.value)
    ensures a.Err? ==> r == a
    ensures a.Ok? && b.Err? ==> r == b
  {
    if a.Err? then a else if b.Err? then b else Ok(a.value || b.value)
  }

  /** Answers looked at in turn by a loop that sets a flag and stops at the
      first exception: that exception, or whether any answer is true. */
  function AnyOf(rs: seq<Result<bool>>): Result<bool>
    decreases |rs|
  {
    if rs == [] then Ok(false) else Or(AnyOf(rs[..|rs| - 1]), rs[|rs| - 1])
  }

  /** One more answer. */
  lemma AnyOfSnoc(rs: seq<Result<bool>>, k: nat)
    requires k < |rs|
    ensures AnyOf(rs[..k + 1]) == Or(AnyOf(rs[..k]), rs[k])
  {
    assert rs[..k + 1][..k] == rs[..k];
  }

  /** Once an exception is reached, the answers after it are not looked
      at. */
  lemma {:induction false} AnyOfSticks(rs: seq<Result<bool>>, k: nat)
    requires k <= |rs| && AnyOf(rs[..k]).Err?
    ensures AnyOf(rs) == AnyOf(rs[..k])
    decreases |rs|
  {
    if k == |rs| {
      assert rs[..k] == rs;
    } else {
      var n := |rs| - 1;
      assert rs[..n][..k] == rs[..k];
      AnyOfSticks(rs[..n], k);
    }
  }

  /** No exception when every answer is an answer; true exactly when one
      is; otherwise the first exception. */
  lemma {:induction false} AnyOfMeaning(rs: seq<Result<bool>>)
    ensures AnyOf(rs).Ok? <==> forall i :: 0 <= i < |rs| ==> rs[i].Ok?
    ensures AnyOf(rs) == Ok(true) <==>
      (forall i :: 0 <= i < |rs| ==> rs[i].Ok?) && exists i :: 0 <= i < |rs| && rs[i] == Ok(true)
    ensures AnyOf(rs).Err? ==>
      exists i :: 0 <= i < |rs| && rs[i] == AnyOf(rs) && forall j :: 0 <= j < i ==> rs[j].Ok?
    decreases |rs|
  {
    if rs != [] {
      var n := |rs| - 1;
      var p := rs[..n];
      AnyOfMeaning(p);
      assert forall i :: 0 <= i < n ==> p[i] == rs[i];
      if AnyOf(p).Err? {
        var i :| 0 <= i < n && p[i] == AnyOf(p) && forall j :: 0 <= j < i ==> p[j].Ok?;
        assert rs[i] == AnyOf(rs);
      } else if rs[n].Err? {
        assert rs[n] == AnyOf(rs);
      } else if AnyOf(rs) == Ok(true) && AnyOf(p) != Ok(true) {
        assert rs[n] == Ok(true);
      }
    }
  }

  /** Whether a word occurs at most once in the corpus. */
  function Rare(v: IndexView, w: string): Result<bool> {
    match v.termFrequency(w)
    case Ok(n) => Ok(n <= 1)
    case Err(f) => Err(f)
  }

  function Rarities(v: IndexView, ws: seq<string>): (rs: seq<Result<bool>>)
    ensures |rs| == |ws| && forall i :: 0 <= i < |ws| ==> rs[i] == Rare(v, ws[i])
  {
    seq(|ws|, i requires 0 <= i < |ws| => Rare(v, ws[i]))
  }

  /** `processWord`'s verdict: the token's own frequency is looked up
      first; a phrase is misspelt when one of its words occurs at most once
      in the corpus, a single word when it does. */
  function WordVerdict(v: IndexView, token: string): Result<bool> {
    match v.termFrequency(token)
    case Err(f) => Err(f)
    case Ok(n) => if ' ' in token then AnyOf(Rarities(v, Split(token, RegexSpace))) else Ok(n <= 1)
  }

  /** A token is misspelt exactly when its statistics are all there and the
      token, or for a phrase one of its words, occurs at most once; it
      throws exactly when one of those statistics does. */
  lemma MisspeltMeaning(v: IndexView, token: string)
    ensures var ws := Split(token, RegexSpace);
      WordVerdict(v, token) == Ok(true) <==>
        && v.termFrequency(token).Ok?
        && if ' ' in token then
             && (forall w :: w in ws ==> v.termFrequency(w).Ok?)
             && exists w :: w in ws && v.termFrequency(w).Ok? && v.termFrequency(w).value <= 1
           else v.termFrequency(token).value <= 1
    ensures var ws := Split(token, RegexSpace);
      WordVerdict(v, token).Err? <==>
        v.termFrequency(token).Err? || (' ' in token && exists w :: w in ws && v.termFrequency(w).Err?)
  {
    var ws := Split(token, RegexSpace);
    var rs := Rarities(v, ws);
    AnyOfMeaning(rs);
    assert forall w :: w in ws ==> exists i :: 0 <= i < |ws| && ws[i] == w;
  }

  function Verdicts(v: IndexView, tokens: seq<string>): (rs: seq<Result<bool>>)
    ensures |rs| == |tokens| && forall i :: 0 <= i < |tokens| ==> rs[i] == WordVerdict(v, tokens[i])
  {
    seq(|tokens|, i requires 0 <= i < |tokens| => WordVerdict(v, tokens[i]))
  }

  /** The spelling loop of `runQuery`: the first exception of `processWord`,
      or whether any token is misspelt. */
  function Spelling(v: IndexView, tokens: seq<string>): Result<bool> {
    AnyOf(Verdicts(v, tokens))
  }

  /** A spelling check that throws nothing has found every word routable. */
  lemma SpellingRoutes(v: IndexView, dir: IndexFiles.Directory, tokens: seq<string>)
    requires Routes(v.termFrequency, dir) && Spelling(v, tokens).Ok?
    ensures Routed(dir, tokens)
  {
    AnyOfMeaning(Verdicts(v, tokens));
    forall t | t in tokens && ' ' !in t
      ensures IndexFiles.Lookup(dir, t).Ok?
    {
      var i :| 0 <= i < |tokens| && tokens[i] == t;
      assert Verdicts(v, tokens)[i].Ok?;
    }
    RoutedMeaning(dir, tokens);
  }

  /** `tokenFrequencies` after `processWord` has looked at `ts` in order:
      each token whose corpus frequency came back is recorded over what was
      there. */
  function Recorded(tf: map<string, int>, v: IndexView, ts: seq<string>): map<string, int>
    decreases |ts|
  {
    if ts == [] then tf
    else
      var n := |ts| - 1;
      var prev := Recorded(tf, v, ts[..n]);
      match v.termFrequency(ts[n])
      case Ok(f) => prev[ts[n] := f]
      case Err(_) => prev
  }

  lemma RecordedSnoc(tf: map<string, int>, v: IndexView, ts: seq<string>, k: nat)
    requires k < |ts|
    ensures Recorded(tf, v, ts[..k + 1])
      == match v.termFrequency(ts[k])
         case Ok(f) => Recorded(tf, v, ts[..k])[ts[k] := f]
         case Err(_) => Recorded(tf, v, ts[..k])
  {
    assert ts[..k + 1][..k] == ts[..k];
  }

  /** Every token looked at whose frequency came back maps to it, and every
      other entry is kept. */
  lemma {:induction false} RecordedMeaning(tf: map<string, int>, v: IndexView, ts: seq<string>)
    ensures Recorded(tf, v, ts).Keys == tf.Keys + set t | t in ts && v.termFrequency(t).Ok?
    ensures forall t :: t in ts && v.termFrequency(t).Ok? ==> Recorded(tf, v, ts)[t] == v.termFrequency(t).value
    ensures forall t :: t in tf && (t !in ts || v.termFrequency(t).Err?) ==> Recorded(tf, v, ts)[t] == tf[t]
    decreases |ts|
  {
    if ts != [] {
      var n := |ts| - 1;
      RecordedMeaning(tf, v, ts[..n]);
      forall t ensures t in ts <==> t in ts[..n] || t == ts[n] {
        TakeSnoc(ts, n);
        assert ts[..n + 1] == ts;
      }
    }
  }

  // ---------------------------------------------------------------------------
  // Stop words
  // ---------------------------------------------------------------------------

  /** `(int) (STOP_WORD_RATIO * numDocs())`: half the documents, rounded
      down. */
  function StopThreshold(numDocs: nat): (th: nat)
    ensures 2 * th <= numDocs < 2 * th + 2
  {
    numDocs / 2
  }

  /** A stop word is in more documents than the threshold. */
  predicate IsStopWord(v: IndexView, th: int, token: string) {
    v.docFrequency(token).Ok? && v.docFrequency(token).value > th
  }

  /** The stop-word test of one token, or what its statistic throws. */
  function StopAnswer(v: IndexView, th: int, token: string): (r: Result<bool>)
    ensures r == Ok(true) <==> IsStopWord(v, th, token)
  {
    match v.docFrequency(token)
    case Ok(n) => Ok(n > th)
    case Err(f) => Err(f)
  }

  function StopAnswers(v: IndexView, th: int, tokens: seq<string>): (rs: seq<Result<bool>>)
    ensures |rs| == |tokens| && forall i :: 0 <= i < |tokens| ==> rs[i] == StopAnswer(v, th, tokens[i])
  {
    seq(|tokens|, i requires 0 <= i < |tokens| => StopAnswer(v, th, tokens[i]))
  }

  /** `removalList`: the positions of the stop words. */
  function StopPositions(v: IndexView, th: int, tokens: seq<string>): seq<nat> {
    if tokens == [] then []
    else
      var n := |tokens| - 1;
      StopPositions(v, th, tokens[..n]) + (if IsStopWord(v, th, tokens[n]) then [n] else [])
  }

  /** The tokens that are not stop words, in their order. */
  function Survivors(v: IndexView, th: int, tokens: seq<string>): seq<string> {
    if tokens == [] then []
    else
      var n := |tokens| - 1;
      Survivors(v, th, tokens[..n]) + (if IsStopWord(v, th, tokens[n]) then [] else [tokens[n]])
  }

  /** The query's tokens after filtering: the survivors, unless every token
      is a stop word, in which case the query is left whole. */
  function Filtered(v: IndexView, th: int, tokens: seq<string>): seq<string> {
    if |StopPositions(v, th, tokens)| < |tokens| then Survivors(v, th, tokens) else tokens
  }

  /** Every position is one of a token. */
  lemma {:induction false} StopPositionsBound(v: IndexView, th: int, tokens: seq<string>)
    ensures forall i :: 0 <= i < |StopPositions(v, th, tokens)| ==> StopPositions(v, th, tokens)[i] < |tokens|
    decreases |tokens|
  {
    if tokens != [] {
      StopPositionsBound(v, th, tokens[..|tokens| - 1]);
    }
  }

  /** The positions ascend. */
  lemma {:induction false} StopPositionsAscend(v: IndexView, th: int, tokens: seq<string>)
    ensures Ascending(StopPositions(v, th, tokens))
    decreases |tokens|
  {
    if tokens != [] {
      StopPositionsAscend(v, th, tokens[..|tokens| - 1]);
      StopPositionsBound(v, th, tokens[..|tokens| - 1]);
    }
  }

  /** The positions name exactly the stop words. */
  lemma {:induction false} StopPositionsExact(v: IndexView, th: int, tokens: seq<string>, j: int)
    requires 0 <= j < |tokens|
    ensures IsStopWord(v, th, tokens[j]) <==> j in StopPositions(v, th, tokens)
    decreases |tokens|
  {
    var n := |tokens| - 1;
    StopPositionsBound(v, th, tokens[..n]);
    if j < n {
      StopPositionsExact(v, th, tokens[..n], j);
      assert tokens[..n][j] == tokens[j];
    }
  }

  /** The survivors and the stop positions share out the tokens. */
  lemma {:induction false} SurvivorsCount(v: IndexView, th: int, tokens: seq<string>)
    ensures |Survivors(v, th, tokens)| + |StopPositions(v, th, tokens)| == |tokens|
    decreases |tokens|
  {
    if tokens != [] {
      SurvivorsCount(v, th, tokens[..|tokens| - 1]);
    }
  }

  /** The survivors are the tokens that are not stop words. */
  lemma {:induction false} SurvivorsAre(v: IndexView, th: int, tokens: seq<string>, t: string)
    ensures t in Survivors(v, th, tokens) <==> t in tokens && !IsStopWord(v, th, t)
    decreases |tokens|
  {
    if tokens != [] {
      var n := |tokens| - 1;
      SurvivorsAre(v, th, tokens[..n], t);
      assert tokens == tokens[..n] + [tokens[n]];
    }
  }

  /** Filtering never empties a query that has tokens, and what it keeps
      holds no stop word unless every token is one. */
  lemma FilteredKeepsSomething(v: IndexView, th: int, tokens: seq<string>)
    ensures tokens != [] ==> Filtered(v, th, tokens) != []
    ensures (exists t :: t in tokens && !IsStopWord(v, th, t)) ==>
      forall t :: t in Filtered(v, th, tokens) ==> !IsStopWord(v, th, t)
  {
    SurvivorsCount(v, th, tokens);
    if exists t :: t in tokens && !IsStopWord(v, th, t) {
      var t :| t in tokens && !IsStopWord(v, th, t);
      SurvivorsAre(v, th, tokens, t);
      assert |StopPositions(v, th, tokens)| < |tokens|;
      forall u | u in Filtered(v, th, tokens)
        ensures !IsStopWord(v, th, u)
      {
        SurvivorsAre(v, th, tokens, u);
      }
    }
  }

  /** The filtered query keeps only tokens of the query, and no stop word
      when some token survives. */
  lemma FilteredWithin(v: IndexView, th: int, tokens: seq<string>)
    ensures forall t :: t in Filtered(v, th, tokens) ==> t in tokens
    ensures |StopPositions(v, th, tokens)| < |tokens| ==>
      forall t :: t in Filtered(v, th, tokens) ==> !IsStopWord(v, th, t)
    ensures TokenIndex.AllWords(tokens) ==> TokenIndex.AllWords(Filtered(v, th, tokens))
  {
    forall t | t in Filtered(v, th, tokens)
      ensures t in tokens
      ensures |StopPositions(v, th, tokens)| < |tokens| ==> !IsStopWord(v, th, t)
    {
      SurvivorsAre(v, th, tokens, t);
    }
    if TokenIndex.AllWords(tokens) {
      var f := Filtered(v, th, tokens);
      forall k | 0 <= k < |f|
        ensures ' ' !in f[k]
      {
        assert f[k] in tokens;
        var i :| 0 <= i < |tokens| && tokens[i] == f[k];
      }
    }
  }

  /** One more token of the prefix. */
  lemma PrefixSnoc(v: IndexView, th: int, tokens: seq<string>, n: nat)
    requires n < |tokens|
    ensures StopPositions(v, th, tokens[..n + 1])
      == StopPositions(v, th, tokens[..n]) + (if IsStopWord(v, th, tokens[n]) then [n] else [])
    ensures Survivors(v, th, tokens[..n + 1])
      == Survivors(v, th, tokens[..n]) + (if IsStopWord(v, th, tokens[n]) then [] else [tokens[n]])
  {
    assert tokens[..n + 1][..n] == tokens[..n];
  }

  /** A stretch without stop words survives whole. */
  lemma {:induction false} SurvivorsRun(v: IndexView, th: int, tokens: seq<string>, p: nat, q: nat)
    requires p <= q <= |tokens|
    requires forall j :: p <= j < q ==> !IsStopWord(v, th, tokens[j])
    ensures Survivors(v, th, tokens[..q]) == Survivors(v, th, tokens[..p]) + tokens[p..q]
    decreases q
  {
    if q > p {
      SurvivorsRun(v, th, tokens, p, q - 1);
      assert tokens[..q][..q - 1] == tokens[..q - 1];
      assert tokens[p..q] == tokens[p..q - 1] + [tokens[q - 1]];
    }
  }

  /** A stretch without stop words adds no position. */
  lemma {:induction false} StopPositionsRun(v: IndexView, th: int, tokens: seq<string>, p: nat, q: nat)
    requires p <= q <= |tokens|
    requires forall j :: p <= j < q ==> !IsStopWord(v, th, tokens[j])
    ensures StopPositions(v, th, tokens[..q]) == StopPositions(v, th, tokens[..p])
    decreases q
  {
    if q > p {
      StopPositionsRun(v, th, tokens, p, q - 1);
      PrefixSnoc(v, th, tokens, q - 1);
    }
  }

  /** The stop positions before the `k`-th are those of the prefix ending
      at it. */
  lemma {:induction false} StopPositionsBefore(v: IndexView, th: int, tokens: seq<string>, k: nat)
    requires k < |StopPositions(v, th, tokens)|
    ensures StopPositions(v, th, tokens)[k] < |tokens|
    ensures StopPositions(v, th, tokens[..StopPositions(v, th, tokens)[k]]) == StopPositions(v, th, tokens)[..k]
    decreases k
  {
    var ms := StopPositions(v, th, tokens);
    if k == 0 {
      NoStopBetween(v, th, tokens, 0, 0);
      StopPositionsRun(v, th, tokens, 0, ms[0]);
      assert tokens[..0] == [];
    } else {
      StopPositionsBefore(v, th, tokens, k - 1);
      var r := ms[k - 1];
      NoStopBetween(v, th, tokens, k, r + 1);
      StopPositionsRun(v, th, tokens, r + 1, ms[k]);
      assert r in ms;
      StopPositionsExact(v, th, tokens, r);
      PrefixSnoc(v, th, tokens, r);
      assert ms[..k] == ms[..k - 1] + [r];
    }
  }

  /** Between the stop position before the `k`-th and the `k`-th there is
      no stop word. */
  lemma NoStopBetween(v: IndexView, th: int, tokens: seq<string>, k: nat, p: nat)
    requires k < |StopPositions(v, th, tokens)|
    requires k > 0 ==> p == StopPositions(v, th, tokens)[k - 1] + 1
    requires k == 0 ==> p == 0
    ensures p <= StopPositions(v, th, tokens)[k] < |tokens|
    ensures forall j :: p <= j < StopPositions(v, th, tokens)[k] ==> !IsStopWord(v, th, tokens[j])
  {
    var ms := StopPositions(v, th, tokens);
    StopPositionsBound(v, th, tokens);
    StopPositionsAscend(v, th, tokens);
    forall j | p <= j < ms[k]
      ensures !IsStopWord(v, th, tokens[j])
    {
      StopPositionsExact(v, th, tokens, j);
    }
  }

  /** `list.remove(i)`: the list without its `i`-th element. */
  function CutAt<T>(s: seq<T>, i: nat): (r: seq<T>)
    requires i < |s|
    ensures |r| == |s| - 1
  {
    s[..i] + s[i + 1..]
  }

  /** Taking out the element after `a`. */
  lemma DropAt<T>(s: seq<T>, a: seq<T>, x: T, c: seq<T>)
    requires s == a + [x] + c
    ensures CutAt(s, |a|) == a + c
  {
    assert s[..|a|] == a;
    assert s[|a| + 1..] == c;
  }

  /** Taking a stop word out of the partly filtered list where the
      unfiltered part begins with stop-free tokens up to it. */
  lemma RemovalShift(v: IndexView, th: int, tokens: seq<string>, removed: nat, p: nat, r: nat)
    requires p <= r < |tokens| && removed <= p
    requires |Survivors(v, th, tokens[..p])| == p - removed
    requires forall j :: p <= j < r ==> !IsStopWord(v, th, tokens[j])
    requires IsStopWord(v, th, tokens[r])
    ensures r - removed < |Survivors(v, th, tokens[..p]) + tokens[p..]|
    ensures CutAt(Survivors(v, th, tokens[..p]) + tokens[p..], r - removed)
      == Survivors(v, th, tokens[..r + 1]) + tokens[r + 1..]
  {
    SurvivorsRun(v, th, tokens, p, r);
    var front := Survivors(v, th, tokens[..p]);
    var before := Survivors(v, th, tokens[..r]);
    assert before == front + tokens[p..r];
    assert tokens[p..] == tokens[p..r] + [tokens[r]] + tokens[r + 1..];
    calc {
      front + tokens[p..];
      front + (tokens[p..r] + [tokens[r]] + tokens[r + 1..]);
      (front + tokens[p..r]) + [tokens[r]] + tokens[r + 1..];
      before + [tokens[r]] + tokens[r + 1..];
    }
    DropAt(front + tokens[p..], before, tokens[r], tokens[r + 1..]);
    PrefixSnoc(v, th, tokens, r);
  }

  /** Past the `k`-th stop word, the prefix's positions are the first
      `k + 1`. */
  lemma RemovalPositions(v: IndexView, th: int, tokens: seq<string>, k: nat)
    requires k < |StopPositions(v, th, tokens)|
    ensures StopPositions(v, th, tokens)[k] < |tokens|
    ensures StopPositions(v, th, tokens[..StopPositions(v, th, tokens)[k] + 1]) == StopPositions(v, th, tokens)[..k + 1]
  {
    var ms := StopPositions(v, th, tokens);
    var r := ms[k];
    StopPositionsBound(v, th, tokens);
    assert r in ms;
    StopPositionsExact(v, th, tokens, r);
    PrefixSnoc(v, th, tokens, r);
    StopPositionsBefore(v, th, tokens, k);
    assert ms[..k + 1] == ms[..k] + [r];
  }

  /** The removal loop after `k` removals: the tokens before `p`, just past
      the `k`-th stop word, are filtered and the rest are untouched. */
  ghost predicate RemovedUpTo(v: IndexView, th: int, tokens: seq<string>, k: nat, p: nat, current: seq<string>) {
    k <= |StopPositions(v, th, tokens)| && p <= |tokens|
    && (k > 0 ==> p == StopPositions(v, th, tokens)[k - 1] + 1) && (k == 0 ==> p == 0)
    && current == Survivors(v, th, tokens[..p]) + tokens[p..]
  }

  lemma RemovalStart(v: IndexView, th: int, tokens: seq<string>)
    ensures RemovedUpTo(v, th, tokens, 0, 0, tokens)
  {
    assert tokens[..0] == [] && tokens[0..] == tokens;
  }

  /** After `k` removals the filtered prefix holds `k` fewer tokens than
      it had. */
  lemma RemovedCount(v: IndexView, th: int, tokens: seq<string>, k: nat, p: nat, current: seq<string>)
    requires RemovedUpTo(v, th, tokens, k, p, current)
    ensures k <= p && |Survivors(v, th, tokens[..p])| == p - k
  {
    SurvivorsCount(v, th, tokens[..p]);
    if k > 0 {
      StopPositionsBound(v, th, tokens);
      RemovalPositions(v, th, tokens, k - 1);
    } else {
      assert tokens[..p] == [];
    }
  }

  /** One removal of `runQuery`'s loop: the `k`-th stop word sits at its
      position less `k` in the partly filtered list, and taking it out
      extends the filtered prefix past it. */
  lemma RemovalStep(v: IndexView, th: int, tokens: seq<string>, k: nat, p: nat, current: seq<string>, r: nat, next: seq<string>)
    requires RemovedUpTo(v, th, tokens, k, p, current) && k < |StopPositions(v, th, tokens)|
    requires r == StopPositions(v, th, tokens)[k]
    requires k <= r && r - k < |current| && next == CutAt(current, r - k)
    ensures RemovedUpTo(v, th, tokens, k + 1, r + 1, next)
  {
    StopPositionsBound(v, th, tokens);
    NoStopBetween(v, th, tokens, k, p);
    RemovedCount(v, th, tokens, k, p, current);
    assert r in StopPositions(v, th, tokens);
    StopPositionsExact(v, th, tokens, r);
    RemovalShift(v, th, tokens, k, p, r);
  }

  /** Where the `k`-th removal happens: at the stop word's position less
      `k`, inside the partly filtered list. */
  lemma RemovalIndex(v: IndexView, th: int, tokens: seq<string>, k: nat, p: nat, current: seq<string>)
    requires RemovedUpTo(v, th, tokens, k, p, current) && k < |StopPositions(v, th, tokens)|
    ensures k <= StopPositions(v, th, tokens)[k] && StopPositions(v, th, tokens)[k] - k < |current|
  {
    StopPositionsBound(v, th, tokens);
    NoStopBetween(v, th, tokens, k, p);
    RemovedCount(v, th, tokens, k, p, current);
  }

  /** After the last removal the rest of the list has no stop word. */
  lemma RemovalDone(v: IndexView, th: int, tokens: seq<string>, p: nat, current: seq<string>)
    requires RemovedUpTo(v, th, tokens, |StopPositions(v, th, tokens)|, p, current)
    ensures current == Survivors(v, th, tokens)
  {
    var ms := StopPositions(v, th, tokens);
    StopPositionsAscend(v, th, tokens);
    forall j | p <= j < |tokens|
      ensures !IsStopWord(v, th, tokens[j])
    {
      StopPositionsExact(v, th, tokens, j);
    }
    SurvivorsRun(v, th, tokens, p, |tokens|);
    assert tokens[..|tokens|] == tokens;
  }

  /** The list after the first `k` removals of `runQuery`'s loop, each at
      its listed position less the removals before it (a position outside
      the list would throw; it is skipped here, and `RemovalInRange` shows
      the stop positions never reach that case). */
  function AfterRemovals(tokens: seq<string>, removalList: seq<nat>, k: nat): seq<string>
    requires k <= |removalList|
  {
    if k == 0 then tokens
    else
      var prev := AfterRemovals(tokens, removalList, k - 1);
      if removalList[k - 1] - (k - 1) < 0 || removalList[k - 1] - (k - 1) >= |prev| then prev
      else CutAt(prev, removalList[k - 1] - (k - 1))
  }

  /** Where the filtered prefix ends after `k` removals. */
  function FilteredEnd(ms: seq<nat>, k: nat): nat
    requires k <= |ms|
  {
    if k == 0 then 0 else ms[k - 1] + 1
  }

  /** The removals of the stop positions keep the loop's state. */
  lemma {:induction false} AfterRemovalsState(v: IndexView, th: int, tokens: seq<string>, k: nat)
    requires k <= |StopPositions(v, th, tokens)|
    ensures RemovedUpTo(v, th, tokens, k, FilteredEnd(StopPositions(v, th, tokens), k),
      AfterRemovals(tokens, StopPositions(v, th, tokens), k))
  {
    var ms := StopPositions(v, th, tokens);
    if k == 0 {
      RemovalStart(v, th, tokens);
    } else {
      AfterRemovalsState(v, th, tokens, k - 1);
      var p := FilteredEnd(ms, k - 1);
      var prev := AfterRemovals(tokens, ms, k - 1);
      RemovalIndex(v, th, tokens, k - 1, p, prev);
      var next := CutAt(prev, ms[k - 1] - (k - 1));
      assert AfterRemovals(tokens, ms, k) == next;
      RemovalStep(v, th, tokens, k - 1, p, prev, ms[k - 1], next);
    }
  }

  /** Each removal of the stop positions is inside the list. */
  lemma RemovalInRange(v: IndexView, th: int, tokens: seq<string>, k: nat)
    requires k < |StopPositions(v, th, tokens)|
    ensures 0 <= StopPositions(v, th, tokens)[k] - k < |AfterRemovals(tokens, StopPositions(v, th, tokens), k)|
  {
    AfterRemovalsState(v, th, tokens, k);
    RemovalIndex(v, th, tokens, k, FilteredEnd(StopPositions(v, th, tokens), k),
      AfterRemovals(tokens, StopPositions(v, th, tokens), k));
  }

  /** Removing every stop position leaves exactly the tokens that are not
      stop words, in order. */
  lemma AllRemoved(v: IndexView, th: int, tokens: seq<string>)
    ensures AfterRemovals(tokens, StopPositions(v, th, tokens), |StopPositions(v, th, tokens)|)
      == Survivors(v, th, tokens)
  {
    var ms := StopPositions(v, th, tokens);
    AfterRemovalsState(v, th, tokens, |ms|);
    RemovalDone(v, th, tokens, FilteredEnd(ms, |ms|), AfterRemovals(tokens, ms, |ms|));
  }

  /** The cache holds only tokens it held `before` or tokens among `ts`. */
  ghost predicate Within(c: Organizer.TokenCache, before: set<string>, ts: seq<string>) {
    forall x :: x in c.entries ==> x in before || x in ts
  }

  /** The indexer's token cache after `loadIndexFor` of each word of `ts` in
      turn. What a phrase loads is not modelled. */
  ghost function AfterLoads(c: Organizer.TokenCache, dir: IndexFiles.Directory, ts: seq<string>): Organizer.TokenCache
    decreases |ts|
  {
    if ts == [] then c
    else
      var n := |ts| - 1;
      var prev := AfterLoads(c, dir, ts[..n]);
      if ' ' in ts[n] then prev else Organizer.Loaded(prev, dir, ts[n])
  }

  lemma AfterLoadsSnoc(c: Organizer.TokenCache, dir: IndexFiles.Directory, ts: seq<string>, k: nat)
    requires k < |ts|
    ensures AfterLoads(c, dir, ts[..k + 1])
      == if ' ' in ts[k] then AfterLoads(c, dir, ts[..k]) else Organizer.Loaded(AfterLoads(c, dir, ts[..k]), dir, ts[k])
  {
    assert ts[..k + 1][..k] == ts[..k];
  }

  /** Loading keeps the cache well formed and adds only words looked at. */
  lemma {:induction false} AfterLoadsKeeps(c: Organizer.TokenCache, dir: IndexFiles.Directory, ts: seq<string>)
    requires c.Valid()
    ensures AfterLoads(c, dir, ts).Valid() && AfterLoads(c, dir, ts).capacity == c.capacity
    ensures Within(AfterLoads(c, dir, ts), c.entries.Keys, ts)
    decreases |ts|
  {
    if ts != [] {
      var n := |ts| - 1;
      AfterLoadsKeeps(c, dir, ts[..n]);
      AfterLoadsSnoc(c, dir, ts, n);
      TakeSnoc(ts, n);
      assert ts[..n + 1] == ts;
    }
  }

  /** Loads that stop early add only words of the query. */
  lemma AfterLoadsWithin(c: Organizer.TokenCache, dir: IndexFiles.Directory, ts: seq<string>, k: nat)
    requires c.Valid() && k <= |ts|
    ensures Within(AfterLoads(c, dir, ts[..k]), c.entries.Keys, ts)
  {
    AfterLoadsKeeps(c, dir, ts[..k]);
    assert forall t :: t in ts[..k] ==> t in ts;
  }

  /** The indexer's token cache after the stop-word test of one token: its
      statistic loads a word, and a stop word is then removed. What a
      phrase loads is not modelled. */
  ghost function StopStep(c: Organizer.TokenCache, v: IndexView, dir: IndexFiles.Directory, th: int, t: string): Organizer.TokenCache {
    var loaded := if ' ' in t then c else Organizer.Loaded(c, dir, t);
    if IsStopWord(v, th, t) then Remove(loaded, t) else loaded
  }

  /** The indexer's token cache after the stop-word loop has looked at each
      token of `ts` in turn. */
  ghost function StopPass(c: Organizer.TokenCache, v: IndexView, dir: IndexFiles.Directory, th: int, ts: seq<string>): Organizer.TokenCache
    decreases |ts|
  {
    if ts == [] then c
    else StopStep(StopPass(c, v, dir, th, ts[..|ts| - 1]), v, dir, th, ts[|ts| - 1])
  }

  lemma StopPassSnoc(c: Organizer.TokenCache, v: IndexView, dir: IndexFiles.Directory, th: int, ts: seq<string>, k: nat)
    requires k < |ts|
    ensures StopPass(c, v, dir, th, ts[..k + 1]) == StopStep(StopPass(c, v, dir, th, ts[..k]), v, dir, th, ts[k])
  {
    assert ts[..k + 1][..k] == ts[..k];
  }

  /** One token through the stop-word loop without an exception: the
      removal list, the or-fold and the cache each take one step. */
  lemma StopLoopStep(c0: Organizer.TokenCache, v: IndexView, dir: IndexFiles.Directory, th: int, tokens: seq<string>,
                     j: nat, removalList: seq<nat>, stop: bool, before: Organizer.TokenCache, after: Organizer.TokenCache)
    requires j < |tokens|
    requires AnyOf(StopAnswers(v, th, tokens)[..j]).Ok? && StopAnswer(v, th, tokens[j]) == Ok(stop)
    requires removalList == StopPositions(v, th, tokens[..j])
    requires TokenIndex.AllWords(tokens) ==> before == StopPass(c0, v, dir, th, tokens[..j])
    requires ' ' !in tokens[j] ==> after == StopStep(before, v, dir, th, tokens[j])
    ensures AnyOf(StopAnswers(v, th, tokens)[..j + 1]).Ok?
    ensures removalList + (if stop then [j] else []) == StopPositions(v, th, tokens[..j + 1])
    ensures TokenIndex.AllWords(tokens) ==> after == StopPass(c0, v, dir, th, tokens[..j + 1])
  {
    PrefixSnoc(v, th, tokens, j);
    StopPassSnoc(c0, v, dir, th, tokens, j);
    AnyOfSnoc(StopAnswers(v, th, tokens), j);
  }

  /** After the stop-word loop, the cache is still well formed and holds
      only what it held or a word looked at. */
  lemma {:induction false} StopPassKeeps(c: Organizer.TokenCache, v: IndexView, dir: IndexFiles.Directory, th: int, ts: seq<string>)
    requires c.Valid()
    ensures StopPass(c, v, dir, th, ts).Valid() && StopPass(c, v, dir, th, ts).capacity == c.capacity
    ensures Within(StopPass(c, v, dir, th, ts), c.entries.Keys, ts)
    decreases |ts|
  {
    if ts != [] {
      var n := |ts| - 1;
      StopPassKeeps(c, v, dir, th, ts[..n]);
      StopPassSnoc(c, v, dir, th, ts, n);
      TakeSnoc(ts, n);
      assert ts[..n + 1] == ts;
    }
  }

  /** After the stop-word loop, no stop word looked at is cached. */
  lemma {:induction false} StopPassClears(c: Organizer.TokenCache, v: IndexView, dir: IndexFiles.Directory, th: int, ts: seq<string>)
    requires c.Valid()
    ensures forall t :: t in ts && IsStopWord(v, th, t) ==> t !in StopPass(c, v, dir, th, ts).entries
    decreases |ts|
  {
    if ts != [] {
      var n := |ts| - 1;
      StopPassClears(c, v, dir, th, ts[..n]);
      StopPassKeeps(c, v, dir, th, ts[..n]);
      StopPassSnoc(c, v, dir, th, ts, n);
      forall t | t in ts && IsStopWord(v, th, t)
        ensures t !in StopPass(c, v, dir, th, ts).entries
      {
        TakeSnoc(ts, n);
        assert ts[..n + 1] == ts;
      }
    }
  }

  /** Stopping early, the cache still holds only what it held or a word of
      the query. */
  lemma StopPassWithin(c: Organizer.TokenCache, v: IndexView, dir: IndexFiles.Directory, th: int, ts: seq<string>, k: nat)
    requires c.Valid() && k <= |ts|
    ensures Within(StopPass(c, v, dir, th, ts[..k]), c.entries.Keys, ts)
  {
    StopPassKeeps(c, v, dir, th, ts[..k]);
    assert forall t :: t in ts[..k] ==> t in ts;
  }

  // ---------------------------------------------------------------------------
  // The documents and the queue
  // ---------------------------------------------------------------------------

  /** The documents `nextDoc` returns after `d`, each call given the id
      before, each with its score: an exception from `nextDoc` or from
      `score`, or null, ends them. */
  function Visits(v: IndexView, tokens: seq<string>, d: int): seq<Scored>
    requires Ascends(v)
    decreases v.lastDoc - d
  {
    match v.nextDoc(tokens, d)
    case Ok(Some(e)) =>
      (match v.score(tokens, e)
       case Ok(s) => [Scored(e, s)] + Visits(v, tokens, e)
       case Err(_) => [])
    case _ => []
  }

  /** The ids of scored documents. */
  function Ids(q: seq<Scored>): (r: seq<int>)
    ensures |r| == |q| && forall i :: 0 <= i < |q| ==> r[i] == q[i].docid
  {
    seq(|q|, i requires 0 <= i < |q| => q[i].docid)
  }

  /** Every document is visited at most once, in ascending order, after
      `d` and not past the last document, and carries the score `score`
      gave it. */
  lemma {:induction false} VisitsAscend(v: IndexView, tokens: seq<string>, d: int)
    requires Ascends(v)
    ensures forall i :: 0 <= i < |Visits(v, tokens, d)| ==>
      && d < Visits(v, tokens, d)[i].docid <= v.lastDoc
      && v.score(tokens, Visits(v, tokens, d)[i].docid) == Ok(Visits(v, tokens, d)[i].score)
    ensures Ascending(Ids(Visits(v, tokens, d)))
    decreases v.lastDoc - d
  {
    match v.nextDoc(tokens, d)
    case Ok(Some(e)) =>
      if v.score(tokens, e).Ok? {
        VisitsAscend(v, tokens, e);
        var q := Visits(v, tokens, d);
        assert q[1..] == Visits(v, tokens, e);
        assert Ids(q)[1..] == Ids(Visits(v, tokens, e));
      }
    case _ =>
  }

  /** The position of a lowest score: what `poll` takes from the queue. */
  function MinIndex(q: seq<Scored>): (m: nat)
    requires q != []
    ensures m < |q| && forall i :: 0 <= i < |q| ==> q[m].score <= q[i].score
  {
    if |q| == 1 then 0
    else
      var m := MinIndex(q[..|q| - 1]);
      if q[|q| - 1].score < q[m].score then |q| - 1 else m
  }

  /** `kept` is a best `n` of `all`: as many as there are, up to `n`, taken
      from `all`, and no score left behind beats a score kept. */
  predicate Best(kept: seq<Scored>, all: seq<Scored>, n: int) {
    |kept| == Min(|all|, Max(0, n))
    && multiset(kept) <= multiset(all)
    && forall a, b :: a in multiset(all) - multiset(kept) && b in kept ==> a.score <= b.score
  }

  /** When there is room for all, all are kept. */
  lemma BestKeepsAll(kept: seq<Scored>, all: seq<Scored>, n: int)
    requires Best(kept, all, n) && n >= |all|
    ensures multiset(kept) == multiset(all)
  {
    assert |multiset(kept)| == |multiset(all)|;
    assert |multiset(all) - multiset(kept)| == 0;
  }

  /** The queue after the documents `seen`: as many as there are, up to
      `n`, kept, the rest dropped, and no score dropped above one kept. */
  ghost predicate Queued(kept: seq<Scored>, dropped: seq<Scored>, seen: seq<Scored>, n: int) {
    && |kept| == Min(|seen|, Max(0, n))
    && multiset(kept) + multiset(dropped) == multiset(seen)
    && forall a, b :: a in dropped && b in kept ==> a.score <= b.score
  }

  /** The queue at the end of the loop is a best of all it was offered. */
  lemma QueueDone(kept: seq<Scored>, dropped: seq<Scored>, all: seq<Scored>, n: int)
    requires Queued(kept, dropped, all, n)
    ensures Best(kept, all, n)
  {
    assert multiset(all) - multiset(kept) == multiset(dropped);
  }

  /** One call of the loop: the documents still to come after `d` are the
      next one with its score and those after it, and none once the
      enumeration ends or the score throws. */
  lemma VisitsStep(v: IndexView, tokens: seq<string>, seen: seq<Scored>, d: int)
    requires Ascends(v)
    ensures v.nextDoc(tokens, d).Ok? && v.nextDoc(tokens, d).value.Some? ==>
      var e := v.nextDoc(tokens, d).value.value;
      if v.score(tokens, e).Ok?
      then seen + Visits(v, tokens, d) == (seen + [Scored(e, v.score(tokens, e).value)]) + Visits(v, tokens, e)
      else seen + Visits(v, tokens, d) == seen
    ensures v.nextDoc(tokens, d).Err? || v.nextDoc(tokens, d).value.None? ==> seen + Visits(v, tokens, d) == seen
  {
  }

  /** One document into a queue with room for it: the queue stays a best
      of what was seen, and nothing was dropped yet. */
  lemma QueueAdd(kept: seq<Scored>, dropped: seq<Scored>, seen: seq<Scored>, curr: Scored, n: int)
    requires Queued(kept, dropped, seen, n) && |kept| + 1 <= n
    ensures dropped == []
    ensures Queued(kept + [curr], dropped, seen + [curr], n)
  {
    assert |multiset(kept)| + |multiset(dropped)| == |multiset(seen)|;
  }

  /** Polling the lowest of a queue that took one more document keeps
      every entry accounted for, either kept or dropped. */
  lemma QueuePollCount(kept: seq<Scored>, dropped: seq<Scored>, seen: seq<Scored>, curr: Scored, q: seq<Scored>, m: nat)
    requires multiset(kept) + multiset(dropped) == multiset(seen)
    requires q == kept + [curr] && m < |q|
    ensures multiset(CutAt(q, m)) + multiset(dropped + [q[m]]) == multiset(seen + [curr])
  {
    var k2 := CutAt(q, m);
    calc {
      multiset(k2) + multiset(dropped + [q[m]]);
      multiset(k2) + (multiset(dropped) + multiset{q[m]});
      (multiset(k2) + multiset{q[m]}) + multiset(dropped);
      { assert q == q[..m] + [q[m]] + q[m + 1..]; }
      multiset(q) + multiset(dropped);
      (multiset(kept) + multiset{curr}) + multiset(dropped);
      (multiset(kept) + multiset(dropped)) + multiset{curr};
      multiset(seen + [curr]);
    }
  }

  /** Polling the lowest keeps every dropped score at or below every kept
      one. */
  lemma QueuePollOrder(kept: seq<Scored>, dropped: seq<Scored>, curr: Scored, q: seq<Scored>, m: nat)
    requires forall a, b :: a in dropped && b in kept ==> a.score <= b.score
    requires q == kept + [curr] && m < |q|
    requires forall i :: 0 <= i < |q| ==> q[m].score <= q[i].score
    ensures forall a, b :: a in dropped + [q[m]] && b in CutAt(q, m) ==> a.score <= b.score
  {
    var k2 := CutAt(q, m);
    forall a, b | a in dropped + [q[m]] && b in k2
      ensures a.score <= b.score
    {
      var j :| 0 <= j < |k2| && k2[j] == b;
      var jq := if j < m then j else j + 1;
      assert q[jq] == b;
      if a in dropped {
        if jq < |kept| {
          assert b in kept;
        } else {
          assert q[m] in kept;
        }
      }
    }
  }

  /** One document into a full queue and the lowest out: the queue stays a
      best of what was seen. */
  lemma QueuePoll(kept: seq<Scored>, dropped: seq<Scored>, seen: seq<Scored>, curr: Scored, n: int, m: nat)
    requires Queued(kept, dropped, seen, n) && |kept| + 1 > n
    requires m < |kept + [curr]|
    requires forall i :: 0 <= i < |kept + [curr]| ==> (kept + [curr])[m].score <= (kept + [curr])[i].score
    ensures Queued(CutAt(kept + [curr], m), dropped + [(kept + [curr])[m]], seen + [curr], n)
  {
    QueuePollCount(kept, dropped, seen, curr, kept + [curr], m);
    QueuePollOrder(kept, dropped, curr, kept + [curr], m);
  }

  // ---------------------------------------------------------------------------
  // The ranker
  // ---------------------------------------------------------------------------

  /** The query text is cached. */
  predicate Hit<V>(query: Option<string>, cache: Cache<V>) {
    query.Some? && query.value in cache.entries
  }

  /** The query text is not cached. */
  predicate Miss<V>(query: Option<string>, cache: Cache<V>) {
    query.Some? && query.value !in cache.entries
  }

  class RankerComprehensive {
    /** The indexer's answers. */
    const view: IndexView
    /** The indexer's token cache, which its statistics load and
        `removeFromCache` clears. */
    const organizer: Organizer.IndexOrganizer
    /** `cachedQueries`: raw query text to its answer. */
    var cachedQueries: Cache<seq<Scored>>
    /** `tokenFrequencies`: corpus frequency of each token looked at. */
    var tokenFrequencies: map<string, int>

    ghost predicate Valid()
      reads this, organizer
    {
      organizer.Valid() && cachedQueries.Valid() && cachedQueries.capacity == QUERIES_TO_CACHE
      && Ascends(view)
      && Routes(view.termFrequency, organizer.dir) && Routes(view.docFrequency, organizer.dir)
    }

    constructor (view: IndexView, organizer: Organizer.IndexOrganizer)
      requires organizer.Valid() && Ascends(view)
      requires Routes(view.termFrequency, organizer.dir) && Routes(view.docFrequency, organizer.dir)
      ensures Valid() && this.view == view && this.organizer == organizer
      ensures cachedQueries.entries == map[] && tokenFrequencies == map[]
    {
      this.view := view;
      this.organizer := organizer;
      cachedQueries := Empty(QUERIES_TO_CACHE);
      tokenFrequencies := map[];
    }

    /** A statistic of the indexer for `token`: a word is first loaded
        through `loadIndexFor`, which throws when the word cannot be
        routed. */
    method Statistic(stat: string -> Result<int>, token: string) returns (r: Result<int>)
      requires organizer.Valid() && Routes(stat, organizer.dir)
      modifies organizer
      ensures organizer.Valid()
      ensures r == stat(token)
      ensures ' ' !in token ==> organizer.cachedTokens == Organizer.Loaded(old(organizer.cachedTokens), organizer.dir, token)
    {
      if ' ' !in token {
        var bytes := organizer.LoadIndexFor(token);
        if bytes.Err? {
          return Err(bytes.fault);
        }
      }
      r := stat(token);
    }

    /** `processWord` without the suggestion text: records the token's
        corpus frequency and reports whether it is misspelt, or throws what
        a frequency lookup throws. For a misspelt word Java's
        `correctSpelling` also loads the suggestions it sorts into the token
        cache; those loads are not modelled. */
    method ProcessWord(token: string) returns (r: Result<bool>)
      requires organizer.Valid() && Routes(view.termFrequency, organizer.dir)
      modifies this, organizer
      ensures organizer.Valid()
      ensures r == WordVerdict(view, token)
      ensures view.termFrequency(token).Ok? ==>
        tokenFrequencies == old(tokenFrequencies)[token := view.termFrequency(token).value]
      ensures view.termFrequency(token).Err? ==> tokenFrequencies == old(tokenFrequencies)
      ensures ' ' !in token ==> organizer.cachedTokens == Organizer.Loaded(old(organizer.cachedTokens), organizer.dir, token)
      ensures cachedQueries == old(cachedQueries)
    {
      var tokenFrequency := Statistic(view.termFrequency, token);
      if tokenFrequency.Err? {
        return Err(tokenFrequency.fault);
      }
      tokenFrequencies := tokenFrequencies[token := tokenFrequency.value];
      if ' ' in token {
        var spellingIssue := false;
        var words := Split(token, RegexSpace);
        ghost var rs := Rarities(view, words);
        for k := 0 to |words|
          invariant organizer.Valid()
          invariant AnyOf(rs[..k]) == Ok(spellingIssue)
          invariant tokenFrequencies == old(tokenFrequencies)[token := tokenFrequency.value]
          invariant cachedQueries == old(cachedQueries)
        {
          var quotedTokenFrequency := Statistic(view.termFrequency, words[k]);
          AnyOfSnoc(rs, k);
          if quotedTokenFrequency.Err? {
            AnyOfSticks(rs, k + 1);
            return Err(quotedTokenFrequency.fault);
          }
          if quotedTokenFrequency.value <= 1 {
            spellingIssue := true;
          }
        }
        assert rs[..|words|] == rs;
        return Ok(spellingIssue);
      }
      r := Ok(tokenFrequency.value <= 1);
    }

    /** The spelling loop of `runQuery`: the tokens are looked at in order
        until one throws, and the outcome is whether any is misspelt. */
    method CheckSpelling(tokens: seq<string>) returns (r: Result<bool>, ghost looked: nat)
      requires organizer.Valid() && Routes(view.termFrequency, organizer.dir)
      modifies this, organizer
      ensures organizer.Valid()
      ensures r == Spelling(view, tokens)
      ensures looked <= |tokens| && (r.Ok? ==> looked == |tokens|)
      ensures tokenFrequencies == Recorded(old(tokenFrequencies), view, tokens[..looked])
      ensures TokenIndex.AllWords(tokens) ==>
        organizer.cachedTokens == AfterLoads(old(organizer.cachedTokens), organizer.dir, tokens[..looked])
      ensures cachedQueries == old(cachedQueries)
    {
      ghost var c0 := organizer.cachedTokens;
      ghost var rs := Verdicts(view, tokens);
      var spellingIssue := false;
      for k := 0 to |tokens|
        invariant organizer.Valid()
        invariant AnyOf(rs[..k]) == Ok(spellingIssue)
        invariant tokenFrequencies == Recorded(old(tokenFrequencies), view, tokens[..k])
        invariant TokenIndex.AllWords(tokens) ==> organizer.cachedTokens == AfterLoads(c0, organizer.dir, tokens[..k])
        invariant cachedQueries == old(cachedQueries)
      {
        var verdict := ProcessWord(tokens[k]);
        RecordedSnoc(old(tokenFrequencies), view, tokens, k);
        AfterLoadsSnoc(c0, organizer.dir, tokens, k);
        AnyOfSnoc(rs, k);
        if verdict.Err? {
          AnyOfSticks(rs, k + 1);
          return Err(verdict.fault), k + 1;
        }
        if verdict.value {
          spellingIssue := true;
        }
      }
      assert tokens[..|tokens|] == tokens;
      assert rs[..|tokens|] == rs;
      r, looked := Ok(spellingIssue), |tokens|;
    }

    /** The test of the stop-word loop for one token: its document
        frequency against the threshold, or what the lookup throws; a stop
        word is then removed from the indexer's token cache. */
    method StopTest(token: string, th: int) returns (r: Result<bool>)
      requires organizer.Valid() && Routes(view.docFrequency, organizer.dir)
      modifies organizer
      ensures organizer.Valid()
      ensures r == StopAnswer(view, th, token)
      ensures ' ' !in token ==>
        organizer.cachedTokens == StopStep(old(organizer.cachedTokens), view, organizer.dir, th, token)
    {
      var frequency := Statistic(view.docFrequency, token);
      if frequency.Err? {
        return Err(frequency.fault);
      }
      if frequency.value > th {
        var _ := organizer.RemoveFromCache(token);
        return Ok(true);
      }
      r := Ok(false);
    }

    /** One round of the stop-word loop: the test of token `j`, and the
        removal list with `j` added when it is a stop word. */
    method StopRound(tokens: seq<string>, th: int, j: nat, removalList: seq<nat>, ghost c0: Organizer.TokenCache)
      returns (r: Result<seq<nat>>)
      requires organizer.Valid() && Routes(view.docFrequency, organizer.dir)
      requires j < |tokens| && AnyOf(StopAnswers(view, th, tokens)[..j]).Ok?
      requires removalList == StopPositions(view, th, tokens[..j])
      requires TokenIndex.AllWords(tokens) ==> organizer.cachedTokens == StopPass(c0, view, organizer.dir, th, tokens[..j])
      modifies organizer
      ensures organizer.Valid()
      ensures r.Err? ==> AnyOf(StopAnswers(view, th, tokens)[..j + 1]) == Err(r.fault)
      ensures r.Ok? ==> AnyOf(StopAnswers(view, th, tokens)[..j + 1]).Ok? && r.value == StopPositions(view, th, tokens[..j + 1])
      ensures TokenIndex.AllWords(tokens) ==> organizer.cachedTokens == StopPass(c0, view, organizer.dir, th, tokens[..j + 1])
    {
      ghost var before := organizer.cachedTokens;
      var stop := StopTest(tokens[j], th);
      if stop.Err? {
        AnyOfSnoc(StopAnswers(view, th, tokens), j);
        StopPassSnoc(c0, view, organizer.dir, th, tokens, j);
        return Err(stop.fault);
      }
      StopLoopStep(c0, view, organizer.dir, th, tokens, j, removalList, stop.value, before, organizer.cachedTokens);
      r := Ok(removalList + (if stop.value then [j] else []));
    }

    /** The stop-word loop of `runQuery`: the positions of the stop words,
        or the first exception of a document-frequency lookup. Each lookup
        loads its word into the indexer's token cache, and each stop word
        is then removed from it. */
    method MarkStopWords(tokens: seq<string>, th: int) returns (r: Result<seq<nat>>, ghost looked: nat)
      requires organizer.Valid() && Routes(view.docFrequency, organizer.dir)
      modifies organizer
      ensures organizer.Valid()
      ensures AnyOf(StopAnswers(view, th, tokens)).Ok? ==> r == Ok(StopPositions(view, th, tokens))
      ensures AnyOf(StopAnswers(view, th, tokens)).Err? ==> r == Err(AnyOf(StopAnswers(view, th, tokens)).fault)
      ensures looked <= |tokens| && (r.Ok? ==> looked == |tokens|)
      ensures TokenIndex.AllWords(tokens) ==>
        organizer.cachedTokens == StopPass(old(organizer.cachedTokens), view, organizer.dir, th, tokens[..looked])
    {
      ghost var c0 := organizer.cachedTokens;
      ghost var rs := StopAnswers(view, th, tokens);
      var removalList := [];
      var j := 0;
      while j < |tokens|
        invariant j <= |tokens| && organizer.Valid()
        invariant AnyOf(rs[..j]).Ok?
        invariant removalList == StopPositions(view, th, tokens[..j])
        invariant TokenIndex.AllWords(tokens) ==> organizer.cachedTokens == StopPass(c0, view, organizer.dir, th, tokens[..j])
      {
        var stop := StopRound(tokens, th, j, removalList, c0);
        if stop.Err? {
          AnyOfSticks(rs, j + 1);
          return Err(stop.fault), j + 1;
        }
        removalList := stop.value;
        j := j + 1;
      }
      assert tokens[..j] == tokens;
      assert rs[..j] == rs;
      r, looked := Ok(removalList), j;
    }

    /** The removal loop of `runQuery`: each listed position, shifted back
        by the removals before it, leaves the list; what is left is the
        tokens that are not stop words, in order. */
    method RemoveStopWords(query: QP.QueryPhrase, th: int, removalList: seq<nat>)
      requires removalList == StopPositions(view, th, query.tokens)
      modifies query
      ensures query.tokens == Survivors(view, th, old(query.tokens))
      ensures query.query == old(query.query) && query.raw == old(query.raw)
    {
      ghost var t := query.tokens;
      var removed := 0;
      while removed < |removalList|
        invariant removed <= |removalList|
        invariant query.tokens == AfterRemovals(t, removalList, removed)
        invariant query.query == old(query.query) && query.raw == old(query.raw)
      {
        var r := removalList[removed];
        RemovalInRange(view, th, t, removed);
        query.tokens := CutAt(query.tokens, r - removed);
        removed := removed + 1;
      }
      AllRemoved(view, th, t);
    }

    /** `getDocsWithToken`'s `loadIndexFor` of each word of the query, in
        order, as `nextDoc` and `score` make them: they stop at the first
        word that cannot be routed, and report whether there was none. */
    method LoadEach(tokens: seq<string>) returns (ok: bool, ghost loaded: nat)
      requires organizer.Valid()
      modifies organizer
      ensures organizer.Valid()
      ensures ok == Routed(organizer.dir, tokens)
      ensures loaded <= |tokens| && (ok ==> loaded == |tokens|)
      ensures organizer.cachedTokens == AfterLoads(old(organizer.cachedTokens), organizer.dir, tokens[..loaded])
    {
      ghost var c0 := organizer.cachedTokens;
      var k := 0;
      while k < |tokens|
        invariant k <= |tokens| && organizer.Valid()
        invariant Routed(organizer.dir, tokens[..k])
        invariant organizer.cachedTokens == AfterLoads(c0, organizer.dir, tokens[..k])
      {
        AfterLoadsSnoc(c0, organizer.dir, tokens, k);
        if ' ' !in tokens[k] {
          var bytes := organizer.LoadIndexFor(tokens[k]);
          if bytes.Err? {
            NotRouted(organizer.dir, tokens, k);
            return false, k + 1;
          }
        }
        RoutedSnoc(organizer.dir, tokens, k);
        k := k + 1;
      }
      assert tokens[..k] == tokens;
      ok, loaded := true, k;
    }

    /** One round of the document loop's calls to the indexer: `nextDoc`
        after `docId`, then the score of the document it yields. Both load
        every word of the query first. An exception from either, or the
        end of the documents, gives None. */
    method NextScored(tokens: seq<string>, docId: int) returns (next: Option<Scored>)
      requires organizer.Valid()
      modifies organizer
      ensures organizer.Valid()
      ensures TokenIndex.AllWords(tokens) ==>
        Within(organizer.cachedTokens, old(organizer.cachedTokens.entries.Keys), tokens)
      ensures !Routed(organizer.dir, tokens) ==> next.None?
      ensures Routed(organizer.dir, tokens) && view.nextDoc(tokens, docId).Ok? && view.nextDoc(tokens, docId).value.Some? ==>
        var e := view.nextDoc(tokens, docId).value.value;
        next == if view.score(tokens, e).Ok? then Some(Scored(e, view.score(tokens, e).value)) else None
      ensures view.nextDoc(tokens, docId).Err? || view.nextDoc(tokens, docId).value.None? ==> next.None?
    {
      ghost var c := organizer.cachedTokens;
      var routed;
      ghost var loaded;
      routed, loaded := LoadEach(tokens);
      AfterLoadsWithin(c, organizer.dir, tokens, loaded);
      if !routed {
        return None;
      }
      var doc := view.nextDoc(tokens, docId);
      if doc.Err? || doc.value.None? {
        return None;
      }
      c := organizer.cachedTokens;
      // Every word was routed just above, so the scoring loads cannot
      // throw; the score itself can.
      routed, loaded := LoadEach(tokens);
      AfterLoadsWithin(c, organizer.dir, tokens, loaded);
      var e := doc.value.value;
      var score := view.score(tokens, e);
      if score.Err? {
        return None;
      }
      next := Some(Scored(e, score.value));
    }

    /** The document loop of `runQuery`: every document `nextDoc` yields is
        scored and queued, and the lowest leaves whenever the queue holds
        more than `numResults`. An exception from `nextDoc` or from the
        score ends the loop, keeping the queue as it stands. */
    method TopScored(tokens: seq<string>, numResults: int) returns (kept: seq<Scored>)
      requires organizer.Valid() && Ascends(view)
      modifies organizer
      ensures organizer.Valid()
      ensures Routed(organizer.dir, tokens) ==>
        Best(kept, Visits(view, tokens, 0), numResults)
      ensures !Routed(organizer.dir, tokens) ==> kept == []
      ensures TokenIndex.AllWords(tokens) ==>
        Within(organizer.cachedTokens, old(organizer.cachedTokens.entries.Keys), tokens)
    {
      var docId := 0;
      kept := [];
      ghost var dropped: seq<Scored> := [];
      ghost var seen: seq<Scored> := [];
      while true
        invariant organizer.Valid()
        invariant Visits(view, tokens, 0) == seen + Visits(view, tokens, docId)
        invariant Queued(kept, dropped, seen, numResults)
        invariant !Routed(organizer.dir, tokens) ==> kept == []
        invariant TokenIndex.AllWords(tokens) ==>
          Within(organizer.cachedTokens, old(organizer.cachedTokens.entries.Keys), tokens)
        decreases view.lastDoc - docId
      {
        var next := NextScored(tokens, docId);
        if next.None? {
          break;
        }
        VisitsStep(view, tokens, seen, docId);
        ghost var before := kept;
        var curr := next.value;
        docId := curr.docid;
        kept := kept + [curr];
        if |kept| > numResults {
          var m := MinIndex(kept);
          QueuePoll(before, dropped, seen, curr, numResults, m);
          dropped := dropped + [kept[m]];
          kept := CutAt(kept, m);
        } else {
          QueueAdd(before, dropped, seen, curr, numResults);
        }
        seen := seen + [curr];
      }
      if Routed(organizer.dir, tokens) {
        VisitsStep(view, tokens, seen, docId);
        assert Visits(view, tokens, 0) == seen;
        QueueDone(kept, dropped, seen, numResults);
      }
    }

    /** The part of `runQuery` after the spelling check: the stop words
        are marked and, unless every token is one, removed; then the best
        `numResults` of the documents for what is left are kept. */
    method FilterAndScore(query: QP.QueryPhrase, numResults: int) returns (r: Result<seq<Scored>>)
      requires organizer.Valid() && Ascends(view) && Routes(view.docFrequency, organizer.dir)
      requires Routed(organizer.dir, query.tokens)
      modifies query, organizer
      ensures organizer.Valid()
      ensures var stops := AnyOf(StopAnswers(view, StopThreshold(view.numDocs), old(query.tokens)));
        stops.Err? ==> r == Err(stops.fault) && query.tokens == old(query.tokens)
      ensures var th := StopThreshold(view.numDocs);
        AnyOf(StopAnswers(view, th, old(query.tokens))).Ok? ==>
          && query.tokens == Filtered(view, th, old(query.tokens))
          && r.Ok?
          && Best(r.value, Visits(view, query.tokens, 0), numResults)
          && (TokenIndex.AllWords(old(query.tokens)) && |StopPositions(view, th, old(query.tokens))| < |old(query.tokens)| ==>
                forall t :: t in old(query.tokens) && IsStopWord(view, th, t) ==> t !in organizer.cachedTokens.entries)
      ensures TokenIndex.AllWords(old(query.tokens)) ==>
        Within(organizer.cachedTokens, old(organizer.cachedTokens.entries.Keys), old(query.tokens))
      ensures query.query == old(query.query)
    {
      ghost var tokens := query.tokens;
      ghost var c0 := organizer.cachedTokens;
      var th := StopThreshold(view.numDocs);
      var marked;
      ghost var looked;
      marked, looked := MarkStopWords(query.tokens, th);
      StopPassWithin(c0, view, organizer.dir, th, tokens, looked);
      if marked.Err? {
        return Err(marked.fault);
      }
      assert tokens[..looked] == tokens;
      StopPassClears(c0, view, organizer.dir, th, tokens);
      var removalList := marked.value;
      if |removalList| < |query.tokens| {
        RemoveStopWords(query, th, removalList);
      }
      FilteredWithin(view, th, tokens);
      RoutedMeaning(organizer.dir, tokens);
      RoutedMeaning(organizer.dir, query.tokens);
      var kept := TopScored(query.tokens, numResults);
      r := Ok(kept);
    }

    /** `runQuery` without the final score normalisation and sort. */
    method RunQuery(query: QP.QueryPhrase, numResults: int) returns (r: Result<seq<Scored>>)
      requires Valid()
      modifies this, query, organizer
      ensures Valid()
      ensures old(query.query).None? ==>
        r == Err(NullReference) && cachedQueries == old(cachedQueries) && query.tokens == old(query.tokens)
      ensures Hit(old(query.query), old(cachedQueries)) ==>
        && r == Ok(old(cachedQueries).entries[old(query.query).value])
        && cachedQueries == Get(old(cachedQueries), old(query.query).value).1
        && query.tokens == old(query.tokens)
      ensures Miss(old(query.query), old(cachedQueries)) && Spelling(view, old(query.tokens)).Err? ==>
        && r == Err(Spelling(view, old(query.tokens)).fault)
        && cachedQueries == old(cachedQueries) && query.tokens == old(query.tokens)
      ensures Miss(old(query.query), old(cachedQueries)) && Spelling(view, old(query.tokens)) == Ok(true) ==>
        r == Err(SpellingIssue) && cachedQueries == old(cachedQueries) && query.tokens == old(query.tokens)
      ensures var stops := AnyOf(StopAnswers(view, StopThreshold(view.numDocs), old(query.tokens)));
        Miss(old(query.query), old(cachedQueries)) && Spelling(view, old(query.tokens)) == Ok(false) && stops.Err? ==>
          r == Err(stops.fault) && cachedQueries == old(cachedQueries) && query.tokens == old(query.tokens)
      ensures var th := StopThreshold(view.numDocs);
        Miss(old(query.query), old(cachedQueries)) && Spelling(view, old(query.tokens)) == Ok(false)
        && AnyOf(StopAnswers(view, th, old(query.tokens))).Ok? ==>
          && query.tokens == Filtered(view, th, old(query.tokens))
          && r.Ok?
          && Best(r.value, Visits(view, query.tokens, 0), numResults)
          && cachedQueries == Put(old(cachedQueries), old(query.query).value, r.value)
          && (TokenIndex.AllWords(old(query.tokens)) && |StopPositions(view, th, old(query.tokens))| < |old(query.tokens)| ==>
                forall t :: t in old(query.tokens) && IsStopWord(view, th, t) ==> t !in organizer.cachedTokens.entries)
      ensures TokenIndex.AllWords(old(query.tokens)) ==>
        Within(organizer.cachedTokens, old(organizer.cachedTokens.entries.Keys), old(query.tokens))
      ensures query.query == old(query.query)
    {
      var shown := query.ToString();
      if shown.Err? {
        return Err(shown.fault);
      }
      var q := query.query.value;
      if ContainsKey(cachedQueries, q) {
        var hit := Get(cachedQueries, q);
        cachedQueries := hit.1;
        return Ok(hit.0.value);
      }
      ghost var tokens := query.tokens;
      ghost var c0 := organizer.cachedTokens;
      var spelling;
      ghost var looked;
      spelling, looked := CheckSpelling(query.tokens);
      AfterLoadsWithin(c0, organizer.dir, tokens, looked);
      if spelling.Err? {
        return Err(spelling.fault);
      }
      if spelling.value {
        return Err(SpellingIssue);
      }
      SpellingRoutes(view, organizer.dir, tokens);
      r := FilterAndScore(query, numResults);
      if r.Err? {
        return r;
      }
      cachedQueries := Put(cachedQueries, q, r.value);
    }
  }
}
