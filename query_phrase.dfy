/** `QueryPhrase`: a query string cut into words and quoted phrases, each
    token passed through the HTML cleaner (kept abstract as the function
    `clean`), and a table from cleaned words back to the words typed. */
module QueryPhrase {
  import opened Wrappers
  import opened JavaString

  // ---------------------------------------------------------------------------
  // The tokenizer as a state machine over characters
  // ---------------------------------------------------------------------------

  /** The tokenizer between two characters: the tokens emitted so far, the
      text of the token being built, and whether a quote is open. */
  datatype Scan = Scan(tokens: seq<string>, current: string, inQuotes: bool)

  const Start: Scan := Scan([], [], false)

  /** `s` as a token when `s.trim()` is not empty; the token is `s` itself,
      untrimmed. */
  function NonBlank(s: string): (r: seq<string>)
    ensures |r| <= 1 && (r != [] ==> r[0] == s && Trim(s) != [])
  {
    if Trim(s) != [] then [s] else []
  }

  /** `s.trim()` as a token when it is not empty. */
  function Trimmed(s: string): (r: seq<string>)
    ensures |r| <= 1 && (r != [] ==> r[0] == Trim(s) && r[0] != [])
  {
    if Trim(s) != [] then [Trim(s)] else []
  }

  /** One character of the query. Outside quotes a separator ends the
      token; inside them it becomes one space. A closing quote emits the
      trimmed phrase; an opening quote keeps the text already gathered. */
  function Feed(s: Scan, c: char): Scan {
    if IsSeparator(c, PlusOrSpace) then
      if s.inQuotes then s.(current := s.current + " ")
      else Scan(s.tokens + NonBlank(s.current), [], false)
    else if c == '"' then
      if s.inQuotes then Scan(s.tokens + Trimmed(s.current), [], false)
      else s.(inQuotes := true)
    else s.(current := s.current + [c])
  }

  function FeedAll(s: Scan, cs: string): Scan
    decreases |cs|
  {
    if cs == [] then s else FeedAll(Feed(s, cs[0]), cs[1..])
  }

  /** After the last character: the text left over, trimmed, if any. */
  function Finish(s: Scan): seq<string> {
    s.tokens + Trimmed(s.current)
  }

  /** The tokens of a query, before cleaning. */
  function Tokenize(query: string): seq<string> {
    Finish(FeedAll(Start, query))
  }

  /** No token and no text being built holds a quote, and every token has
      something besides blanks. */
  predicate WellFormed(s: Scan) {
    '"' !in s.current
    && forall i :: 0 <= i < |s.tokens| ==> '"' !in s.tokens[i] && Trim(s.tokens[i]) != []
  }

  /** Trimming only removes characters. */
  lemma {:induction false} TrimIn(s: string)
    ensures forall c :: c in Trim(s) ==> c in s
    decreases |s|
  {
    if s != [] && IsBlank(s[0]) {
      TrimIn(s[1..]);
    } else if s != [] && IsBlank(s[|s| - 1]) {
      TrimIn(s[..|s| - 1]);
    }
  }

  lemma FeedWellFormed(s: Scan, c: char)
    requires WellFormed(s)
    ensures WellFormed(Feed(s, c))
  {
    TrimIn(s.current);
    TrimIn(Trim(s.current));
    TrimIdempotent(s.current);
  }

  lemma {:induction false} FeedAllWellFormed(s: Scan, cs: string)
    requires WellFormed(s)
    ensures WellFormed(FeedAll(s, cs))
    decreases |cs|
  {
    if cs != [] {
      FeedWellFormed(s, cs[0]);
      FeedAllWellFormed(Feed(s, cs[0]), cs[1..]);
    }
  }

  /** The quote character only toggles the quote state: it is never part of
      a token, and every token has something besides blanks. */
  lemma TokensWellFormed(query: string)
    ensures forall i :: 0 <= i < |Tokenize(query)| ==>
      '"' !in Tokenize(query)[i] && Trim(Tokenize(query)[i]) != []
  {
    FeedAllWellFormed(Start, query);
    var s := FeedAll(Start, query);
    TrimIn(s.current);
    TrimIdempotent(s.current);
  }

  lemma {:induction false} FeedAllConcat(s: Scan, a: string, b: string)
    ensures FeedAll(s, a + b) == FeedAll(FeedAll(s, a), b)
    decreases |a|
  {
    if a == [] {
      assert a + b == b;
    } else {
      assert (a + b)[0] == a[0] && (a + b)[1..] == a[1..] + b;
      FeedAllConcat(Feed(s, a[0]), a[1..], b);
    }
  }

  // ---------------------------------------------------------------------------
  // Two independent descriptions of the tokens
  // ---------------------------------------------------------------------------

  /** The non-blank pieces, untrimmed. */
  function NonBlanks(ps: seq<string>): (r: seq<string>)
    ensures |r| <= |ps|
  {
    if ps == [] then [] else NonBlank(ps[0]) + NonBlanks(ps[1..])
  }

  /** The tokens of a piece list: the pieces that are not blank, where all
      but the last are kept as they are and the last one is trimmed. */
  function Emit(pieces: seq<string>): seq<string>
    requires pieces != []
  {
    NonBlanks(pieces[..|pieces| - 1]) + Trimmed(pieces[|pieces| - 1])
  }

  /** A query without quotes: the pieces between single separators. */
  function PlainTokens(query: string): seq<string> {
    Emit(Fields(query, PlusOrSpace))
  }

  lemma SpanOfPrefix(cur: string, q: string)
    requires Unseparated(cur, PlusOrSpace) && q != [] && IsSeparator(q[0], PlusOrSpace)
    ensures Span(cur + q, PlusOrSpace) == |cur|
  {
    var s := cur + q;
    assert s[|cur|] == q[0];
    assert forall i :: 0 <= i < |cur| ==> s[i] == cur[i];
    assert forall n :: |cur| < n <= |s| ==> s[..n][|cur|] == q[0];
  }

  /** A string without separators is one field. */
  lemma FieldsOfUnseparated(cur: string)
    requires Unseparated(cur, PlusOrSpace)
    ensures Fields(cur, PlusOrSpace) == [cur]
  {
    if cur != [] {
      var n := Span(cur, PlusOrSpace);
      assert n == |cur|;
    }
  }

  /** A separator right after a separator-free prefix ends the first field. */
  lemma FieldsAfterPrefix(cur: string, q: string)
    requires Unseparated(cur, PlusOrSpace) && q != [] && IsSeparator(q[0], PlusOrSpace)
    ensures Fields(cur + q, PlusOrSpace) == [cur] + Fields(q[1..], PlusOrSpace)
  {
    SpanOfPrefix(cur, q);
    assert (cur + q)[|cur| + 1..] == q[1..];
    assert (cur + q)[..|cur|] == cur;
  }

  lemma EmitCons(cur: string, f: seq<string>)
    requires f != []
    ensures Emit([cur] + f) == NonBlank(cur) + Emit(f)
  {
    assert ([cur] + f)[..|f|] == [cur] + f[..|f| - 1];
    assert ([cur] + f)[..|f|][1..] == f[..|f| - 1];
  }

  lemma {:induction false} FeedPlain(t: seq<string>, cur: string, q: string)
    requires Unseparated(cur, PlusOrSpace) && '"' !in q
    ensures Finish(FeedAll(Scan(t, cur, false), q)) == t + Emit(Fields(cur + q, PlusOrSpace))
    decreases |q|, 1
  {
    if q == [] {
      assert cur + q == cur;
      FieldsOfUnseparated(cur);
    } else if IsSeparator(q[0], PlusOrSpace) {
      FeedPlainSeparator(t, cur, q);
    } else {
      assert q[0] != '"';
      var cur' := cur + [q[0]];
      assert FeedAll(Scan(t, cur, false), q) == FeedAll(Scan(t, cur', false), q[1..]);
      assert cur + q == cur' + q[1..];
      FeedPlain(t, cur', q[1..]);
    }
  }

  /** The step of `FeedPlain` at a separator. */
  lemma {:induction false} FeedPlainSeparator(t: seq<string>, cur: string, q: string)
    requires Unseparated(cur, PlusOrSpace) && '"' !in q && q != [] && IsSeparator(q[0], PlusOrSpace)
    ensures Finish(FeedAll(Scan(t, cur, false), q)) == t + Emit(Fields(cur + q, PlusOrSpace))
    decreases |q|, 0
  {
    var t' := t + NonBlank(cur);
    var f := Fields(q[1..], PlusOrSpace);
    assert Finish(FeedAll(Scan(t, cur, false), q)) == t' + Emit(f) by {
      SeparatorStep(t, cur, q);
      assert [] + q[1..] == q[1..];
      FeedPlain(t', [], q[1..]);
    }
    assert Emit(Fields(cur + q, PlusOrSpace)) == NonBlank(cur) + Emit(f) by {
      FieldsAfterPrefix(cur, q);
      EmitCons(cur, f);
    }
    ConcatAssoc(t, NonBlank(cur), Emit(f));
  }

  lemma SeparatorStep(t: seq<string>, cur: string, q: string)
    requires q != [] && IsSeparator(q[0], PlusOrSpace)
    ensures FeedAll(Scan(t, cur, false), q) == FeedAll(Scan(t + NonBlank(cur), [], false), q[1..])
  {
  }

  /** Without quotes, the tokens are the non-blank pieces between separators
      ('+' or a Unicode space): all but the last emitted untrimmed, the last
      one trimmed. */
  lemma PlainQuery(query: string)
    requires '"' !in query
    ensures Tokenize(query) == PlainTokens(query)
  {
    FeedPlain([], [], query);
    assert [] + query == query;
  }

  /** `s` with every separator replaced by a space. */
  function Spaced(s: string): (r: string)
    ensures |r| == |s|
    ensures forall i :: 0 <= i < |s| ==> r[i] == (if IsSeparator(s[i], PlusOrSpace) then ' ' else s[i])
  {
    if s == [] then [] else [if IsSeparator(s[0], PlusOrSpace) then ' ' else s[0]] + Spaced(s[1..])
  }

  lemma {:induction false} FeedQuoted(t: seq<string>, cur: string, w: string)
    requires '"' !in w
    ensures FeedAll(Scan(t, cur, true), w) == Scan(t, cur + Spaced(w), true)
    decreases |w|
  {
    if w == [] {
      assert cur + Spaced(w) == cur;
    } else {
      var c := if IsSeparator(w[0], PlusOrSpace) then ' ' else w[0];
      assert FeedAll(Scan(t, cur, true), w) == FeedAll(Scan(t, cur + [c], true), w[1..]) by {
        assert w[0] != '"';
        assert Feed(Scan(t, cur, true), w[0]) == Scan(t, cur + [c], true);
      }
      FeedQuoted(t, cur + [c], w[1..]);
      assert Spaced(w) == [c] + Spaced(w[1..]);
      ConcatAssoc(cur, [c], Spaced(w[1..]));
    }
  }

  /** Text without separators or quotes is gathered into the current
      token. */
  lemma {:induction false} FeedWord(t: seq<string>, cur: string, a: string)
    requires Unseparated(a, PlusOrSpace) && '"' !in a
    ensures FeedAll(Scan(t, cur, false), a) == Scan(t, cur + a, false)
    decreases |a|
  {
    if a == [] {
      assert cur + a == cur;
    } else {
      assert FeedAll(Scan(t, cur, false), a) == FeedAll(Scan(t, cur + [a[0]], false), a[1..]) by {
        assert !IsSeparator(a[0], PlusOrSpace) && a[0] != '"';
        assert Feed(Scan(t, cur, false), a[0]) == Scan(t, cur + [a[0]], false);
      }
      FeedWord(t, cur + [a[0]], a[1..]);
      ConcatAssoc(cur, [a[0]], a[1..]);
      HeadTail(a);
    }
  }

  /** Up to the end of the phrase, the quote is open and the phrase is
      gathered with its separators as spaces. */
  lemma OpenPhrase(a: string, w: string)
    requires Unseparated(a, PlusOrSpace) && '"' !in a && '"' !in w
    ensures FeedAll(Start, a + "\"" + w) == Scan([], a + Spaced(w), true)
  {
    var rest := "\"" + w;
    assert a + "\"" + w == a + rest;
    FeedAllConcat(Start, a, rest);
    FeedWord([], [], a);
    assert [] + a == a;
    assert rest[0] == '"' && rest[1..] == w;
    assert FeedAll(Scan([], a, false), rest) == FeedAll(Scan([], a, true), w);
    FeedQuoted([], a, w);
  }

  /** A quoted phrase is one token: its separators become single spaces and
      it is trimmed. Text right before the opening quote joins the phrase,
      and the closing quote may be missing. */
  lemma QuotedPhrase(a: string, w: string)
    requires Unseparated(a, PlusOrSpace) && '"' !in a && '"' !in w
    ensures Tokenize(a + "\"" + w + "\"") == Trimmed(a + Spaced(w))
    ensures Tokenize(a + "\"" + w) == Trimmed(a + Spaced(w))
  {
    var phrase := a + Spaced(w);
    OpenPhrase(a, w);
    FeedAllConcat(Start, a + "\"" + w, "\"");
    var closed := Scan([] + Trimmed(phrase), [], false);
    assert FeedAll(Scan([], phrase, true), "\"") == closed;
    assert Trimmed([]) == [];
    assert Finish(closed) == Trimmed(phrase) by {
      assert [] + Trimmed(phrase) + [] == Trimmed(phrase);
    }
  }

  lemma {:induction false} FeedAllPlus(s: Scan, q: string)
    ensures FeedAll(s, PlusToSpace(q)) == FeedAll(s, q)
    decreases |q|
  {
    if q != [] {
      assert PlusToSpace(q)[1..] == PlusToSpace(q[1..]);
      assert Feed(s, PlusToSpace(q)[0]) == Feed(s, q[0]);
      FeedAllPlus(Feed(s, q[0]), q[1..]);
    }
  }

  /** The printed query (`toString`, '+' shown as a space) tokenizes to the
      same tokens as the query itself. */
  lemma ShownQueryTokenizesAlike(query: string)
    ensures Tokenize(PlusToSpace(query)) == Tokenize(query)
  {
    FeedAllPlus(Start, query);
  }

  // ---------------------------------------------------------------------------
  // Cleaning and the table of raw words
  // ---------------------------------------------------------------------------

  /** Pairs of `a[i]` and `b[i]`. */
  function Zip(a: seq<string>, b: seq<string>): (r: seq<(string, string)>)
    requires |a| == |b|
    ensures |r| == |a| && forall i :: 0 <= i < |a| ==> r[i] == (a[i], b[i])
  {
    seq(|a|, i requires 0 <= i < |a| => (a[i], b[i]))
  }

  /** The `raw.put(stemParts[i], rawParts[i])` calls for one token, in
      order, and whether they all happen: false when the cleaned token has
      fewer words than the token (ArrayIndexOutOfBoundsException). */
  function WordPuts(token: string, stemmed: string): (r: (seq<(string, string)>, bool))
    ensures r.1 <==> |SplitRuns(stemmed, RegexSpace)| >= |SplitRuns(token, RegexSpace)|
  {
    var rawParts := SplitRuns(token, RegexSpace);
    var stemParts := SplitRuns(stemmed, RegexSpace);
    if |stemParts| >= |rawParts| then (Zip(stemParts[..|rawParts|], rawParts), true)
    else (Zip(stemParts, rawParts[..|stemParts|]), false)
  }

  /** The puts for a token list, up to the first failing token. */
  function CleanPuts(tokens: seq<string>, clean: string -> string): (r: (seq<(string, string)>, bool))
  {
    if tokens == [] then ([], true)
    else
      var front := CleanPuts(tokens[..|tokens| - 1], clean);
      if !front.1 then front
      else
        var last := tokens[|tokens| - 1];
        var w := WordPuts(last, clean(last));
        (front.0 + w.0, w.1)
  }

  /** The puts, in order, applied to a map. */
  function Apply(m: map<string, string>, puts: seq<(string, string)>): map<string, string> {
    if puts == [] then m
    else Apply(m, puts[..|puts| - 1])[puts[|puts| - 1].0 := puts[|puts| - 1].1]
  }

  /** One more put, as the inner loop makes it. */
  lemma PutStep(m: map<string, string>, m0: map<string, string>, a: seq<string>, b: seq<string>, i: nat)
    requires i < |a| && i < |b| && m == Apply(m0, Zip(a[..i], b[..i]))
    ensures m[a[i] := b[i]] == Apply(m0, Zip(a[..i + 1], b[..i + 1]))
  {
    var z := Zip(a[..i + 1], b[..i + 1]);
    assert z[..|z| - 1] == Zip(a[..i], b[..i]);
    assert z[|z| - 1] == (a[i], b[i]);
  }

  /** Every token cleaned. */
  function CleanAll(tokens: seq<string>, clean: string -> string): (r: seq<string>)
    ensures |r| == |tokens| && forall i :: 0 <= i < |tokens| ==> r[i] == clean(tokens[i])
  {
    seq(|tokens|, i requires 0 <= i < |tokens| => clean(tokens[i]))
  }

  /** The fields that `processQuery` sets, and whether it returns normally. */
  datatype Processed = Processed(tokens: seq<string>, raw: map<string, string>, outcome: Result<()>)

  /** What `processQuery` leaves behind for a query (None is null) and the
      raw table it starts from. On the exception `_tokens` keeps the
      uncleaned tokens and `raw` the puts made before it. */
  function Process(query: Option<string>, raw: map<string, string>, clean: string -> string): Processed {
    match query
    case None => Processed([], raw, Ok(()))
    case Some(q) =>
      var tokens := Tokenize(q);
      var puts := CleanPuts(tokens, clean);
      if puts.1 then Processed(CleanAll(tokens, clean), Apply(raw, puts.0), Ok(()))
      else Processed(tokens, Apply(raw, puts.0), Err(IndexOutOfBounds))
  }

  lemma {:induction false} ApplyConcat(m: map<string, string>, a: seq<(string, string)>, b: seq<(string, string)>)
    ensures Apply(m, a + b) == Apply(Apply(m, a), b)
    decreases |b|
  {
    if b == [] {
      assert a + b == a;
    } else {
      assert (a + b)[..|a + b| - 1] == a + b[..|b| - 1];
      ApplyConcat(m, a, b[..|b| - 1]);
    }
  }

  /** Applying puts is overwriting with the map the puts build alone. */
  lemma {:induction false} ApplyIsUnion(m: map<string, string>, puts: seq<(string, string)>)
    ensures Apply(m, puts) == m + Apply(map[], puts)
    decreases |puts|
  {
    if puts != [] {
      var k := puts[|puts| - 1].0;
      var v := puts[|puts| - 1].1;
      ApplyIsUnion(m, puts[..|puts| - 1]);
      var a := Apply(map[], puts[..|puts| - 1]);
      assert (m + a)[k := v] == m + a[k := v];
    }
  }

  /** Making the same puts again changes nothing. */
  lemma ApplyTwice(m: map<string, string>, puts: seq<(string, string)>)
    ensures Apply(Apply(m, puts), puts) == Apply(m, puts)
  {
    var a := Apply(map[], puts);
    ApplyIsUnion(m, puts);
    ApplyIsUnion(m + a, puts);
    assert (m + a) + a == m + a;
  }

  /** A second `processQuery` (as the query handler makes) recomputes the
      same tokens and leaves the raw table as the first one left it. */
  lemma ProcessIdempotent(query: Option<string>, raw: map<string, string>, clean: string -> string)
    ensures Process(query, Process(query, raw, clean).raw, clean) == Process(query, raw, clean)
  {
    if query.Some? {
      ApplyTwice(raw, CleanPuts(Tokenize(query.value), clean).0);
    }
  }

  /** The cleaning loop fails exactly when some token cleans to fewer
      words than it has. */
  lemma {:induction false} CleanPutsOk(tokens: seq<string>, clean: string -> string)
    ensures CleanPuts(tokens, clean).1 <==>
      forall i :: 0 <= i < |tokens| ==>
        |SplitRuns(clean(tokens[i]), RegexSpace)| >= |SplitRuns(tokens[i], RegexSpace)|
    decreases |tokens|
  {
    if tokens != [] {
      var front := tokens[..|tokens| - 1];
      CleanPutsOk(front, clean);
      assert forall i :: 0 <= i < |front| ==> front[i] == tokens[i];
    }
  }

  lemma {:induction false} ApplyKeys(m: map<string, string>, puts: seq<(string, string)>)
    ensures forall k :: k in m ==> k in Apply(m, puts)
    ensures forall p :: p in puts ==> p.0 in Apply(m, puts)
    decreases |puts|
  {
    if puts != [] {
      var front := puts[..|puts| - 1];
      ApplyKeys(m, front);
      assert puts == front + [puts[|puts| - 1]];
    }
  }

  lemma {:induction false} CleanPutsHas(tokens: seq<string>, clean: string -> string, i: nat, j: nat)
    requires CleanPuts(tokens, clean).1 && i < |tokens| && j < |SplitRuns(tokens[i], RegexSpace)|
    ensures j < |SplitRuns(clean(tokens[i]), RegexSpace)|
    ensures (SplitRuns(clean(tokens[i]), RegexSpace)[j], SplitRuns(tokens[i], RegexSpace)[j]) in CleanPuts(tokens, clean).0
    decreases |tokens|
  {
    var front := tokens[..|tokens| - 1];
    if i < |tokens| - 1 {
      assert front[i] == tokens[i];
      CleanPutsHas(front, clean, i, j);
    } else {
      var w := WordPuts(tokens[i], clean(tokens[i]));
      assert w.0[j] in w.0;
    }
  }

  /** After a normal return, every cleaned word maps back to a typed word:
      the j-th word of the i-th cleaned token is in the raw table, for each
      j below the typed token's word count, and no earlier entry is lost. */
  lemma RawCoversCleanedWords(q: string, raw: map<string, string>, clean: string -> string, i: nat, j: nat)
    requires Process(Some(q), raw, clean).outcome.Ok?
    requires i < |Tokenize(q)| && j < |SplitRuns(Tokenize(q)[i], RegexSpace)|
    ensures forall k :: k in raw ==> k in Process(Some(q), raw, clean).raw
    ensures i < |Process(Some(q), raw, clean).tokens|
    ensures j < |SplitRuns(Process(Some(q), raw, clean).tokens[i], RegexSpace)|
    ensures SplitRuns(Process(Some(q), raw, clean).tokens[i], RegexSpace)[j] in Process(Some(q), raw, clean).raw
  {
    var tokens := Tokenize(q);
    var puts := CleanPuts(tokens, clean).0;
    assert Process(Some(q), raw, clean) == Processed(CleanAll(tokens, clean), Apply(raw, puts), Ok(()));
    ApplyKeys(raw, puts);
    CleanPutsHas(tokens, clean, i, j);
    var p := (SplitRuns(clean(tokens[i]), RegexSpace)[j], SplitRuns(tokens[i], RegexSpace)[j]);
    assert p in puts;
    assert p.0 in Apply(raw, puts);
  }

  /** Cleaning maps tokens one to one: on a normal return there are as many
      tokens as the tokenizer produced, each the cleaned form of its
      counterpart; a null query gives no tokens and leaves the table. */
  lemma ProcessTokens(query: Option<string>, raw: map<string, string>, clean: string -> string)
    ensures query.None? ==> Process(query, raw, clean) == Processed([], raw, Ok(()))
    ensures query.Some? && Process(query, raw, clean).outcome.Ok? ==>
      |Process(query, raw, clean).tokens| == |Tokenize(query.value)|
      && forall i :: 0 <= i < |Tokenize(query.value)| ==>
        Process(query, raw, clean).tokens[i] == clean(Tokenize(query.value)[i])
    ensures query.Some? ==> (Process(query, raw, clean).outcome.Ok? <==>
      forall i :: 0 <= i < |Tokenize(query.value)| ==>
        |SplitRuns(clean(Tokenize(query.value)[i]), RegexSpace)| >= |SplitRuns(Tokenize(query.value)[i], RegexSpace)|)
  {
    if query.Some? {
      CleanPutsOk(Tokenize(query.value), clean);
    }
  }

  /** One more token through the cleaning loop. */
  lemma TokenDone(raw0: map<string, string>, all: seq<string>, k: nat, clean: string -> string)
    requires k < |all| && CleanPuts(all[..k], clean).1
    ensures CleanAll(all[..k + 1], clean) == CleanAll(all[..k], clean) + [clean(all[k])]
    ensures Apply(Apply(raw0, CleanPuts(all[..k], clean).0), WordPuts(all[k], clean(all[k])).0)
      == Apply(raw0, CleanPuts(all[..k + 1], clean).0)
    ensures CleanPuts(all[..k + 1], clean).1 == WordPuts(all[k], clean(all[k])).1
    ensures !WordPuts(all[k], clean(all[k])).1 ==> CleanPuts(all, clean) == CleanPuts(all[..k + 1], clean)
  {
    assert all[..k + 1][..k] == all[..k];
    ApplyConcat(raw0, CleanPuts(all[..k], clean).0, WordPuts(all[k], clean(all[k])).0);
    if !WordPuts(all[k], clean(all[k])).1 {
      StopsAt(all, k + 1, clean);
    }
  }

  /** Once a put fails, the rest of the tokens change nothing. */
  lemma StopsAt(all: seq<string>, n: nat, clean: string -> string)
    requires n <= |all| && !CleanPuts(all[..n], clean).1
    ensures CleanPuts(all, clean) == CleanPuts(all[..n], clean)
  {
    CleanPutsStops(all[..n], all[n..], clean);
    assert all[..n] + all[n..] == all;
  }

  lemma {:induction false} CleanPutsStops(a: seq<string>, b: seq<string>, clean: string -> string)
    requires !CleanPuts(a, clean).1
    ensures CleanPuts(a + b, clean) == CleanPuts(a, clean)
    decreases |b|
  {
    if b == [] {
      assert a + b == a;
    } else {
      assert (a + b)[..|a + b| - 1] == a + b[..|b| - 1];
      CleanPutsStops(a, b[..|b| - 1], clean);
    }
  }

  // ---------------------------------------------------------------------------
  // The object
  // ---------------------------------------------------------------------------

  class QueryPhrase {
    /** `_query`; None is null. */
    var query: Option<string>
    /** `_tokens`. */
    var tokens: seq<string>
    /** `raw`: cleaned word to the word typed. */
    var raw: map<string, string>
    /** `HtmlParser.clean`. */
    const clean: string -> string

    /** The field initialisers and the assignment of `_query`. */
    constructor Init(query: Option<string>, clean: string -> string)
      ensures this.query == query && this.clean == clean && tokens == [] && raw == map[]
    {
      this.query := query;
      this.clean := clean;
      tokens := [];
      raw := map[];
    }

    /** `new QueryPhrase(query)`: the object, unless `processQuery` throws. */
    static method Create(query: Option<string>, clean: string -> string) returns (r: Result<QueryPhrase>)
      ensures r.Ok? <==> Process(query, map[], clean).outcome.Ok?
      ensures r.Ok? ==> fresh(r.value) && r.value.query == query && r.value.clean == clean
      ensures r.Ok? ==> r.value.tokens == Process(query, map[], clean).tokens
      ensures r.Ok? ==> r.value.raw == Process(query, map[], clean).raw
    {
      var p := new QueryPhrase.Init(query, clean);
      var outcome := p.ProcessQuery();
      if outcome.Err? {
        return Err(outcome.fault);
      }
      r := Ok(p);
    }

    /** `processQuery`: tokenize `_query`, clean every token and record the
        typed word behind each cleaned word. */
    method ProcessQuery() returns (r: Result<()>)
      modifies this
      ensures query == old(query)
      ensures Processed(tokens, raw, r) == Process(query, old(raw), clean)
    {
      tokens := [];
      if query.None? {
        return Ok(());
      }
      var chars := query.value;
      var current: string := [];
      var inQuotes := false;
      for i := 0 to |chars|
        invariant query == old(query) && raw == old(raw)
        invariant FeedAll(Start, chars) == FeedAll(Scan(tokens, current, inQuotes), chars[i..])
      {
        assert chars[i..][1..] == chars[i + 1..];
        var c := chars[i];
        ghost var before := Scan(tokens, current, inQuotes);
        if c == '+' || IsSpaceChar(c) {
          if inQuotes {
            current := current + " ";
          } else {
            if Trim(current) != [] {
              tokens := tokens + [current];
            }
            current := [];
          }
        } else if c == '"' {
          if inQuotes {
            var token := Trim(current);
            if token != [] {
              tokens := tokens + [token];
            }
            current := [];
          }
          inQuotes := !inQuotes;
        } else {
          current := current + [c];
        }
        assert Scan(tokens, current, inQuotes) == Feed(before, c);
      }
      var lastToken := Trim(current);
      if lastToken != [] {
        tokens := tokens + [lastToken];
      }
      assert tokens == Tokenize(chars);
      r := CleanTokens();
    }

    /** The second loop of `processQuery`, over the tokenizer's output. */
    method CleanTokens() returns (r: Result<()>)
      requires query.Some? && tokens == Tokenize(query.value)
      modifies this
      ensures query == old(query)
      ensures Processed(tokens, raw, r) == Process(query, old(raw), clean)
    {
      var all := tokens;
      var raw0 := raw;
      var cleanTokens: seq<string> := [];
      for k := 0 to |all|
        invariant tokens == all && query == old(query)
        invariant cleanTokens == CleanAll(all[..k], clean)
        invariant CleanPuts(all[..k], clean).1
        invariant raw == Apply(raw0, CleanPuts(all[..k], clean).0)
      {
        var token := all[k];
        var stemmed := clean(token);
        TokenDone(raw0, all, k, clean);
        cleanTokens := cleanTokens + [stemmed];
        var ok := PutWords(token, stemmed);
        if !ok {
          return Err(IndexOutOfBounds);
        }
      }
      assert all[..|all|] == all;
      tokens := cleanTokens;
      r := Ok(());
    }

    /** The inner loop of `processQuery`: the typed words of one token
        recorded under its cleaned words; false where the cleaned token runs
        out of words. */
    method PutWords(token: string, stemmed: string) returns (ok: bool)
      modifies this
      ensures tokens == old(tokens) && query == old(query)
      ensures ok == WordPuts(token, stemmed).1
      ensures raw == Apply(old(raw), WordPuts(token, stemmed).0)
    {
      var rawParts := SplitRuns(token, RegexSpace);
      var stemParts := SplitRuns(stemmed, RegexSpace);
      for i := 0 to |rawParts|
        invariant i <= |stemParts| && tokens == old(tokens) && query == old(query)
        invariant raw == Apply(old(raw), Zip(stemParts[..i], rawParts[..i]))
      {
        if i >= |stemParts| {
          assert stemParts[..i] == stemParts;
          return false;
        }
        PutStep(raw, old(raw), stemParts, rawParts, i);
        raw := raw[stemParts[i] := rawParts[i]];
      }
      assert rawParts[..|rawParts|] == rawParts;
      ok := true;
    }

    /** `toString`: the query with every '+' shown as a space; a null query
        throws. */
    function ToString(): (r: Result<string>)
      reads this
      ensures r.Ok? <==> query.Some?
      ensures r.Ok? ==> |r.value| == |query.value| && '+' !in r.value
      ensures r.Ok? ==> forall i :: 0 <= i < |query.value| && query.value[i] != '+' ==> r.value[i] == query.value[i]
    {
      match query
      case None => Err(NullReference)
      case Some(q) => Ok(PlusToSpace(q))
    }

    /** `getRaw`: the typed word recorded for a cleaned word, or null. */
    function GetRaw(stemmed: string): (r: Option<string>)
      reads this
      ensures r.Some? <==> stemmed in raw
      ensures r.Some? ==> r.value == raw[stemmed]
    {
      if stemmed in raw then Some(raw[stemmed]) else None
    }
  }
}
