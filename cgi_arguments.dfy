/** `QueryHandler.CgiArguments`: the settings a search request carries in
    its URL query string, `key=value` pairs joined by '&'. */
module CgiArguments {
  import opened Wrappers
  import opened JavaString

  /** `RankerType`. */
  datatype RankerType =
    | NoRanker | FullScan | Conjunctive | Favorite | Cosine | Phrase | Ql | Linear | Comprehensive

  /** `OutputFormat`. */
  datatype OutputFormat = Text | Html | Results

  /** `RankerType.valueOf(name)`; None is the IllegalArgumentException. */
  function RankerNamed(name: string): Option<RankerType> {
    if name == "NONE" then Some(NoRanker)
    else if name == "FULLSCAN" then Some(FullScan)
    else if name == "CONJUNCTIVE" then Some(Conjunctive)
    else if name == "FAVORITE" then Some(Favorite)
    else if name == "COSINE" then Some(Cosine)
    else if name == "PHRASE" then Some(Phrase)
    else if name == "QL" then Some(Ql)
    else if name == "LINEAR" then Some(Linear)
    else if name == "COMPREHENSIVE" then Some(Comprehensive)
    else None
  }

  /** `OutputFormat.valueOf(name)`. */
  function FormatNamed(name: string): Option<OutputFormat> {
    if name == "TEXT" then Some(Text)
    else if name == "HTML" then Some(Html)
    else if name == "RESULTS" then Some(Results)
    else None
  }

  // ---------------------------------------------------------------------------
  // How each setting reads its value; None is an exception that is ignored
  // ---------------------------------------------------------------------------

  function ReadText(val: string): Option<string> {
    Some(val)
  }

  function ReadInt(val: string): Option<int> {
    ParseInt(val)
  }

  function ReadRanker(val: string): Option<RankerType> {
    RankerNamed(ToUpper(val))
  }

  function ReadFormat(val: string): Option<OutputFormat> {
    FormatNamed(ToUpper(val))
  }

  // ---------------------------------------------------------------------------
  // The meaning of a query string
  // ---------------------------------------------------------------------------

  /** The `(key, value)` pairs of the parameters that hold a '=': the key
      lower-cased, the value verbatim, split at the first '=' only. */
  function Pairs(params: seq<string>): (r: seq<(string, string)>)
    ensures |r| <= |params|
  {
    if params == [] then []
    else
      var keyval := SplitFirst(params[|params| - 1], '=');
      Pairs(params[..|params| - 1]) + (if |keyval| < 2 then [] else [(ToLower(keyval[0]), keyval[1])])
  }

  /** The pairs of a whole query string. */
  function ParamPairs(uriQuery: string): seq<(string, string)> {
    Pairs(Split(uriQuery, Just('&')))
  }

  /** The setting `key` takes: the value read from the last pair with that
      key whose value reads, or `default` when there is none. */
  function LastSetting<T>(pairs: seq<(string, string)>, key: string, read: string -> Option<T>, default: T): T {
    if pairs == [] then default
    else
      var p := pairs[|pairs| - 1];
      if p.0 == key && read(p.1).Some? then read(p.1).value
      else LastSetting(pairs[..|pairs| - 1], key, read, default)
  }

  /** Pair `i` carries the key and its value reads. */
  ghost predicate ReadsAt<T>(pairs: seq<(string, string)>, key: string, read: string -> Option<T>, i: int) {
    0 <= i < |pairs| && pairs[i].0 == key && read(pairs[i].1).Some?
  }

  /** No pair after `i` carries the key with a value that reads. */
  ghost predicate NoneReadsAfter<T>(pairs: seq<(string, string)>, key: string, read: string -> Option<T>, i: int) {
    forall j :: i < j < |pairs| ==> !ReadsAt(pairs, key, read, j)
  }

  /** The last occurrence wins: the setting is the default exactly when no
      pair with the key reads, and otherwise it is read from such a pair
      after which no pair with the key reads. */
  lemma {:induction false} LastSettingWins<T>(pairs: seq<(string, string)>, key: string, read: string -> Option<T>, default: T)
    ensures (forall i :: !ReadsAt(pairs, key, read, i)) ==> LastSetting(pairs, key, read, default) == default
    ensures (exists i :: ReadsAt(pairs, key, read, i)) ==>
      exists i :: ReadsAt(pairs, key, read, i) && read(pairs[i].1) == Some(LastSetting(pairs, key, read, default))
        && NoneReadsAfter(pairs, key, read, i)
    decreases |pairs|
  {
    if pairs != [] {
      var n := |pairs| - 1;
      var front := pairs[..n];
      LastSettingWins(front, key, read, default);
      if ReadsAt(pairs, key, read, n) {
        assert NoneReadsAfter(pairs, key, read, n);
        assert read(pairs[n].1) == Some(LastSetting(pairs, key, read, default));
      } else {
        assert LastSetting(pairs, key, read, default) == LastSetting(front, key, read, default);
        assert forall i :: ReadsAt(pairs, key, read, i) <==> ReadsAt(front, key, read, i) by {
          forall i ensures ReadsAt(pairs, key, read, i) <==> ReadsAt(front, key, read, i) {
            if 0 <= i < n { assert front[i] == pairs[i]; }
          }
        }
        if exists i :: ReadsAt(pairs, key, read, i) {
          var i :| ReadsAt(pairs, key, read, i);
          assert ReadsAt(front, key, read, i);
          var k :| ReadsAt(front, key, read, k) && read(front[k].1) == Some(LastSetting(front, key, read, default))
            && NoneReadsAfter(front, key, read, k);
          assert pairs[k] == front[k];
          assert NoneReadsAfter(pairs, key, read, k);
        }
      }
    }
  }

  /** A parameter with another key does not change a setting. */
  lemma OtherKeyIgnored<T>(pairs: seq<(string, string)>, other: (string, string), key: string, read: string -> Option<T>, default: T)
    requires other.0 != key
    ensures LastSetting(pairs + [other], key, read, default) == LastSetting(pairs, key, read, default)
  {
    assert (pairs + [other])[..|pairs|] == pairs;
  }

  /** One more pair: the setting is read from it if it has the key and its
      value reads. */
  lemma Extend<T>(pairs: seq<(string, string)>, p: (string, string), key: string, read: string -> Option<T>, default: T)
    ensures LastSetting(pairs + [p], key, read, default)
      == if p.0 == key && read(p.1).Some? then read(p.1).value else LastSetting(pairs, key, read, default)
  {
    assert (pairs + [p])[..|pairs|] == pairs;
  }

  /** One parameter: the key is lower-cased and the value is everything
      after the first '=', further '=' included. */
  lemma OneParameter(key: string, val: string)
    requires '=' !in key && '&' !in key && '&' !in val
    ensures ParamPairs(key + "=" + val) == [(ToLower(key), val)]
  {
    var param := key + "=" + val;
    assert forall i :: 0 <= i < |param| ==> param[i] != '&';
    assert Split(param, Just('&')) == [param];
    var keyval := SplitFirst(param, '=');
    assert param[|key|] == '=';
    assert '=' in param;
    assert keyval[0] + ['='] + keyval[1] == key + ['='] + val;
    var n := |keyval[0]|;
    assert keyval[0] == param[..n] && key == param[..|key|];
    assert keyval[1] == param[n + 1..] && val == param[|key| + 1..];
    assert [] + [(ToLower(key), val)] == [(ToLower(key), val)];
  }

  // ---------------------------------------------------------------------------
  // The object
  // ---------------------------------------------------------------------------

  class CgiArguments {
    /** `_query`, the raw user query. */
    var query: string
    /** `_numResults`. */
    var numResults: int
    var rankerType: RankerType
    var outputFormat: OutputFormat
    var numdocs: int
    var numterms: int

    /** The parameters in order, each overriding the settings before it;
        a value that does not read leaves the setting as it was. */
    constructor (uriQuery: string)
      ensures query == LastSetting(ParamPairs(uriQuery), "query", ReadText, "")
      ensures numResults == LastSetting(ParamPairs(uriQuery), "num", ReadInt, 10)
      ensures rankerType == LastSetting(ParamPairs(uriQuery), "ranker", ReadRanker, NoRanker)
      ensures outputFormat == LastSetting(ParamPairs(uriQuery), "format", ReadFormat, Text)
      ensures numdocs == LastSetting(ParamPairs(uriQuery), "numdocs", ReadInt, 0)
      ensures numterms == LastSetting(ParamPairs(uriQuery), "numterms", ReadInt, 0)
    {
      query := "";
      numResults := 10;
      rankerType := NoRanker;
      outputFormat := Text;
      numdocs := 0;
      numterms := 0;
      new;
      var params := Split(uriQuery, Just('&'));
      for i := 0 to |params|
        invariant query == LastSetting(Pairs(params[..i]), "query", ReadText, "")
        invariant numResults == LastSetting(Pairs(params[..i]), "num", ReadInt, 10)
        invariant rankerType == LastSetting(Pairs(params[..i]), "ranker", ReadRanker, NoRanker)
        invariant outputFormat == LastSetting(Pairs(params[..i]), "format", ReadFormat, Text)
        invariant numdocs == LastSetting(Pairs(params[..i]), "numdocs", ReadInt, 0)
        invariant numterms == LastSetting(Pairs(params[..i]), "numterms", ReadInt, 0)
      {
        assert params[..i + 1][..i] == params[..i];
        var keyval := SplitFirst(params[i], '=');
        if |keyval| < 2 {
          assert Pairs(params[..i + 1]) == Pairs(params[..i]) + [];
          assert Pairs(params[..i]) + [] == Pairs(params[..i]);
          continue;
        }
        var key := ToLower(keyval[0]);
        var val := keyval[1];
        ghost var pairs := Pairs(params[..i]);
        assert Pairs(params[..i + 1]) == pairs + [(key, val)];
        Extend(pairs, (key, val), "query", ReadText, "");
        Extend(pairs, (key, val), "num", ReadInt, 10);
        Extend(pairs, (key, val), "ranker", ReadRanker, NoRanker);
        Extend(pairs, (key, val), "format", ReadFormat, Text);
        Extend(pairs, (key, val), "numdocs", ReadInt, 0);
        Extend(pairs, (key, val), "numterms", ReadInt, 0);
        SetArgument(key, val);
      }
      assert params[..|params|] == params;
    }

    /** The body of the loop over parameters: a recognised key sets its
        field when the value reads; anything else changes nothing. */
    method SetArgument(key: string, val: string)
      modifies this
      ensures query == (if key == "query" then val else old(query))
      ensures numResults == (if key == "num" && ReadInt(val).Some? then ReadInt(val).value else old(numResults))
      ensures rankerType == (if key == "ranker" && ReadRanker(val).Some? then ReadRanker(val).value else old(rankerType))
      ensures outputFormat == (if key == "format" && ReadFormat(val).Some? then ReadFormat(val).value else old(outputFormat))
      ensures numdocs == (if key == "numdocs" && ReadInt(val).Some? then ReadInt(val).value else old(numdocs))
      ensures numterms == (if key == "numterms" && ReadInt(val).Some? then ReadInt(val).value else old(numterms))
    {
      if key == "query" {
        query := val;
      } else if key == "num" {
        var n := ReadInt(val);
        if n.Some? {
          numResults := n.value;
        }
      } else if key == "ranker" {
        var t := ReadRanker(val);
        if t.Some? {
          rankerType := t.value;
        }
      } else if key == "format" {
        var f := ReadFormat(val);
        if f.Some? {
          outputFormat := f.value;
        }
      } else if key == "numdocs" {
        var n := ReadInt(val);
        if n.Some? {
          numdocs := n.value;
        }
      } else if key == "numterms" {
        var n := ReadInt(val);
        if n.Some? {
          numterms := n.value;
        }
      }
    }
  }
}
