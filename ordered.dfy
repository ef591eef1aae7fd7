/** Sorted enumerations of finite sets: the iteration order of a `TreeMap`'s
    key set and the result of sorting a list of distinct ids or names. */
module Ordered {
  import opened Wrappers
  import opened JavaString

  lemma NoIdsIsEmpty(s: set<int>)
    requires forall x :: x !in s
    ensures s == {}
  {
    var e: set<int> := {};
    assert forall x :: x in s <==> x in e;
  }

  /** A non-empty set of ids has an id to pick. */
  lemma HasId(s: set<int>)
    requires s != {}
    ensures exists x :: x in s
  {
    if forall x :: x !in s {
      NoIdsIsEmpty(s);
      assert false;
    }
  }

  lemma NoNamesIsEmpty(s: set<string>)
    requires forall x :: x !in s
    ensures s == {}
  {
    var e: set<string> := {};
    assert forall x :: x in s <==> x in e;
  }

  /** A non-empty set of names has a name to pick. */
  lemma HasName(s: set<string>)
    requires s != {}
    ensures exists x :: x in s
  {
    if forall x :: x !in s {
      NoNamesIsEmpty(s);
      assert false;
    }
  }

  // ---------------------------------------------------------------------------
  // Document ids (`Long` in natural order)
  // ---------------------------------------------------------------------------

  predicate IsAscending(s: seq<int>) {
    forall i, j :: 0 <= i < j < |s| ==> s[i] < s[j]
  }

  lemma {:induction false} MinExists(s: set<int>)
    requires s != {}
    ensures exists x :: x in s && forall y :: y in s ==> x <= y
    decreases |s|
  {
    HasId(s);
    var x :| x in s;
    if s != {x} {
      HasId(s - {x});
      MinExists(s - {x});
      var m :| m in s - {x} && forall y :: y in s - {x} ==> m <= y;
      var least := if x < m then x else m;
      forall y | y in s ensures least <= y {
        if y != x {
          assert y in s - {x};
        }
      }
    } else {
      assert forall y :: y in s ==> y == x;
    }
  }

  /** The least element of a non-empty set. */
  ghost function Min(s: set<int>): (x: int)
    requires s != {}
    ensures x in s && forall y :: y in s ==> x <= y
  {
    MinExists(s);
    var x :| x in s && forall y :: y in s ==> x <= y;
    x
  }

  /** The elements of `s` in ascending order. */
  ghost function Ascending(s: set<int>): (r: seq<int>)
    ensures IsAscending(r) && |r| == |s|
    ensures forall x :: x in r <==> x in s
    decreases |s|
  {
    if s == {} then []
    else
      var x := Min(s);
      var rest := Ascending(s - {x});
      assert forall k :: 0 <= k < |rest| ==> x < rest[k] by {
        forall k | 0 <= k < |rest| ensures x < rest[k] {
          assert rest[k] in s - {x};
        }
      }
      [x] + rest
  }

  /** The first of an ascending enumeration of `s` is its least element. */
  lemma FirstIsMin(r: seq<int>, s: set<int>)
    requires IsAscending(r) && r != [] && forall x :: x in r <==> x in s
    ensures s != {} && r[0] == Min(s)
  {
    assert r[0] in r;
    var m := Min(s);
    assert m in r;
    var k :| 0 <= k < |r| && r[k] == m;
  }

  /** Without its first element, an ascending enumeration of `s` enumerates
      the rest of `s`. */
  lemma RestOfAscending(r: seq<int>, s: set<int>)
    requires IsAscending(r) && r != [] && forall x :: x in r <==> x in s
    ensures IsAscending(r[1..]) && forall x :: x in r[1..] <==> x in s - {r[0]}
  {
    var t := r[1..];
    forall x ensures x in t <==> x in s - {r[0]} {
      if x in t {
        var k :| 0 <= k < |t| && t[k] == x;
        assert r[k + 1] == x;
      }
      if x in s - {r[0]} {
        assert x in r;
        var k :| 0 <= k < |r| && r[k] == x;
        assert k != 0;
        assert t[k - 1] == x;
      }
    }
  }

  /** A set has only one ascending enumeration. */
  lemma {:induction false} AscendingUnique(r: seq<int>, s: set<int>)
    requires IsAscending(r) && forall x :: x in r <==> x in s
    ensures r == Ascending(s)
    decreases |r|
  {
    if r == [] {
      NoIdsIsEmpty(s);
    } else {
      FirstIsMin(r, s);
      var m := r[0];
      var t := r[1..];
      RestOfAscending(r, s);
      AscendingUnique(t, s - {m});
      HeadTail(r);
    }
  }

  /** `Collections.sort` of the ids in `s`, or the iteration order of a
      `TreeMap` whose keys are `s`: repeatedly take the least remaining id. */
  method SortIds(s: set<int>) returns (r: seq<int>)
    ensures r == Ascending(s)
  {
    r := [];
    var rest := s;
    while rest != {}
      invariant IsAscending(r)
      invariant forall x :: x in r ==> x in s && x !in rest
      invariant forall x :: x in s ==> x in r || x in rest
      invariant rest <= s
      invariant forall x, y :: x in r && y in rest ==> x < y
      decreases |rest|
    {
      MinExists(rest);
      var x :| x in rest && forall y :: y in rest ==> x <= y;
      forall i | 0 <= i < |r| ensures r[i] < x {
        assert r[i] in r;
      }
      r := r + [x];
      rest := rest - {x};
    }
    AscendingUnique(r, s);
  }

  // ---------------------------------------------------------------------------
  // Names (`String` in `compareTo` order)
  // ---------------------------------------------------------------------------

  predicate IsAscendingNames(s: seq<string>) {
    forall i, j :: 0 <= i < j < |s| ==> Less(s[i], s[j])
  }

  /** Adding `x` to a set whose least name is `m`: the least of the two is
      least in the larger set. */
  lemma LeastOfTwo(s: set<string>, x: string, m: string) returns (least: string)
    requires x in s && m in s && m != x
    requires forall y :: y in s && y != x && y != m ==> Less(m, y)
    ensures least in s && forall y :: y in s && y != least ==> Less(least, y)
  {
    LessTotal(x, m);
    least := if Less(x, m) then x else m;
    forall y | y in s && y != least ensures Less(least, y) {
      if y != x && y != m {
        assert Less(m, y);
        if least == x {
          LessTransitive(x, m, y);
        }
      }
    }
  }

  lemma {:induction false} MinNameExists(s: set<string>)
    requires s != {}
    ensures exists x :: x in s && forall y :: y in s && y != x ==> Less(x, y)
    decreases |s|
  {
    HasName(s);
    var x :| x in s;
    if s != {x} {
      var rest := s - {x};
      HasName(rest);
      MinNameExists(rest);
      var m :| m in rest && forall y :: y in rest && y != m ==> Less(m, y);
      assert forall y :: y in s && y != x && y != m ==> y in rest;
      var least := LeastOfTwo(s, x, m);
    } else {
      assert forall y :: y in s ==> y == x;
    }
  }

  /** The least name of a non-empty set. */
  ghost function MinName(s: set<string>): (x: string)
    requires s != {}
    ensures x in s && forall y :: y in s && y != x ==> Less(x, y)
  {
    MinNameExists(s);
    var x :| x in s && forall y :: y in s && y != x ==> Less(x, y);
    x
  }

  /** The names of `s` in `compareTo` order. */
  ghost function AscendingNames(s: set<string>): (r: seq<string>)
    ensures IsAscendingNames(r) && |r| == |s|
    ensures forall x :: x in r <==> x in s
    decreases |s|
  {
    if s == {} then []
    else
      var x := MinName(s);
      var rest := AscendingNames(s - {x});
      assert forall k :: 0 <= k < |rest| ==> Less(x, rest[k]) by {
        forall k | 0 <= k < |rest| ensures Less(x, rest[k]) {
          assert rest[k] in s - {x};
        }
      }
      [x] + rest
  }

  /** The first of an ascending enumeration of names is the least name. */
  lemma FirstIsMinName(r: seq<string>, s: set<string>)
    requires IsAscendingNames(r) && r != [] && forall x :: x in r <==> x in s
    ensures s != {} && r[0] == MinName(s)
  {
    assert r[0] in r;
    var m := MinName(s);
    assert m in r;
    var k :| 0 <= k < |r| && r[k] == m;
    if k > 0 {
      assert Less(r[0], m);
      LessTotal(r[0], m);
    }
  }

  /** A set of names has only one ascending enumeration. */
  lemma {:induction false} AscendingNamesUnique(r: seq<string>, s: set<string>)
    requires IsAscendingNames(r) && forall x :: x in r <==> x in s
    ensures r == AscendingNames(s)
    decreases |r|
  {
    if r == [] {
      NoNamesIsEmpty(s);
    } else {
      FirstIsMinName(r, s);
      var m := r[0];
      var t := r[1..];
      assert IsAscendingNames(t);
      forall x ensures x in t <==> x in s - {m} {
        if x in t {
          var k :| 0 <= k < |t| && t[k] == x;
          assert r[k + 1] == x;
          LessIrreflexive(m);
          assert Less(m, r[k + 1]);
        }
        if x in s - {m} {
          assert x in r;
          var k :| 0 <= k < |r| && r[k] == x;
          assert k != 0;
          assert t[k - 1] == x;
        }
      }
      AscendingNamesUnique(t, s - {m});
      HeadTail(r);
    }
  }

  /** `Arrays.sort` of distinct names, or the iteration order of a `TreeMap`
      keyed by `s`: repeatedly take the least remaining name. */
  method SortNames(s: set<string>) returns (r: seq<string>)
    ensures r == AscendingNames(s)
  {
    r := [];
    var rest := s;
    while rest != {}
      invariant IsAscendingNames(r)
      invariant forall x :: x in r ==> x in s && x !in rest
      invariant forall x :: x in s ==> x in r || x in rest
      invariant rest <= s
      invariant forall x, y :: x in r && y in rest ==> Less(x, y)
      decreases |rest|
    {
      MinNameExists(rest);
      var x :| x in rest && forall y :: y in rest && y != x ==> Less(x, y);
      forall i | 0 <= i < |r| ensures Less(r[i], x) {
        assert r[i] in r;
      }
      r := r + [x];
      rest := rest - {x};
    }
    AscendingNamesUnique(r, s);
  }
}
