/** The parts of `java.lang.String`, `Character`, `Integer` and
    `java.util.StringTokenizer` that the search engine relies on, over Dafny
    strings. A Dafny `char` is a Unicode scalar value, so a character
    outside the Basic Multilingual Plane is one `char` here, where Java
    holds two UTF-16 code units; lengths, positions and `compareTo` agree
    with Java on text free of such characters. */
module JavaString {
  import opened Wrappers
  import opened JavaInt

  // ---------------------------------------------------------------------------
  // Ordering
  // ---------------------------------------------------------------------------

  /** `a.compareTo(b) < 0`: the first differing character decides, and a
      proper prefix comes first. */
  predicate Less(a: string, b: string)
    decreases |a|
  {
    b != [] && (a == [] || a[0] < b[0] || (a[0] == b[0] && Less(a[1..], b[1..])))
  }

  lemma {:induction false} LessIrreflexive(a: string)
    ensures !Less(a, a)
    decreases |a|
  {
    if a != [] {
      LessIrreflexive(a[1..]);
    }
  }

  lemma {:induction false} LessTransitive(a: string, b: string, c: string)
    requires Less(a, b) && Less(b, c)
    ensures Less(a, c)
    decreases |a|
  {
    if a != [] && a[0] == b[0] && b[0] == c[0] {
      LessTransitive(a[1..], b[1..], c[1..]);
    }
  }

  /** `compareTo` is a total order: two different strings are ordered one
      way or the other, and never both ways. */
  lemma {:induction false} LessTotal(a: string, b: string)
    ensures a == b || Less(a, b) || Less(b, a)
    ensures !(Less(a, b) && Less(b, a))
    decreases |a|
  {
    if a != [] && b != [] && a[0] == b[0] {
      LessTotal(a[1..], b[1..]);
      if a[1..] == b[1..] {
        assert a == [a[0]] + a[1..] && b == [b[0]] + b[1..];
      }
    }
  }

  // ---------------------------------------------------------------------------
  // Character classes
  // ---------------------------------------------------------------------------

  /** The characters that `String.trim` removes from both ends. */
  predicate IsBlank(c: char) {
    c <= ' '
  }

  /** `Character.isSpaceChar`: the Unicode space, line and paragraph
      separators. Tab and line feed are not among them. */
  predicate IsSpaceChar(c: char) {
    c == ' ' || c == 0xA0 as char || c == 0x1680 as char
    || (0x2000 as char <= c <= 0x200A as char)
    || c == 0x2028 as char || c == 0x2029 as char || c == 0x202F as char
    || c == 0x205F as char || c == 0x3000 as char
  }

  /** The character sets that the modelled code splits on. */
  datatype Separators =
    | TokenizerDelimiters   // `new StringTokenizer(s)`: space, \t, \n, \r, \f
    | RegexSpace            // the regular-expression class `\s`
    | Just(c: char)         // a single literal character
    | PlusOrSpace           // '+' or a `Character.isSpaceChar` character

  predicate IsSeparator(c: char, k: Separators) {
    match k
    case TokenizerDelimiters => c == ' ' || c == '\t' || c == '\n' || c == '\r' || c == 0x0C as char
    case RegexSpace => c == ' ' || c == '\t' || c == '\n' || c == 0x0B as char || c == 0x0C as char || c == '\r'
    case Just(d) => c == d
    case PlusOrSpace => c == '+' || IsSpaceChar(c)
  }

  /** No character of `s` is a separator of `k`. */
  predicate Unseparated(s: string, k: Separators) {
    forall i :: 0 <= i < |s| ==> !IsSeparator(s[i], k)
  }

  predicate IsAsciiDigit(c: char) {
    '0' <= c <= '9'
  }

  predicate IsAsciiLetter(c: char) {
    ('a' <= c <= 'z') || ('A' <= c <= 'Z')
  }

  /** `s.matches("[A-Za-z]+")`. */
  predicate IsLetters(s: string) {
    s != [] && forall i :: 0 <= i < |s| ==> IsAsciiLetter(s[i])
  }

  /** `s.matches("[a-z]+")`. */
  predicate IsLowerLetters(s: string) {
    s != [] && forall i :: 0 <= i < |s| ==> 'a' <= s[i] <= 'z'
  }

  /** Some character of `s` is an ASCII digit. */
  predicate HasDigit(s: string) {
    exists i :: 0 <= i < |s| && IsAsciiDigit(s[i])
  }

  /** The characters a regular expression's `.` does not match: the line
      terminators `\n`, `\r`, U+0085, U+2028 and U+2029. */
  predicate IsLineTerminator(c: char) {
    c == '\n' || c == '\r' || c == '\U{0085}' || c == '\U{2028}' || c == '\U{2029}'
  }

  /** `s.matches(".*[0-9].*")`: the whole of `s` must match, so a line
      terminator anywhere makes the match fail even next to a digit. */
  predicate MatchesDigit(s: string) {
    HasDigit(s) && forall i :: 0 <= i < |s| ==> !IsLineTerminator(s[i])
  }

  // ---------------------------------------------------------------------------
  // Trimming and case
  // ---------------------------------------------------------------------------

  /** `s.trim()`: `s` without its leading and trailing blanks. */
  function Trim(s: string): (r: string)
    ensures r == [] <==> forall i :: 0 <= i < |s| ==> IsBlank(s[i])
    ensures r != [] ==> !IsBlank(r[0]) && !IsBlank(r[|r| - 1])
    decreases |s|
  {
    if s == [] then []
    else if IsBlank(s[0]) then
      var r := Trim(s[1..]);
      assert (forall i :: 0 <= i < |s| ==> IsBlank(s[i])) <==> (forall i :: 0 <= i < |s[1..]| ==> IsBlank(s[1..][i]));
      r
    else if IsBlank(s[|s| - 1]) then
      var r := Trim(s[..|s| - 1]);
      assert !IsBlank(s[..|s| - 1][0]);
      r
    else s
  }

  /** Trimming twice is trimming once. */
  lemma TrimIdempotent(s: string)
    ensures Trim(Trim(s)) == Trim(s)
  {
  }

  function LowerChar(c: char): char {
    if 'A' <= c <= 'Z' then (c as int + 32) as char else c
  }

  function UpperChar(c: char): char {
    if 'a' <= c <= 'z' then (c as int - 32) as char else c
  }

  /** `s.toLowerCase()` on ASCII letters. */
  function ToLower(s: string): (r: string)
    ensures |r| == |s| && forall i :: 0 <= i < |s| ==> r[i] == LowerChar(s[i])
  {
    if s == [] then [] else [LowerChar(s[0])] + ToLower(s[1..])
  }

  /** `s.toUpperCase()` on ASCII letters. */
  function ToUpper(s: string): (r: string)
    ensures |r| == |s| && forall i :: 0 <= i < |s| ==> r[i] == UpperChar(s[i])
  {
    if s == [] then [] else [UpperChar(s[0])] + ToUpper(s[1..])
  }

  /** `s.replaceAll("\\+", " ")`. */
  function PlusToSpace(s: string): (r: string)
    ensures |r| == |s|
    ensures forall i :: 0 <= i < |s| ==> r[i] == (if s[i] == '+' then ' ' else s[i])
  {
    if s == [] then [] else [if s[0] == '+' then ' ' else s[0]] + PlusToSpace(s[1..])
  }

  // ---------------------------------------------------------------------------
  // Searching
  // ---------------------------------------------------------------------------

  /** `s.indexOf(c)`, None standing for -1. */
  function IndexOf(s: string, c: char): (r: Option<nat>)
    ensures r.None? <==> c !in s
    ensures r.Some? ==> r.value < |s| && s[r.value] == c && c !in s[..r.value]
  {
    if s == [] then None
    else if s[0] == c then Some(0)
    else match IndexOf(s[1..], c)
      case None => None
      case Some(k) =>
        assert s[..k + 1] == [s[0]] + s[1..][..k];
        Some(k + 1)
  }

  /** `s.lastIndexOf(c)`, None standing for -1. */
  function LastIndexOf(s: string, c: char): (r: Option<nat>)
    ensures r.None? <==> c !in s
    ensures r.Some? ==> r.value < |s| && s[r.value] == c && c !in s[r.value + 1..]
  {
    if s == [] then None
    else if s[|s| - 1] == c then Some(|s| - 1)
    else
      var r := LastIndexOf(s[..|s| - 1], c);
      assert r.Some? ==> s[r.value + 1..] == s[..|s| - 1][r.value + 1..] + [s[|s| - 1]];
      assert r.None? ==> s == s[..|s| - 1] + [s[|s| - 1]];
      r
  }

  /** `sub` occurs in `s` at index `j`. */
  predicate OccursAt(s: string, sub: string, j: nat) {
    j + |sub| <= |s| && forall t :: 0 <= t < |sub| ==> s[j + t] == sub[t]
  }

  /** `s.indexOf(sub)`, None standing for -1. */
  function IndexOfString(s: string, sub: string): (r: Option<nat>)
    ensures r.Some? ==> OccursAt(s, sub, r.value) && forall j :: 0 <= j < r.value ==> !OccursAt(s, sub, j)
    ensures r.None? ==> forall j: nat :: !OccursAt(s, sub, j)
    decreases |s|
  {
    if |s| < |sub| then None
    else if OccursAt(s, sub, 0) then Some(0)
    else
      var r := IndexOfString(s[1..], sub);
      assert forall j: nat :: OccursAt(s, sub, j + 1) == OccursAt(s[1..], sub, j);
      match r
      case None =>
        assert forall j: nat :: j > 0 ==> OccursAt(s, sub, j) == OccursAt(s[1..], sub, j - 1);
        None
      case Some(k) =>
        assert forall j: nat :: 0 < j <= k ==> OccursAt(s, sub, j) == OccursAt(s[1..], sub, j - 1);
        Some(k + 1)
  }

  /** `s.endsWith(suffix)`. */
  predicate EndsWith(s: string, suffix: string) {
    |suffix| <= |s| && s[|s| - |suffix|..] == suffix
  }

  // ---------------------------------------------------------------------------
  // Splitting
  // ---------------------------------------------------------------------------

  /** The length of the longest prefix of `s` without a separator of `k`. */
  function Span(s: string, k: Separators): (n: nat)
    ensures n <= |s| && Unseparated(s[..n], k)
    ensures n < |s| ==> IsSeparator(s[n], k)
  {
    if s == [] || IsSeparator(s[0], k) then 0
    else
      var n := Span(s[1..], k);
      assert s[..n + 1] == [s[0]] + s[1..][..n];
      n + 1
  }

  /** The maximal runs of non-separator characters of `s`, in order: what
      a `StringTokenizer` hands out. */
  function Words(s: string, k: Separators): (r: seq<string>)
    ensures forall i :: 0 <= i < |r| ==> r[i] != [] && Unseparated(r[i], k)
    ensures Unseparated(s, k) && s != [] ==> r == [s]
    decreases |s|
  {
    if s == [] then []
    else if IsSeparator(s[0], k) then Words(s[1..], k)
    else
      var n := Span(s, k);
      assert n == |s| ==> s[..n] == s;
      [s[..n]] + Words(s[n..], k)
  }

  /** The pieces of `s` between consecutive separators of `k`: one more
      piece than there are separators, empty pieces included. */
  function Fields(s: string, k: Separators): (r: seq<string>)
    ensures |r| >= 1
    ensures forall i :: 0 <= i < |r| ==> Unseparated(r[i], k)
    decreases |s|
  {
    if s == [] then [[]]
    else
      var n := Span(s, k);
      if n == |s| then [s] else [s[..n]] + Fields(s[n + 1..], k)
  }

  /** `xs` without its trailing empty strings. */
  function DropTrailingEmpty(xs: seq<string>): (r: seq<string>)
    ensures |r| <= |xs| && r == xs[..|r|]
    ensures r == [] || r[|r| - 1] != []
    ensures forall i :: |r| <= i < |xs| ==> xs[i] == []
  {
    if xs != [] && xs[|xs| - 1] == [] then DropTrailingEmpty(xs[..|xs| - 1]) else xs
  }

  /** `s.split(regex)` for a regex matching exactly one separator of `k`:
      a string without a separator is returned whole (so `""` gives
      `[""]`); otherwise the fields, trailing empty ones removed. */
  function Split(s: string, k: Separators): (r: seq<string>)
    ensures forall i :: 0 <= i < |r| ==> Unseparated(r[i], k)
    ensures Unseparated(s, k) ==> r == [s]
  {
    if Unseparated(s, k) then [s]
    else DropTrailingEmpty(Fields(s, k))
  }

  /** `s.split(regex + "+")`: maximal runs of separators split. A leading run
      leaves an empty first piece, trailing empty pieces are removed, and a
      string without a separator is returned whole. */
  function SplitRuns(s: string, k: Separators): (r: seq<string>)
    ensures forall i :: 0 <= i < |r| ==> Unseparated(r[i], k)
    ensures Unseparated(s, k) ==> r == [s]
    ensures forall i :: 0 < i < |r| ==> r[i] != []
  {
    if Unseparated(s, k) then [s]
    else
      var w := Words(s, k);
      if w == [] then [] else (if IsSeparator(s[0], k) then [[]] else []) + w
  }

  /** `s.split(String.valueOf(c), 2)`: at the first `c` only, both sides
      kept even when empty. */
  function SplitFirst(s: string, c: char): (r: seq<string>)
    ensures c !in s ==> r == [s]
    ensures c in s ==> |r| == 2 && c !in r[0] && s == r[0] + [c] + r[1]
  {
    match IndexOf(s, c)
    case None => [s]
    case Some(i) =>
      assert s == s[..i] + [c] + s[i + 1..];
      [s[..i], s[i + 1..]]
  }

  // ---------------------------------------------------------------------------
  // Numbers
  // ---------------------------------------------------------------------------

  predicate AllDigits(s: string) {
    forall i :: 0 <= i < |s| ==> IsAsciiDigit(s[i])
  }

  /** The value of a string of ASCII digits. */
  function DigitsValue(s: string): (v: nat)
    requires AllDigits(s)
  {
    if s == [] then 0
    else
      assert IsAsciiDigit(s[|s| - 1]);
      10 * DigitsValue(s[..|s| - 1]) + (s[|s| - 1] as int - '0' as int)
  }

  /** `s` without its sign character, if it has one. */
  function Unsigned(s: string): (r: string)
    requires s != []
    ensures r == s || r == s[1..]
  {
    if s[0] == '-' || s[0] == '+' then s[1..] else s
  }

  /** A decimal literal with an optional sign, read as an integer of
      `-half <= v < half`; None is the NumberFormatException. */
  function ParseSigned(s: string, half: nat): (r: Option<int>)
    requires half > 0
    ensures r.Some? ==> 0 - half <= r.value < half
    ensures r.Some? ==> s != [] && forall i :: 0 < i < |s| ==> IsAsciiDigit(s[i])
  {
    if s == [] then None
    else
      var digits := Unsigned(s);
      if digits == [] || !AllDigits(digits) then None
      else
        assert forall i :: 0 < i < |s| ==> s[i] == digits[i - (|s| - |digits|)];
        var v := DigitsValue(digits);
        var negated := 0 - v as int;
        if s[0] == '-' then (if v <= half then Some(negated) else None)
        else (if v < half then Some(v) else None)
  }

  /** `Integer.parseInt(s)` on ASCII digits: an optional sign, at least one
      digit, and a value that fits in an `int`. */
  function ParseInt(s: string): (r: Option<int>)
    ensures r.Some? ==> IsInt32(r.value)
  {
    ParseSigned(s, TWO_31)
  }

  /** `Long.parseLong(s)`: the same, for a value that fits in a `long`. */
  function ParseLong(s: string): (r: Option<int>)
    ensures r.Some? ==> IsInt64(r.value)
  {
    ParseSigned(s, TWO_63)
  }

  /** The decimal digits of `n`, most significant first, without leading
      zeros. */
  function DigitChars(n: nat): (s: string)
    ensures s != [] && IsAsciiDigit(s[0]) && IsAsciiDigit(s[|s| - 1])
  {
    if n < 10 then [('0' as int + n) as char]
    else DigitChars(n / 10) + [('0' as int + n % 10) as char]
  }

  lemma {:induction false} DigitCharsAll(n: nat)
    ensures AllDigits(DigitChars(n))
  {
    if n >= 10 {
      DigitCharsAll(n / 10);
    }
  }

  /** `Long.toString(n)`: a minus sign for a negative value, then the
      digits. */
  function Decimal(n: int): (s: string)
    ensures s != [] && (s[0] == '-' || IsAsciiDigit(s[0])) && IsAsciiDigit(s[|s| - 1])
  {
    if n < 0 then "-" + DigitChars(-n) else DigitChars(n)
  }

  /** Every character of a decimal after the first is a digit, and the first
      is a digit or the minus sign. */
  lemma DecimalChars(n: int)
    ensures forall i :: 0 < i < |Decimal(n)| ==> IsAsciiDigit(Decimal(n)[i])
  {
    DigitCharsAll(if n < 0 then -n else n);
    if n < 0 {
      var d := DigitChars(-n);
      assert forall i :: 0 < i < |Decimal(n)| ==> Decimal(n)[i] == d[i - 1];
    }
  }

  /** Reading the digits back gives the number. */
  lemma {:induction false} DigitsRoundTrip(n: nat)
    ensures AllDigits(DigitChars(n)) && DigitsValue(DigitChars(n)) == n
  {
    var s := DigitChars(n);
    DigitCharsAll(n);
    if n >= 10 {
      DigitsRoundTrip(n / 10);
      assert s[..|s| - 1] == DigitChars(n / 10);
    }
  }

  /** The digits of a number below `half` read back as that number. */
  lemma ParseDigitChars(n: nat, half: nat)
    requires n < half
    ensures ParseSigned(DigitChars(n), half) == Some(n)
  {
    DigitsRoundTrip(n);
    var s := DigitChars(n);
    assert s[0] != '-' && s[0] != '+';
    assert Unsigned(s) == s;
  }

  /** A minus sign and the digits of `n`, for `0 < n <= half`, read back as
      `-n`. */
  lemma ParseNegatedDigitChars(n: nat, half: nat)
    requires 0 < n <= half
    ensures ParseSigned("-" + DigitChars(n), half) == Some(0 - n)
  {
    DigitsRoundTrip(n);
    var s := "-" + DigitChars(n);
    assert s[0] == '-';
    assert Unsigned(s) == DigitChars(n);
  }

  /** `Long.parseLong(Long.toString(n)) == n`, and likewise for `int`: a
      number written in decimal reads back as itself. */
  lemma DecimalRoundTrip(n: int)
    ensures IsInt64(n) ==> ParseLong(Decimal(n)) == Some(n)
    ensures IsInt32(n) ==> ParseInt(Decimal(n)) == Some(n)
  {
    if n < 0 {
      if IsInt64(n) {
        ParseNegatedDigitChars(-n, TWO_63);
      }
      if IsInt32(n) {
        ParseNegatedDigitChars(-n, TWO_31);
      }
    } else {
      if IsInt64(n) {
        ParseDigitChars(n, TWO_63);
      }
      if IsInt32(n) {
        ParseDigitChars(n, TWO_31);
      }
    }
  }

  /** Digit strings are read in decimal: a single digit is its own value. */
  lemma ParseDigit(c: char)
    requires IsAsciiDigit(c)
    ensures ParseInt([c]) == Some(c as int - '0' as int)
    ensures ParseInt(['-', c]) == Some('0' as int - c as int)
  {
    assert [c][..0] == [];
    assert DigitsValue([c]) == c as int - '0' as int;
    assert ['-', c][1..] == [c];
  }

  /** A string without any digit is never a number. */
  lemma NoDigitNoNumber(s: string)
    requires !HasDigit(s)
    ensures ParseInt(s).None?
  {
    if s != [] && Unsigned(s) != [] {
      assert Unsigned(s)[0] == s[|s| - |Unsigned(s)|];
    }
  }
}
