/** The JavaScript string and array operations the batch routes rely on:
    truthiness and `||`, `Array.prototype.find` and `filter`,
    `String.prototype.split` with a one-character separator, the line split
    `/\r?\n/`, `trim`, and case-insensitive matching of ASCII patterns. */
module JsText {
  import opened Wrappers

  /** A property read from a plain object: absent (`undefined`) or a string. */
  datatype JsValue = Undefined | Str(s: string)

  predicate Truthy(v: JsValue) {
    v.Str? && v.s != ""
  }

  /** The string `String(v)` produces, as `encodeURIComponent` sees it. */
  function ToJsString(v: JsValue): string {
    match v
    case Undefined => "undefined"
    case Str(s) => s
  }

  ghost predicate NoneTruthyBefore(vs: seq<JsValue>, i: int)
    requires 0 <= i <= |vs|
  {
    forall j :: 0 <= j < i ==> !Truthy(vs[j])
  }

  /** `vs[0] || vs[1] || ... || vs[n-1]`: the first truthy operand, or the
      last operand when none is truthy. */
  function OrChain(vs: seq<JsValue>): (r: JsValue)
    requires |vs| > 0
    ensures Truthy(r) ==> exists i :: 0 <= i < |vs| && vs[i] == r && NoneTruthyBefore(vs, i)
    ensures !Truthy(r) ==> r == vs[|vs| - 1] && NoneTruthyBefore(vs, |vs|)
  {
    if |vs| == 1 || Truthy(vs[0]) then vs[0]
    else
      var r := OrChain(vs[1..]);
      assert forall j :: 1 <= j < |vs| ==> vs[j] == vs[1..][j - 1];
      r
  }

  /** `(v0 || ... || vn) || v`: one more operand is read only when the
      chain so far is falsy. */
  lemma {:induction false} OrChainSnoc(vs: seq<JsValue>, v: JsValue)
    requires |vs| > 0
    ensures OrChain(vs + [v]) == if Truthy(OrChain(vs)) then OrChain(vs) else v
  {
    if |vs| > 1 && !Truthy(vs[0]) {
      assert (vs + [v])[1..] == vs[1..] + [v];
      OrChainSnoc(vs[1..], v);
    }
  }

  /** `xs.find(p)`, as the index of the element found. */
  function Find<T>(xs: seq<T>, p: T -> bool): (r: Option<nat>)
    ensures r.Some? ==> r.value < |xs| && p(xs[r.value])
    ensures r.Some? ==> forall j :: 0 <= j < r.value ==> !p(xs[j])
    ensures r.None? ==> forall j :: 0 <= j < |xs| ==> !p(xs[j])
  {
    if xs == [] then None
    else if p(xs[0]) then Some(0)
    else
      match Find(xs[1..], p)
      case None => None
      case Some(i) => Some(i + 1)
  }

  /** `xs.filter(p)`, which keeps the order of the elements it keeps. */
  function Filter<T>(xs: seq<T>, p: T -> bool): (r: seq<T>)
    ensures |r| <= |xs|
    ensures forall x :: x in r ==> x in xs && p(x)
    ensures forall x :: x in xs && p(x) ==> x in r
  {
    if xs == [] then []
    else (if p(xs[0]) then [xs[0]] else []) + Filter(xs[1..], p)
  }

  /** Finding in a filtered list finds the first element that passes both
      tests, as `xs.filter(q).find(p)` does. */
  lemma {:induction false} FindInFilter<T>(xs: seq<T>, q: T -> bool, p: T -> bool)
    ensures Find(Filter(xs, q), p).None? <==> Find(xs, (x: T) => q(x) && p(x)).None?
    ensures Find(Filter(xs, q), p).Some? ==>
      Filter(xs, q)[Find(Filter(xs, q), p).value] == xs[Find(xs, (x: T) => q(x) && p(x)).value]
  {
    if xs != [] {
      FindInFilter(xs[1..], q, p);
      var both := (x: T) => q(x) && p(x);
      var rest := Filter(xs[1..], q);
      if q(xs[0]) {
        assert Filter(xs, q) == [xs[0]] + rest;
        if !p(xs[0]) {
          assert Filter(xs, q)[1..] == rest;
        }
      } else {
        assert Filter(xs, q) == rest;
      }
    }
  }

  /** `filter` distributes over concatenation: it keeps the order of the
      elements it keeps, and each as often as it occurs. */
  lemma {:induction false} FilterAppend<T>(xs: seq<T>, ys: seq<T>, p: T -> bool)
    ensures Filter(xs + ys, p) == Filter(xs, p) + Filter(ys, p)
    decreases |xs|
  {
    if xs == [] {
      assert xs + ys == ys;
    } else {
      assert (xs + ys)[0] == xs[0];
      assert (xs + ys)[1..] == xs[1..] + ys;
      FilterAppend(xs[1..], ys, p);
    }
  }

  /** Nothing passes, nothing is kept. */
  lemma {:induction false} FilterNone<T>(xs: seq<T>, p: T -> bool)
    requires forall k :: 0 <= k < |xs| ==> !p(xs[k])
    ensures Filter(xs, p) == []
    decreases |xs|
  {
    if xs != [] {
      FilterNone(xs[1..], p);
    }
  }

  /** A kept element `xs[j]` lands in the filtered list at the position given
      by the number of kept elements before it. */
  lemma FilterRank<T>(xs: seq<T>, p: T -> bool, j: nat)
    requires j < |xs| && p(xs[j])
    ensures |Filter(xs[..j], p)| < |Filter(xs, p)|
    ensures Filter(xs, p)[|Filter(xs[..j], p)|] == xs[j]
  {
    assert xs == xs[..j] + ([xs[j]] + xs[j + 1..]);
    FilterAppend(xs[..j], [xs[j]] + xs[j + 1..], p);
    FilterAppend([xs[j]], xs[j + 1..], p);
    assert Filter([xs[j]], p) == [xs[j]] by {
      assert [xs[j]][1..] == [];
    }
  }

  predicate IsNonEmptyString(x: string) {
    x != ""
  }

  /** `.filter(Boolean)` on strings: drop the empty ones. */
  function NonEmpty(xs: seq<string>): (r: seq<string>)
    ensures forall x :: x in r ==> x in xs && x != ""
    ensures forall x :: x in xs && x != "" ==> x in r
  {
    Filter(xs, IsNonEmptyString)
  }

  /** The first element left by `.filter(Boolean)` is the first non-empty
      string of the list. */
  lemma NonEmptyFirst(xs: seq<string>, j: nat)
    requires j < |xs| && xs[j] != ""
    requires forall k :: 0 <= k < j ==> xs[k] == ""
    ensures NonEmpty(xs) != [] && NonEmpty(xs)[0] == xs[j]
  {
    FilterRank(xs, IsNonEmptyString, j);
    FilterNone(xs[..j], IsNonEmptyString);
  }

  // ---------------------------------------------------------------------
  // split
  // ---------------------------------------------------------------------

  /** Index of the first `c` in `s`, or `|s|` when there is none. */
  function IndexOf(s: string, c: char): (i: nat)
    ensures i <= |s|
    ensures i < |s| ==> s[i] == c
    ensures forall k :: 0 <= k < i ==> s[k] != c
  {
    if s == [] || s[0] == c then 0 else 1 + IndexOf(s[1..], c)
  }

  /** `s.split(sep)` for a one-character separator: the pieces between
      separators, always at least one (`"".split(",")` is `[""]`). */
  function Split(s: string, sep: char): (parts: seq<string>)
    ensures |parts| > 0
    ensures forall p :: p in parts ==> sep !in p
    decreases |s|
  {
    var i := IndexOf(s, sep);
    if i == |s| then [s] else [s[..i]] + Split(s[i + 1..], sep)
  }

  /** `parts.join(sep)`: the inverse of Split. */
  function Join(parts: seq<string>, sep: char): string
    requires |parts| > 0
  {
    if |parts| == 1 then parts[0] else parts[0] + [sep] + Join(parts[1..], sep)
  }

  lemma {:induction false} SplitThenJoin(s: string, sep: char)
    ensures Join(Split(s, sep), sep) == s
    decreases |s|
  {
    var i := IndexOf(s, sep);
    if i < |s| {
      SplitThenJoin(s[i + 1..], sep);
      assert s == s[..i] + [sep] + s[i + 1..];
    }
  }

  lemma {:induction false} JoinThenSplit(parts: seq<string>, sep: char)
    requires |parts| > 0
    requires forall p :: p in parts ==> sep !in p
    ensures Split(Join(parts, sep), sep) == parts
  {
    var s := Join(parts, sep);
    if |parts| == 1 {
      assert sep !in parts[0];
    } else {
      var n := |parts[0]|;
      assert sep !in parts[0];
      assert s[n] == sep;
      assert forall k :: 0 <= k < n ==> s[k] == parts[0][k];
      assert IndexOf(s, sep) == n;
      assert s[..n] == parts[0];
      assert s[n + 1..] == Join(parts[1..], sep);
      JoinThenSplit(parts[1..], sep);
    }
  }

  /** One trailing carriage return removed, as the `\r?` of the line split does. */
  function DropCr(p: string): (r: string)
    ensures r + ['\r'] == p || (r == p && (p == [] || p[|p| - 1] != '\r'))
    ensures forall c :: c in r ==> c in p
  {
    if |p| > 0 && p[|p| - 1] == '\r' then p[..|p| - 1] else p
  }

  /** `s.split(/\r?\n/)`: split at every line feed; a piece that a line feed
      ends loses one carriage return before it, the final piece keeps it. */
  function SplitLines(s: string): (lines: seq<string>)
    ensures |lines| == |Split(s, '\n')|
    ensures forall i :: 0 <= i < |lines| - 1 ==>
      var part := Split(s, '\n')[i];
      part == lines[i] + ['\r'] || (part == lines[i] && (part == [] || part[|part| - 1] != '\r'))
    ensures lines[|lines| - 1] == Split(s, '\n')[|lines| - 1]
    ensures forall l :: l in lines ==> '\n' !in l
  {
    var parts := Split(s, '\n');
    seq(|parts|, i requires 0 <= i < |parts| =>
      if i < |parts| - 1 then DropCr(parts[i]) else parts[i])
  }

  // ---------------------------------------------------------------------
  // trim
  // ---------------------------------------------------------------------

  /** The characters `String.prototype.trim` removes: white space and line
      terminators, including the byte order mark. */
  predicate IsJsSpace(c: char) {
    c == ' ' || c == '\t' || c == '\n' || c == '\U{B}' || c == '\U{C}' || c == '\r'
    || c == '\U{A0}' || c == '\U{1680}' || ('\U{2000}' <= c <= '\U{200A}')
    || c == '\U{2028}' || c == '\U{2029}' || c == '\U{202F}' || c == '\U{205F}'
    || c == '\U{3000}' || c == '\U{FEFF}'
  }

  function TrimStart(s: string): (r: string)
    ensures |r| <= |s| && r == s[|s| - |r|..]
    ensures r == [] || !IsJsSpace(r[0])
    ensures forall i :: 0 <= i < |s| - |r| ==> IsJsSpace(s[i])
  {
    if |s| > 0 && IsJsSpace(s[0]) then TrimStart(s[1..]) else s
  }

  function TrimEnd(s: string): (r: string)
    ensures |r| <= |s| && r == s[..|r|]
    ensures r == [] || !IsJsSpace(r[|r| - 1])
    ensures forall i :: |r| <= i < |s| ==> IsJsSpace(s[i])
  {
    if |s| > 0 && IsJsSpace(s[|s| - 1]) then TrimEnd(s[..|s| - 1]) else s
  }

  /** `s.trim()`: the longest infix of `s` that neither starts nor ends
      with white space, everything cut away being white space. */
  function Trim(s: string): (r: string)
    ensures exists i :: 0 <= i <= |s| && TrimmedAt(s, r, i)
    ensures r == [] || (!IsJsSpace(r[0]) && !IsJsSpace(r[|r| - 1]))
  {
    var t := TrimStart(s);
    var r := TrimEnd(t);
    TrimInfix(s, t, r);
    r
  }

  /** Cutting white space from the front of `s` and then from the back
      leaves an infix of `s` with only white space around it. */
  lemma TrimInfix(s: string, t: string, r: string)
    requires |t| <= |s| && t == s[|s| - |t|..]
    requires forall k :: 0 <= k < |s| - |t| ==> IsJsSpace(s[k])
    requires |r| <= |t| && r == t[..|r|]
    requires forall k :: |r| <= k < |t| ==> IsJsSpace(t[k])
    ensures TrimmedAt(s, r, |s| - |t|)
    ensures r == [] || r[0] == t[0]
  {
    var i := |s| - |t|;
    forall k | i + |r| <= k < |s|
      ensures IsJsSpace(s[k])
    {
      assert s[k] == t[k - i];
    }
  }

  /** `r` is the infix of `s` at `i`, and everything outside it is white space. */
  ghost predicate TrimmedAt(s: string, r: string, i: int)
    requires 0 <= i <= |s|
  {
    && i + |r| <= |s| && r == s[i..i + |r|]
    && (forall k :: 0 <= k < i ==> IsJsSpace(s[k]))
    && (forall k :: i + |r| <= k < |s| ==> IsJsSpace(s[k]))
  }

  // ---------------------------------------------------------------------
  // case-insensitive matching of lower-case ASCII patterns
  // ---------------------------------------------------------------------

  function LowerChar(c: char): char {
    if 'A' <= c <= 'Z' then (c as int + 32) as char else c
  }

  function Lower(s: string): (r: string)
    ensures |r| == |s|
  {
    seq(|s|, i requires 0 <= i < |s| => LowerChar(s[i]))
  }

  /** `s.match(/<suffix>$/i)` for a lower-case ASCII suffix. */
  predicate EndsWithCi(s: string, suffix: string) {
    |suffix| <= |s| && Lower(s[|s| - |suffix|..]) == suffix
  }

  /** `s.match(/<pat>/i)` for a lower-case ASCII literal: an occurrence anywhere. */
  predicate ContainsCi(s: string, pat: string)
    decreases |s|
  {
    |pat| <= |s| && (Lower(s[..|pat|]) == pat || ContainsCi(s[1..], pat))
  }

  // ---------------------------------------------------------------------
  // numbers as decimal strings
  // ---------------------------------------------------------------------

  function DigitChar(d: nat): (c: char)
    requires d < 10
    ensures '0' <= c <= '9' && c as int - '0' as int == d
  {
    ('0' as int + d) as char
  }

  /** `String(n)` for a non-negative integer: its decimal digits. */
  function NatToString(n: nat): (s: string)
    ensures |s| > 0
    ensures forall i :: 0 <= i < |s| ==> '0' <= s[i] <= '9'
  {
    if n < 10 then [DigitChar(n)] else NatToString(n / 10) + [DigitChar(n % 10)]
  }

  /** The number a string of decimal digits denotes. */
  function DigitsValue(s: string): nat
    requires forall i :: 0 <= i < |s| ==> '0' <= s[i] <= '9'
  {
    if s == [] then 0
    else
      assert '0' <= s[|s| - 1] <= '9';
      10 * DigitsValue(s[..|s| - 1]) + (s[|s| - 1] as int - '0' as int)
  }

  lemma {:induction false} NatToStringRoundTrip(n: nat)
    ensures DigitsValue(NatToString(n)) == n
  {
    if n >= 10 {
      NatToStringRoundTrip(n / 10);
      var s := NatToString(n);
      assert s[..|s| - 1] == NatToString(n / 10);
    }
  }

  /** Distinct numbers print as distinct strings. */
  lemma NatToStringInjective(m: nat, n: nat)
    requires NatToString(m) == NatToString(n)
    ensures m == n
  {
    NatToStringRoundTrip(m);
    NatToStringRoundTrip(n);
  }
}
