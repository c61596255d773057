/**
 * Character classes and the string operations of Python that the record
 * pipeline relies on: `str.strip`, `str.split`, `str.splitlines`,
 * `str.join`, `str.replace(x, "")`, `re.sub` with a negated class, the
 * `posixpath` helpers `dirname`, `basename` and `join`, and decimal
 * conversion between integers and digit strings.
 */
module Text {

  datatype Option<+T> = None | Some(value: T)

  /**
   * The leftmost index at or after `from` where `ms` holds a value: how
   * `re.search` tries the anchored match at each position in turn, with
   * ms[j] the anchored match at j.
   */
  function FirstSome<T>(ms: seq<Option<T>>, from: nat): (r: Option<nat>)
    requires from <= |ms|
    ensures r.Some? ==> from <= r.value < |ms| && ms[r.value].Some?
    ensures r.Some? ==> forall j | from <= j < r.value :: ms[j].None?
    ensures r.None? ==> forall j | from <= j < |ms| :: ms[j].None?
    decreases |ms| - from
  {
    if from == |ms| then None
    else if ms[from].Some? then Some(from)
    else FirstSome(ms, from + 1)
  }

  // ---------------------------------------------------------------------
  // Character classes
  // ---------------------------------------------------------------------

  /** Python's `str.isspace()`, which is also what the regex class `\s` matches. */
  predicate IsSpace(c: char) {
    ('\t' <= c <= '\r') || ('\U{1C}' <= c <= ' ') || c == '\U{85}' || c == '\U{A0}'
    || c == '\U{1680}' || ('\U{2000}' <= c <= '\U{200A}') || c == '\U{2028}'
    || c == '\U{2029}' || c == '\U{202F}' || c == '\U{205F}' || c == '\U{3000}'
  }

  /** The characters at which `str.splitlines()` breaks a line. */
  predicate IsLineBreak(c: char) {
    ('\n' <= c <= '\r') || ('\U{1C}' <= c <= '\U{1E}') || c == '\U{85}'
    || c == '\U{2028}' || c == '\U{2029}'
  }

  /** The regex class `\d`, restricted to ASCII digits. */
  predicate IsDigit(c: char) { '0' <= c <= '9' }

  predicate IsAsciiLetter(c: char) { ('a' <= c <= 'z') || ('A' <= c <= 'Z') }

  /** The class `[0-9A-Za-z]`. */
  predicate IsAsciiAlnum(c: char) { IsDigit(c) || IsAsciiLetter(c) }

  /** The regex class `\w`: ASCII letters and digits, `_`, and the Latin-1 letters. */
  predicate IsWordChar(c: char) {
    IsAsciiAlnum(c) || c == '_' || c == 'ª' || c == 'µ' || c == 'º'
    || ('À' <= c <= 'ÿ' && c != '×' && c != '÷')
  }

  /** `str.lower()` on one character, for ASCII and Latin-1 letters. */
  function Lower(c: char): (r: char)
    ensures 'A' <= c <= 'Z' ==> 'a' <= r <= 'z'
    ensures !('A' <= c <= 'Z') && !('À' <= c <= 'Þ') ==> r == c
  {
    if 'A' <= c <= 'Z' then (c as int + 32) as char
    else if 'À' <= c <= 'Þ' && c != '×' then (c as int + 32) as char
    else c
  }

  function LowerString(s: string): (r: string)
    ensures |r| == |s|
    ensures forall k | 0 <= k < |s| :: r[k] == Lower(s[k])
  {
    if s == [] then [] else [Lower(s[0])] + LowerString(s[1..])
  }

  lemma LineBreakIsSpace(c: char)
    ensures IsLineBreak(c) ==> IsSpace(c)
  {
  }

  // ---------------------------------------------------------------------
  // Runs and occurrences
  // ---------------------------------------------------------------------

  predicate AllSpace(s: string) { forall k | 0 <= k < |s| :: IsSpace(s[k]) }

  predicate AllDigits(s: string) { forall k | 0 <= k < |s| :: IsDigit(s[k]) }

  predicate NoLineBreak(s: string) { forall k | 0 <= k < |s| :: !IsLineBreak(s[k]) }

  /** The end of the maximal run of whitespace that starts at `i`: `\s*` from `i`. */
  function SkipSpaces(s: string, i: nat): (j: nat)
    requires i <= |s|
    ensures i <= j <= |s|
    ensures forall k {:trigger IsSpace(s[k])} | i <= k < j :: IsSpace(s[k])
    ensures j == |s| || !IsSpace(s[j])
    decreases |s| - i
  {
    if i < |s| && IsSpace(s[i]) then SkipSpaces(s, i + 1) else i
  }

  /** `pat` occurs in `s` at index `i`. */
  predicate OccursAt(s: string, i: nat, pat: string) {
    i + |pat| <= |s| && s[i..i + |pat|] == pat
  }

  predicate NoOcc(s: string, pat: string) {
    forall j | 0 <= j <= |s| :: !OccursAt(s, j, pat)
  }

  /** An occurrence further into `pre + x` is an occurrence in `x`. */
  lemma OccursShift(pre: string, x: string, j: nat, pat: string)
    ensures OccursAt(pre + x, |pre| + j, pat) == OccursAt(x, j, pat)
  {
    if |pre| + j + |pat| <= |pre + x| {
      assert (pre + x)[|pre| + j..|pre| + j + |pat|] == x[j..j + |pat|];
    }
  }

  /** An occurrence begins with the first character of the pattern, so none begins in a head without it. */
  lemma NoOccAfterHead(h: string, v: string, pat: string)
    requires pat != [] && pat[0] !in h && NoOcc(v, pat)
    ensures NoOcc(h + v, pat)
  {
    var s := h + v;
    forall j | 0 <= j <= |s|
      ensures OccursAt(s, j, pat) ==> s[j] == pat[0] && (j < |h| ==> s[j] == h[j]) && (j >= |h| ==> OccursAt(v, j - |h|, pat))
    {
      if OccursAt(s, j, pat) {
        assert s[j] == s[j..j + |pat|][0];
        if j >= |h| {
          OccursShift(h, v, j - |h|, pat);
        }
      }
    }
  }

  /** An occurrence that starts in the first line lies in it or spans its line break. */
  lemma OccursInLine(line: string, rest: string, pat: string, j: nat)
    requires j <= |line|
    ensures OccursAt(line + "\n" + rest, j, pat) ==> OccursAt(line, j, pat) || '\n' in pat
  {
    var s := line + "\n" + rest;
    if OccursAt(s, j, pat) {
      if j + |pat| <= |line| {
        assert s[j..j + |pat|] == line[j..j + |pat|];
      } else {
        assert s[|line|] == '\n';
        assert s[|line|] == s[j..j + |pat|][|line| - j];
      }
    }
  }

  /** A pattern without a line break does not start in a line it does not occur in. */
  lemma NoOccLine(line: string, rest: string, pat: string)
    requires '\n' !in pat && NoOcc(line, pat)
    ensures forall j | 0 <= j <= |line| :: !OccursAt(line + "\n" + rest, j, pat)
  {
    forall j | 0 <= j <= |line| ensures OccursAt(line + "\n" + rest, j, pat) ==> OccursAt(line, j, pat) || '\n' in pat {
      OccursInLine(line, rest, pat, j);
    }
  }

  /** `str.find` from index `i`: the first occurrence of `pat` at or after `i`, or -1. */
  function FindFrom(s: string, pat: string, i: nat): (r: int)
    requires i <= |s|
    ensures r == -1 || i <= r <= |s|
    ensures r >= 0 ==> OccursAt(s, r, pat)
    ensures forall j | i <= j <= |s| && (r < 0 || j < r) :: !OccursAt(s, j, pat)
    decreases |s| - i
  {
    if OccursAt(s, i, pat) then i
    else if i == |s| then -1
    else FindFrom(s, pat, i + 1)
  }

  // ---------------------------------------------------------------------
  // str.strip
  // ---------------------------------------------------------------------

  predicate IsStripped(s: string) {
    s == [] || (!IsSpace(s[0]) && !IsSpace(s[|s| - 1]))
  }

  /** `str.rstrip()`. */
  function TrimEnd(s: string): (r: string)
    ensures |r| <= |s| && r == s[..|r|]
    ensures AllSpace(s[|r|..])
    ensures r == [] || !IsSpace(r[|r| - 1])
  {
    if s == [] then []
    else if IsSpace(s[|s| - 1]) then TrimEnd(s[..|s| - 1])
    else s
  }

  /** `str.strip()`: whitespace removed from both ends. */
  function Strip(s: string): (r: string)
    ensures IsStripped(r)
    ensures |r| <= |s|
  {
    TrimEnd(s[SkipSpaces(s, 0)..])
  }

  lemma {:induction false} TrimEndPadded(b: string, c: string)
    requires AllSpace(c)
    requires b == [] || !IsSpace(b[|b| - 1])
    ensures TrimEnd(b + c) == b
    decreases |c|
  {
    if c == [] {
      assert b + c == b;
    } else {
      assert (b + c)[..|b + c| - 1] == b + c[..|c| - 1];
      TrimEndPadded(b, c[..|c| - 1]);
    }
  }

  /** Stripping removes exactly the whitespace padding around a stripped core. */
  lemma StripPadded(a: string, b: string, c: string)
    requires AllSpace(a) && AllSpace(c) && IsStripped(b)
    ensures Strip(a + b + c) == b
  {
    var s := a + b + c;
    var lo := SkipSpaces(s, 0);
    if b == [] {
      assert s == a + c;
      assert lo == |s|;
      assert s[lo..] == [];
    } else {
      assert s[|a|] == b[0];
      assert lo == |a|;
      assert s[lo..] == b + c;
      TrimEndPadded(b, c);
    }
  }

  lemma StripStripped(b: string)
    requires IsStripped(b)
    ensures Strip(b) == b
  {
    assert [] + b + [] == b;
    StripPadded([], b, []);
  }

  lemma StripAllSpace(s: string)
    requires AllSpace(s)
    ensures Strip(s) == []
  {
    assert s + [] + [] == s;
    StripPadded(s, [], []);
  }

  /** `str.strip` keeps a contiguous part of its input. */
  lemma StripSlice(s: string)
    ensures var lo := SkipSpaces(s, 0);
            lo + |Strip(s)| <= |s| && Strip(s) == s[lo..lo + |Strip(s)|]
  {
    var lo := SkipSpaces(s, 0);
    assert s[lo..][..|Strip(s)|] == s[lo..lo + |Strip(s)|];
  }

  // ---------------------------------------------------------------------
  // str.split(sep), str.splitlines(), str.join
  // ---------------------------------------------------------------------

  /** `s.split(sep)` for a non-empty separator. */
  function SplitOn(s: string, sep: string): (r: seq<string>)
    requires |sep| > 0
    ensures |r| >= 1
    decreases |s|
  {
    var k := FindFrom(s, sep, 0);
    if k < 0 then [s] else [s[..k]] + SplitOn(s[k + |sep|..], sep)
  }

  /** Splitting at an occurrence of `sep` that is the first one. */
  lemma SplitOnFirst(x: string, sep: string, y: string)
    requires |sep| > 0
    requires forall j | 0 <= j < |x| :: !OccursAt(x + sep + y, j, sep)
    ensures SplitOn(x + sep + y, sep) == [x] + SplitOn(y, sep)
  {
    var s := x + sep + y;
    assert OccursAt(s, |x|, sep) by { assert s[|x|..|x| + |sep|] == sep; }
    var k := FindFrom(s, sep, 0);
    assert k == |x|;
    assert s[..k] == x;
    assert s[k + |sep|..] == y;
  }

  lemma SplitOnNone(s: string, sep: string)
    requires |sep| > 0 && NoOcc(s, sep)
    ensures SplitOn(s, sep) == [s]
  {
  }

  /** Splitting at a one-character separator that `x` does not hold. */
  lemma SplitOnChar(x: string, c: char, y: string)
    requires c !in x
    ensures SplitOn(x + [c] + y, [c]) == [x] + SplitOn(y, [c])
  {
    var s := x + [c] + y;
    forall j | 0 <= j < |x| ensures !OccursAt(s, j, [c]) {
      assert s[j..j + 1] == [x[j]];
    }
    SplitOnFirst(x, [c], y);
  }

  lemma SplitOnCharNone(x: string, c: char)
    requires c !in x
    ensures SplitOn(x, [c]) == [x]
  {
    forall j | 0 <= j <= |x| ensures !OccursAt(x, j, [c]) {
      if j < |x| {
        assert x[j..j + 1] == [x[j]];
      }
    }
    SplitOnNone(x, [c]);
  }

  /** The end of the line that starts at `i`: the first line break from `i`, or the end of `s`. */
  function LineEnd(s: string, i: nat): (j: nat)
    requires i <= |s|
    ensures i <= j <= |s|
    ensures forall k | i <= k < j :: !IsLineBreak(s[k])
    ensures j == |s| || IsLineBreak(s[j])
    decreases |s| - i
  {
    if i < |s| && !IsLineBreak(s[i]) then LineEnd(s, i + 1) else i
  }

  /** `s.splitlines()`: lines without their terminators; `\r\n` is one terminator. */
  function SplitLines(s: string): (r: seq<string>)
    ensures s == [] ==> r == []
    decreases |s|
  {
    if s == [] then []
    else
      var k := LineEnd(s, 0);
      if k == |s| then [s]
      else
        var next := if s[k] == '\r' && k + 1 < |s| && s[k + 1] == '\n' then k + 2 else k + 1;
        [s[..k]] + SplitLines(s[next..])
  }

  lemma SplitLinesSingle(l: string)
    requires l != [] && NoLineBreak(l)
    ensures SplitLines(l) == [l]
  {
    assert LineEnd(l, 0) == |l|;
  }

  lemma SplitLinesCons(l: string, rest: string)
    requires NoLineBreak(l)
    ensures SplitLines(l + "\n" + rest) == [l] + SplitLines(rest)
  {
    var s := l + "\n" + rest;
    assert s[|l|] == '\n';
    var k := LineEnd(s, 0);
    assert k == |l|;
    assert s[..k] == l;
    assert s[k + 1..] == rest;
  }

  /** `sep.join(parts)`. */
  function Join(parts: seq<string>, sep: string): (r: string)
    decreases |parts|
  {
    if parts == [] then []
    else if |parts| == 1 then parts[0]
    else parts[0] + sep + Join(parts[1..], sep)
  }

  /** Text whose only line terminator is `\n`, with no terminator at its end. */
  predicate NewlineText(t: string) {
    (forall k | 0 <= k < |t| :: IsLineBreak(t[k]) ==> t[k] == '\n')
    && (t == [] || t[|t| - 1] != '\n')
  }

  /** Joining the lines of a `\n`-separated text with `\n` gives the text back. */
  lemma {:induction false} JoinSplitLines(t: string)
    requires NewlineText(t)
    ensures Join(SplitLines(t), "\n") == t
    decreases |t|
  {
    if t != [] {
      var k := LineEnd(t, 0);
      if k < |t| {
        assert t[k] == '\n';
        var rest := t[k + 1..];
        assert t == t[..k] + "\n" + rest;
        assert rest != [] by { assert t[|t| - 1] != '\n'; }
        assert NewlineText(rest) by {
          forall i | 0 <= i < |rest| ensures IsLineBreak(rest[i]) ==> rest[i] == '\n' {
            assert rest[i] == t[k + 1 + i];
          }
          assert rest[|rest| - 1] == t[|t| - 1];
        }
        JoinSplitLines(rest);
        var lines := SplitLines(t);
        assert lines == [t[..k]] + SplitLines(rest);
        assert SplitLines(rest) != [];
      }
    }
  }

  /** Joining tokens with a separator character and splitting on it again gives the tokens back. */
  lemma {:induction false} SplitJoin(parts: seq<string>, c: char)
    requires |parts| >= 1
    requires forall i | 0 <= i < |parts| :: c !in parts[i]
    ensures SplitOn(Join(parts, [c]), [c]) == parts
    decreases |parts|
  {
    if |parts| == 1 {
      var p := parts[0];
      forall j | 0 <= j <= |p| ensures !OccursAt(p, j, [c]) {
        if j < |p| { assert p[j..j + 1] == [p[j]]; }
      }
    } else {
      var x, y := parts[0], Join(parts[1..], [c]);
      forall j | 0 <= j < |x| ensures !OccursAt(x + [c] + y, j, [c]) {
        assert (x + [c] + y)[j..j + 1] == [x[j]];
      }
      SplitOnFirst(x, [c], y);
      SplitJoin(parts[1..], c);
    }
  }

  // ---------------------------------------------------------------------
  // Building a list or a text one item at a time
  // ---------------------------------------------------------------------

  /** A prefix one element longer. */
  lemma PrefixStep<T>(s: seq<T>, i: nat, x: T)
    requires i < |s| && s[i] == x
    ensures s[..i + 1] == s[..i] + [x]
  {
  }

  lemma AppendAssoc<T>(a: seq<T>, b: seq<T>, c: seq<T>)
    ensures a + (b + c) == a + b + c
  {
  }

  /** The texts `f` gives the items of `xs`, one after the other: a file written record by record. */
  function Concat<T>(xs: seq<T>, f: T -> string): string
    decreases |xs|
  {
    if xs == [] then "" else Concat(xs[..|xs| - 1], f) + f(xs[|xs| - 1])
  }

  lemma {:induction false} ConcatAppend<T>(a: seq<T>, b: seq<T>, f: T -> string)
    ensures Concat(a + b, f) == Concat(a, f) + Concat(b, f)
    decreases |b|
  {
    if b == [] {
      assert a + b == a;
    } else {
      var init := b[..|b| - 1];
      assert (a + b)[..|a + b| - 1] == a + init && (a + b)[|a + b| - 1] == b[|b| - 1];
      ConcatAppend(a, init, f);
    }
  }

  /** Items that give the same texts give the same concatenation. */
  lemma {:induction false} ConcatPointwise<T, U>(xs: seq<T>, f: T -> string, ys: seq<U>, g: U -> string)
    requires |xs| == |ys| && forall i | 0 <= i < |xs| :: f(xs[i]) == g(ys[i])
    ensures Concat(xs, f) == Concat(ys, g)
    decreases |xs|
  {
    if xs != [] {
      ConcatPointwise(xs[..|xs| - 1], f, ys[..|ys| - 1], g);
    }
  }

  /** The values `f` gives the items of `xs` for which it gives one, in order: a list built by conditional appends. */
  function Collected<T, U>(xs: seq<T>, f: T -> Option<U>): seq<U>
    decreases |xs|
  {
    if xs == [] then []
    else Collected(xs[..|xs| - 1], f) + (match f(xs[|xs| - 1]) case None => [] case Some(u) => [u])
  }

  /** One more element of the input adds what `f` gives for it. */
  lemma CollectedNext<T, U>(xs: seq<T>, f: T -> Option<U>, i: nat)
    requires i < |xs|
    ensures Collected(xs[..i + 1], f) == Collected(xs[..i], f) + (match f(xs[i]) case None => [] case Some(u) => [u])
  {
    assert xs[..i + 1][..i] == xs[..i];
  }

  lemma {:induction false} CollectedAppend<T, U>(a: seq<T>, b: seq<T>, f: T -> Option<U>)
    ensures Collected(a + b, f) == Collected(a, f) + Collected(b, f)
    decreases |b|
  {
    if b == [] {
      assert a + b == a;
    } else {
      var init := b[..|b| - 1];
      assert (a + b)[..|a + b| - 1] == a + init && (a + b)[|a + b| - 1] == b[|b| - 1];
      CollectedAppend(a, init, f);
    }
  }

  /** When every item gives a value, those values in order. */
  lemma {:induction false} CollectedAll<T, U>(xs: seq<T>, f: T -> Option<U>, ys: seq<U>)
    requires |xs| == |ys| && forall i | 0 <= i < |xs| :: f(xs[i]) == Some(ys[i])
    ensures Collected(xs, f) == ys
    decreases |xs|
  {
    if xs != [] {
      CollectedAll(xs[..|xs| - 1], f, ys[..|ys| - 1]);
      assert ys == ys[..|ys| - 1] + [ys[|ys| - 1]];
    }
  }

  /** When no item gives a value, nothing. */
  lemma {:induction false} CollectedNone<T, U>(xs: seq<T>, f: T -> Option<U>)
    requires forall i | 0 <= i < |xs| :: f(xs[i]).None?
    ensures Collected(xs, f) == []
    decreases |xs|
  {
    if xs != [] {
      CollectedNone(xs[..|xs| - 1], f);
    }
  }

  /** Never more values than items. */
  lemma {:induction false} CollectedLength<T, U>(xs: seq<T>, f: T -> Option<U>)
    ensures |Collected(xs, f)| <= |xs|
    decreases |xs|
  {
    if xs != [] {
      CollectedLength(xs[..|xs| - 1], f);
    }
  }

  // ---------------------------------------------------------------------
  // str.replace(pat, "") and re.sub(r'[^0-9A-Za-z]', '', s)
  // ---------------------------------------------------------------------

  /** `s.replace(pat, "")`: occurrences removed left to right, without overlap. */
  function RemoveAll(s: string, pat: string): (r: string)
    requires |pat| > 0
    ensures |r| <= |s|
    decreases |s|
  {
    if s == [] then []
    else if OccursAt(s, 0, pat) then RemoveAll(s[|pat|..], pat)
    else [s[0]] + RemoveAll(s[1..], pat)
  }

  lemma {:induction false} RemoveAllAbsent(s: string, pat: string)
    requires |pat| > 0 && NoOcc(s, pat)
    ensures RemoveAll(s, pat) == s
    decreases |s|
  {
    if s != [] {
      assert !OccursAt(s, 0, pat);
      assert NoOcc(s[1..], pat) by {
        forall j | 0 <= j <= |s[1..]| ensures !OccursAt(s[1..], j, pat) {
          if OccursAt(s[1..], j, pat) {
            assert s[1..][j..j + |pat|] == s[j + 1..j + 1 + |pat|];
            assert OccursAt(s, j + 1, pat);
          }
        }
      }
      RemoveAllAbsent(s[1..], pat);
    }
  }

  /** Removing a single character leaves none of it and keeps the count of every other character. */
  lemma {:induction false} RemoveCharGone(s: string, c: char)
    ensures c !in RemoveAll(s, [c])
    ensures c !in s ==> RemoveAll(s, [c]) == s
    ensures forall x | x != c :: multiset(RemoveAll(s, [c]))[x] == multiset(s)[x]
    decreases |s|
  {
    if s != [] {
      assert s == [s[0]] + s[1..];
      if OccursAt(s, 0, [c]) {
        assert s[0] == s[..1][0] == c;
        RemoveCharGone(s[1..], c);
      } else {
        assert s[0] != c;
        RemoveCharGone(s[1..], c);
        assert c !in s ==> c !in s[1..];
        assert RemoveAll(s, [c]) == [s[0]] + RemoveAll(s[1..], [c]);
      }
    }
  }

  /** `re.sub(r'[^0-9A-Za-z]', '', s)`. */
  function KeepAlnum(s: string): (r: string)
    ensures |r| <= |s|
    ensures forall k | 0 <= k < |r| :: IsAsciiAlnum(r[k])
  {
    if s == [] then []
    else if IsAsciiAlnum(s[0]) then [s[0]] + KeepAlnum(s[1..])
    else KeepAlnum(s[1..])
  }

  lemma {:induction false} KeepAlnumIdentity(s: string)
    requires forall k | 0 <= k < |s| :: IsAsciiAlnum(s[k])
    ensures KeepAlnum(s) == s
    decreases |s|
  {
    if s != [] { KeepAlnumIdentity(s[1..]); }
  }

  lemma KeepAlnumIdempotent(s: string)
    ensures KeepAlnum(KeepAlnum(s)) == KeepAlnum(s)
  {
    KeepAlnumIdentity(KeepAlnum(s));
  }

  // ---------------------------------------------------------------------
  // posixpath.dirname, basename, join
  // ---------------------------------------------------------------------

  /** One past the index of the last `/`, or 0: `p.rfind('/') + 1`. */
  function AfterLastSlash(p: string): (i: nat)
    ensures i <= |p|
    ensures i > 0 ==> p[i - 1] == '/'
    ensures forall k | i <= k < |p| :: p[k] != '/'
  {
    if p == [] then 0
    else if p[|p| - 1] == '/' then |p|
    else AfterLastSlash(p[..|p| - 1])
  }

  function Basename(p: string): (r: string)
    ensures '/' !in r
  {
    var r := p[AfterLastSlash(p)..];
    assert forall k | 0 <= k < |r| :: r[k] != '/';
    r
  }

  function TrimSlashesEnd(s: string): (r: string)
    ensures |r| <= |s| && r == s[..|r|]
  {
    if s != [] && s[|s| - 1] == '/' then TrimSlashesEnd(s[..|s| - 1]) else s
  }

  predicate AllSlashes(s: string) { forall k | 0 <= k < |s| :: s[k] == '/' }

  function Dirname(p: string): (r: string)
    ensures |r| <= |p|
  {
    var head := p[..AfterLastSlash(p)];
    if head != [] && !AllSlashes(head) then TrimSlashesEnd(head) else head
  }

  /** `os.path.join(a, b)` for two components. */
  function PathJoin(a: string, b: string): (r: string)
  {
    if b != [] && b[0] == '/' then b
    else if a == [] || a[|a| - 1] == '/' then a + b
    else a + "/" + b
  }

  /** Joining a directory with a slash-free name yields a path whose base name is that name. */
  lemma BasenamePathJoin(a: string, b: string)
    requires '/' !in b
    ensures Basename(PathJoin(a, b)) == b
  {
    if a == [] || a[|a| - 1] == '/' {
      BasenameSuffix(a, b);
    } else {
      assert PathJoin(a, b) == (a + "/") + b;
      BasenameSuffix(a + "/", b);
    }
  }

  lemma BasenameSuffix(a: string, b: string)
    requires a == [] || a[|a| - 1] == '/'
    requires '/' !in b
    ensures Basename(a + b) == b
    decreases |b|
  {
    var s := a + b;
    if b == [] {
      assert s == a;
    } else {
      assert s[..|s| - 1] == a + b[..|b| - 1];
      BasenameSuffix(a, b[..|b| - 1]);
      assert AfterLastSlash(s) == AfterLastSlash(s[..|s| - 1]);
    }
  }

  // ---------------------------------------------------------------------
  // Decimal numbers
  // ---------------------------------------------------------------------

  function DigitValue(c: char): nat requires IsDigit(c) { c as nat - '0' as nat }

  function DigitChar(d: nat): (c: char)
    requires d < 10
    ensures IsDigit(c) && DigitValue(c) == d
  {
    ('0' as nat + d) as char
  }

  /** `int(s)` for a non-empty string of ASCII digits. */
  function ParseDigits(s: string): nat
    requires AllDigits(s)
    decreases |s|
  {
    if s == [] then 0 else ParseDigits(s[..|s| - 1]) * 10 + DigitValue(s[|s| - 1])
  }

  /** `str(n)` for a natural number. */
  function NatToString(n: nat): (r: string)
    ensures r != [] && AllDigits(r)
    ensures n > 0 ==> r[0] != '0'
    decreases n
  {
    if n < 10 then [DigitChar(n)] else NatToString(n / 10) + [DigitChar(n % 10)]
  }

  /** `int(str(n)) == n`: decimal rendering can be read back. */
  lemma {:induction false} ParseNatToString(n: nat)
    ensures ParseDigits(NatToString(n)) == n
    decreases n
  {
    var s := NatToString(n);
    if n < 10 {
      assert s[..0] == [];
    } else {
      ParseNatToString(n / 10);
      assert s[..|s| - 1] == NatToString(n / 10);
    }
  }

  lemma NatToStringInjective(m: nat, n: nat)
    requires NatToString(m) == NatToString(n)
    ensures m == n
  {
    ParseNatToString(m);
    ParseNatToString(n);
  }

  // ---------------------------------------------------------------------
  // Python's string ordering (by code point, a prefix first)
  // ---------------------------------------------------------------------

  predicate LexLe(a: string, b: string) {
    a == [] || (b != [] && (a[0] < b[0] || (a[0] == b[0] && LexLe(a[1..], b[1..]))))
  }

  lemma {:induction false} LexLeTotal(a: string, b: string)
    ensures LexLe(a, b) || LexLe(b, a)
    decreases |a|
  {
    if a != [] && b != [] && a[0] == b[0] { LexLeTotal(a[1..], b[1..]); }
  }

  lemma {:induction false} LexLeTransitive(a: string, b: string, c: string)
    requires LexLe(a, b) && LexLe(b, c)
    ensures LexLe(a, c)
    decreases |a|
  {
    if a != [] && b[0] == a[0] && c[0] == b[0] { LexLeTransitive(a[1..], b[1..], c[1..]); }
  }

  lemma {:induction false} LexLeAntisymmetric(a: string, b: string)
    requires LexLe(a, b) && LexLe(b, a)
    ensures a == b
    decreases |a|
  {
    if a != [] {
      LexLeAntisymmetric(a[1..], b[1..]);
      assert a == [a[0]] + a[1..] && b == [b[0]] + b[1..];
    }
  }
}
