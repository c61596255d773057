/**
 * The `LABEL\s*(X+)` shape shared by the field readers of main.py,
 * postar.py and cadastrar.py, where X is `.` (anything but `\n`) or
 * `[^\r\n]`, and the search for it with `re.search`.
 *
 * `\s*` is greedy and X+ must take at least one character, so the engine
 * tries the longest whitespace run first and gives back one character at
 * a time: the group starts at the last position, no further than the end
 * of the whitespace, that holds a character X accepts. When the label is
 * followed by text on its own line that is the first non-space character;
 * when only whitespace follows it to the end of the input, it is the last
 * whitespace character X accepts.
 */
module Capture {
  import opened Text
  import opened Dates

  /** The characters X does not accept: `\n`, and also `\r` when `cr`. */
  predicate IsStop(c: char, cr: bool) {
    c == '\n' || (cr && c == '\r')
  }

  lemma StopIsSpace(c: char, cr: bool)
    ensures IsStop(c, cr) ==> IsSpace(c)
  {
  }

  /** No stop character in s[i..j]. */
  predicate NoStopIn(s: string, i: nat, j: nat, cr: bool) {
    i <= j <= |s| && forall k {:trigger IsStop(s[k], cr)} | i <= k < j :: !IsStop(s[k], cr)
  }

  /** How far the greedy X+ reaches from `i`. */
  function StopEnd(s: string, i: nat, cr: bool): (j: nat)
    requires i <= |s|
    ensures i <= j <= |s|
    decreases |s| - i
  {
    if i < |s| && !IsStop(s[i], cr) then StopEnd(s, i + 1, cr) else i
  }

  /** X+ stops at the first stop character or at the end of the input. */
  lemma {:induction false} StopEndRun(s: string, i: nat, cr: bool)
    requires i <= |s|
    ensures NoStopIn(s, i, StopEnd(s, i, cr), cr)
    ensures StopEnd(s, i, cr) == |s| || IsStop(s[StopEnd(s, i, cr)], cr)
    decreases |s| - i
  {
    if i < |s| && !IsStop(s[i], cr) {
      StopEndRun(s, i + 1, cr);
    }
  }

  /** The largest index in [p, k) holding a character X accepts. */
  function LastStart(s: string, p: nat, k: nat, cr: bool): (r: Option<nat>)
    requires p <= k <= |s|
    ensures r.Some? ==> p <= r.value < k && !IsStop(s[r.value], cr)
    decreases k - p
  {
    if k == p then None
    else if !IsStop(s[k - 1], cr) then Some(k - 1)
    else LastStart(s, p, k - 1, cr)
  }

  /** Every index in [r, k) holds a stop character, r being what `LastStart` found or `p`. */
  lemma {:induction false} LastStartAbove(s: string, p: nat, k: nat, cr: bool)
    requires p <= k <= |s|
    ensures var r := LastStart(s, p, k, cr);
            var lo := if r.Some? then r.value + 1 else p;
            forall j | lo <= j < k :: IsStop(s[j], cr)
    decreases k - p
  {
    if k > p && IsStop(s[k - 1], cr) {
      LastStartAbove(s, p, k - 1, cr);
    }
  }

  /** Where `\s*` may end and X+ begin: whitespace from `p`, then a character X accepts. */
  predicate ValidStart(s: string, p: nat, k: nat, cr: bool) {
    SpacesIn(s, p, k) && k < |s| && !IsStop(s[k], cr)
  }

  /** `\s*` cannot run past the first non-space character. */
  lemma ValidStartBelow(s: string, p: nat, k: nat, cr: bool)
    requires p <= |s|
    ensures ValidStart(s, p, k, cr) ==> k <= SkipSpaces(s, p)
  {
    var q := SkipSpaces(s, p);
    var inside := q < k && k <= |s| && IsSpace(s[q]);
  }

  /** `\s*(X+)` from `p`: the bounds of the group, as the engine finds them. */
  function CaptureAfter(s: string, p: nat, cr: bool): (r: Option<(nat, nat)>)
    requires p <= |s|
    ensures r.Some? ==> p <= r.value.0 < r.value.1 <= |s|
  {
    var q := SkipSpaces(s, p);
    match LastStart(s, p, if q < |s| then q + 1 else q, cr)
    case None => None
    case Some(k) => Some((k, StopEnd(s, k, cr)))
  }

  /**
   * The group is a valid start followed by the longest run X accepts, and
   * no later position is a valid start: `\s*` gave back as little as it
   * could.
   */
  lemma CaptureSound(s: string, p: nat, cr: bool)
    requires p <= |s| && CaptureAfter(s, p, cr).Some?
    ensures var (k, e) := CaptureAfter(s, p, cr).value;
            && ValidStart(s, p, k, cr) && e == StopEnd(s, k, cr)
            && NoStopIn(s, k, e, cr) && (e == |s| || IsStop(s[e], cr))
            && forall k' | k < k' :: !ValidStart(s, p, k', cr)
  {
    var q := SkipSpaces(s, p);
    var top := if q < |s| then q + 1 else q;
    var k := LastStart(s, p, top, cr).value;
    StopEndRun(s, k, cr);
    LastStartAbove(s, p, top, cr);
    forall k' | k < k' ensures !ValidStart(s, p, k', cr) {
      ValidStartBelow(s, p, k', cr);
    }
  }

  /** When nothing is captured, there is no valid start at all. */
  lemma CaptureNone(s: string, p: nat, cr: bool)
    requires p <= |s| && CaptureAfter(s, p, cr).None?
    ensures forall k | p <= k :: !ValidStart(s, p, k, cr)
  {
    var q := SkipSpaces(s, p);
    var top := if q < |s| then q + 1 else q;
    LastStartAbove(s, p, top, cr);
    forall k | p <= k ensures !ValidStart(s, p, k, cr) {
      ValidStartBelow(s, p, k, cr);
    }
  }

  /** With text after the whitespace, the group is that text up to the end of its line. */
  lemma CaptureLine(s: string, p: nat, cr: bool)
    requires p <= |s| && SkipSpaces(s, p) < |s|
    ensures CaptureAfter(s, p, cr) == Some((SkipSpaces(s, p), StopEnd(s, SkipSpaces(s, p), cr)))
  {
    StopIsSpace(s[SkipSpaces(s, p)], cr);
  }

  /** Stripping a group keeps it on one line. */
  lemma StrippedGroupOneLine(s: string, k: nat, e: nat, cr: bool)
    requires NoStopIn(s, k, e, cr)
    ensures forall c | c in Strip(s[k..e]) :: !IsStop(c, cr)
  {
    var line := s[k..e];
    var lo := SkipSpaces(line, 0);
    StripSlice(line);
    forall c | c in Strip(line) ensures !IsStop(c, cr) {
      var m :| 0 <= m < |Strip(line)| && Strip(line)[m] == c;
      assert c == line[lo + m] == s[k + lo + m];
    }
  }

  /** `tag` at `i`, its first character matched either way round when `foldFirst` (`[Nn]úmero`). */
  predicate LabelAt(s: string, i: nat, tag: string, foldFirst: bool) {
    && tag != [] && i + |tag| <= |s|
    && (s[i] == tag[0] || (foldFirst && Lower(s[i]) == Lower(tag[0])))
    && s[i + 1..i + |tag|] == tag[1..]
  }

  /** A match of `LABEL\s*(X+)` found at `at`, its group s[start..end]. */
  datatype Found = Found(at: nat, start: nat, end: nat)

  /** `LABEL\s*(X+)` anchored at `i`. */
  function CaptureAt(s: string, i: nat, tag: string, foldFirst: bool, cr: bool): (r: Option<Found>)
    requires i <= |s|
    ensures r.Some? ==> r.value.at == i && i + |tag| <= r.value.start < r.value.end <= |s|
  {
    if !LabelAt(s, i, tag, foldFirst) then None
    else
      match CaptureAfter(s, i + |tag|, cr)
      case None => None
      case Some((k, e)) => Some(Found(i, k, e))
  }

  /** The anchored match at every position. */
  function CaptureTable(s: string, tag: string, foldFirst: bool, cr: bool): (r: seq<Option<Found>>)
    ensures |r| == |s| + 1 && forall j | 0 <= j <= |s| :: r[j] == CaptureAt(s, j, tag, foldFirst, cr)
  {
    seq(|s| + 1, j requires 0 <= j <= |s| => CaptureAt(s, j, tag, foldFirst, cr))
  }

  /** `re.search(LABEL\s*(X+), s)`. */
  function SearchCapture(s: string, tag: string, foldFirst: bool, cr: bool): (r: Option<Found>)
    ensures r.Some? ==> r.value.start < r.value.end <= |s|
  {
    match FirstSome(CaptureTable(s, tag, foldFirst, cr), 0)
    case None => None
    case Some(j) => CaptureAt(s, j, tag, foldFirst, cr)
  }

  /** The search finds the match at the leftmost position where one exists, and none when there is none. */
  lemma SearchCaptureLeftmost(s: string, tag: string, foldFirst: bool, cr: bool)
    ensures var r := SearchCapture(s, tag, foldFirst, cr);
            && (r.Some? ==> r.value.at <= |s| && CaptureAt(s, r.value.at, tag, foldFirst, cr) == r)
            && (r.Some? ==> forall j | 0 <= j < r.value.at :: CaptureAt(s, j, tag, foldFirst, cr).None?)
            && (r.None? ==> forall j | 0 <= j <= |s| :: CaptureAt(s, j, tag, foldFirst, cr).None?)
  {
  }

  /** Without folding, a match is found only where the label itself occurs. */
  lemma SearchCaptureOccurs(s: string, tag: string, cr: bool)
    ensures var r := SearchCapture(s, tag, false, cr);
            r.Some? ==> OccursAt(s, r.value.at, tag)
  {
    SearchCaptureLeftmost(s, tag, false, cr);
    var r := SearchCapture(s, tag, false, cr);
    if r.Some? {
      LabelOccurs(s, r.value.at, tag);
    }
  }

  /** Without folding, the label is where it occurs. */
  lemma LabelOccurs(s: string, i: nat, tag: string)
    ensures LabelAt(s, i, tag, false) ==> OccursAt(s, i, tag)
  {
    if LabelAt(s, i, tag, false) {
      forall m | 1 <= m < |tag| ensures s[i + m] == tag[m] {
        assert s[i + m] == s[i + 1..i + |tag|][m - 1];
      }
      assert s[i..i + |tag|] == tag;
    }
  }

  /** `match.group(1).strip()` of the search, or nothing. */
  function Captured(s: string, tag: string, foldFirst: bool, cr: bool): (r: Option<string>)
    ensures r.Some? ==> IsStripped(r.value)
  {
    match SearchCapture(s, tag, foldFirst, cr)
    case None => None
    case Some(f) => Some(Strip(s[f.start..f.end]))
  }

  /** The greedy X+ from the start of a one-line value stops at the line break after it. */
  lemma StopEndAt(s: string, k: nat, e: nat)
    requires k <= e < |s| && s[e] == '\n'
    requires forall m | k <= m < e :: s[m] != '\n'
    ensures StopEnd(s, k, false) == e
  {
    StopEndRun(s, k, false);
    var j := StopEnd(s, k, false);
    assert IsStop(s[e], false);
    assert j <= e;
    assert j == |s| || IsStop(s[j], false);
  }

  /** A label, one space, a one-line value and a line break: the group is exactly the value. */
  lemma CaptureField(s: string, p: nat, tag: string, v: string, foldFirst: bool)
    requires tag != [] && v != [] && !IsSpace(v[0]) && forall m | 0 <= m < |v| :: v[m] != '\n'
    requires p + |tag| + 1 + |v| < |s|
    requires s[p..p + |tag|] == tag && s[p + |tag|] == ' '
    requires s[p + |tag| + 1..p + |tag| + 1 + |v|] == v && s[p + |tag| + 1 + |v|] == '\n'
    ensures CaptureAt(s, p, tag, foldFirst, false) == Some(Found(p, p + |tag| + 1, p + |tag| + 1 + |v|))
  {
    var q := p + |tag|;
    assert s[p] == tag[0];
    assert s[p + 1..q] == s[p..q][1..];
    assert LabelAt(s, p, tag, foldFirst);
    assert s[q + 1] == v[0];
    SkipSpacesUnique(s, q, q + 1);
    CaptureLine(s, q, false);
    forall m | q + 1 <= m < q + 1 + |v| ensures s[m] != '\n' {
      assert s[m] == v[m - q - 1];
    }
    StopEndAt(s, q + 1, q + 1 + |v|);
  }

  /** The search takes the match at `p` when the label occurs nowhere before it. */
  lemma CapturedFirst(s: string, p: nat, tag: string, foldFirst: bool, f: Found)
    requires p <= |s| && CaptureAt(s, p, tag, foldFirst, false) == Some(f)
    requires forall j | 0 <= j < p :: !LabelAt(s, j, tag, foldFirst)
    ensures Captured(s, tag, foldFirst, false) == Some(Strip(s[f.start..f.end]))
  {
    SearchCaptureLeftmost(s, tag, foldFirst, false);
  }

  /** When the first place the label occurs is such a field, `re.search` captures its value. */
  lemma CapturedField(s: string, p: nat, tag: string, v: string, foldFirst: bool)
    requires tag != [] && v != [] && IsStripped(v) && forall m | 0 <= m < |v| :: v[m] != '\n'
    requires p + |tag| + 1 + |v| < |s|
    requires s[p..p + |tag|] == tag && s[p + |tag|] == ' '
    requires s[p + |tag| + 1..p + |tag| + 1 + |v|] == v && s[p + |tag| + 1 + |v|] == '\n'
    requires forall j | 0 <= j < p :: !LabelAt(s, j, tag, foldFirst)
    ensures Captured(s, tag, foldFirst, false) == Some(v)
  {
    var f := Found(p, p + |tag| + 1, p + |tag| + 1 + |v|);
    assert s[f.start..f.end] == v;
    assert CaptureAt(s, p, tag, foldFirst, false) == Some(f) by { CaptureField(s, p, tag, v, foldFirst); }
    assert Captured(s, tag, foldFirst, false) == Some(Strip(v)) by { CapturedFirst(s, p, tag, foldFirst, f); }
    StripStripped(v);
  }

  /** A label, one space and a one-line value that runs to the end: the group is exactly the value. */
  lemma CaptureFieldEnd(s: string, p: nat, tag: string, v: string, foldFirst: bool)
    requires tag != [] && v != [] && !IsSpace(v[0]) && forall m | 0 <= m < |v| :: v[m] != '\n'
    requires p + |tag| + 1 + |v| == |s|
    requires s[p..p + |tag|] == tag && s[p + |tag|] == ' ' && s[p + |tag| + 1..] == v
    ensures CaptureAt(s, p, tag, foldFirst, false) == Some(Found(p, p + |tag| + 1, |s|))
  {
    var q := p + |tag|;
    assert s[p] == tag[0];
    assert s[p + 1..q] == s[p..q][1..];
    assert LabelAt(s, p, tag, foldFirst);
    assert s[q + 1] == v[0];
    SkipSpacesUnique(s, q, q + 1);
    CaptureLine(s, q, false);
    forall m | q + 1 <= m < |s| ensures s[m] != '\n' {
      assert s[m] == v[m - q - 1];
    }
    StopEndRun(s, q + 1, false);
  }

  /** When the first place the label occurs is a field that ends the text, `re.search` captures its value. */
  lemma CapturedFieldEnd(s: string, p: nat, tag: string, v: string, foldFirst: bool)
    requires tag != [] && v != [] && IsStripped(v) && forall m | 0 <= m < |v| :: v[m] != '\n'
    requires p + |tag| + 1 + |v| == |s|
    requires s[p..p + |tag|] == tag && s[p + |tag|] == ' ' && s[p + |tag| + 1..] == v
    requires forall j | 0 <= j < p :: !LabelAt(s, j, tag, foldFirst)
    ensures Captured(s, tag, foldFirst, false) == Some(v)
  {
    var f := Found(p, p + |tag| + 1, |s|);
    assert s[f.start..f.end] == v;
    assert CaptureAt(s, p, tag, foldFirst, false) == Some(f) by { CaptureFieldEnd(s, p, tag, v, foldFirst); }
    assert Captured(s, tag, foldFirst, false) == Some(Strip(v)) by { CapturedFirst(s, p, tag, foldFirst, f); }
    StripStripped(v);
  }

  /**
   * The label cannot start anywhere in a line `h + v` when its second
   * character is not in `h`, its tail does not occur in `v`, it holds no line
   * break, and its first character cannot match a line break.
   */
  lemma NoLabelInLine(h: string, v: string, rest: string, tag: string, foldFirst: bool)
    requires |tag| >= 2 && tag[1] !in h && '\n' !in tag && Lower(tag[0]) != '\n'
    requires NoOcc(v, tag[1..])
    ensures forall j | 0 <= j <= |h| + |v| :: !LabelAt(h + v + "\n" + rest, j, tag, foldFirst)
  {
    var s := h + v + "\n" + rest;
    var n := |h| + |v|;
    forall j | 0 <= j <= n ensures !LabelAt(s, j, tag, foldFirst) {
      if j == n {
        assert s[j] == '\n';
      } else if j + |tag| > |s| {
      } else if j + |tag| > n {
        assert s[j + 1..j + |tag|][n - j - 1] == '\n';
      } else if j + 1 < |h| {
        assert s[j + 1..j + |tag|][0] == h[j + 1];
      } else {
        var o := j + 1 - |h|;
        assert s[j + 1..j + |tag|] == v[o..o + |tag| - 1];
        assert !OccursAt(v, o, tag[1..]);
      }
    }
  }
}
