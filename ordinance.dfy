/**
 * main.py, the ordinance reader: `extrair_informacoes`, the loop that
 * tells apart ordinances sharing a number, the sort by number and the
 * writer `salvar_resultados_em_txt`.
 *
 * The number runs from the first non-space character after
 * `PORTARIA\s+N\.?[º°]` (on a later line when the sign ends its own) to
 * the end of that line, stripped; the date
 * is the phrase of `(?:De\s+)?(\d{1,2}\s+de\s+\w+\s+de\s+\d{4})`, returned
 * as written; the excerpt is the text after the date up to its first
 * period. All patterns are matched without regard to case.
 */
module Ordinance {
  import opened Text
  import opened Dates
  import opened Headers
  import opened Capture
  import opened Batch

  // ---------------------------------------------------------------------
  // The number
  // ---------------------------------------------------------------------

  /** The class `[º°]`. */
  predicate IsDegree(c: char) { c == 'º' || c == '°' }

  /**
   * `PORTARIA\s+N\.?[º°]` at `i`: the index just after the sign. The
   * engine takes the dot when there is one; giving it back cannot help,
   * since the sign would then have to be the dot.
   */
  function SignAt(s: string, i: nat): (r: Option<nat>)
    requires i <= |s|
    ensures r.Some? ==> i + 10 < r.value <= |s|
  {
    if !CiAt(s, i, "portaria") then None
    else
      var n := SkipSpaces(s, i + 8);
      if n == i + 8 || n >= |s| || Lower(s[n]) != 'n' then None
      else
        var o := if n + 1 < |s| && s[n + 1] == '.' then n + 2 else n + 1;
        if o < |s| && IsDegree(s[o]) then Some(o + 1) else None
  }

  /** The sign part matches at `i`: "N" at `n`, the dot taken when `dot`, the sign at `o`. */
  predicate SignShape(s: string, i: nat, n: nat, dot: bool, o: nat) {
    && CiAt(s, i, "portaria") && i + 8 < n && SpacesIn(s, i + 8, n)
    && n < |s| && Lower(s[n]) == 'n'
    && o == (if dot then n + 2 else n + 1)
    && o < |s| && (dot ==> s[n + 1] == '.') && IsDegree(s[o])
  }

  /** What `SignAt` finds is a match of the sign part. */
  lemma SignAtSound(s: string, i: nat) returns (n: nat, dot: bool)
    requires i <= |s| && SignAt(s, i).Some?
    ensures SignShape(s, i, n, dot, SignAt(s, i).value - 1)
  {
    n := SkipSpaces(s, i + 8);
    dot := n + 1 < |s| && s[n + 1] == '.';
  }

  /** Every match of the sign part is the one `SignAt` finds. */
  lemma SignAtComplete(s: string, i: nat, n: nat, dot: bool, o: nat)
    requires SignShape(s, i, n, dot, o)
    ensures SignAt(s, i) == Some(o + 1)
  {
    LowerAsciiLetterNotSpace(s[n]);
    SkipSpacesUnique(s, i + 8, n);
  }

  /** The whole number pattern anchored at `i`; the group is `[^\r\n]+`. */
  function NumberAt(s: string, i: nat): (r: Option<Found>)
    requires i <= |s|
    ensures r.Some? ==> r.value.at == i && i + 10 < r.value.start < r.value.end <= |s|
  {
    match SignAt(s, i)
    case None => None
    case Some(p) =>
      match CaptureAfter(s, p, true)
      case None => None
      case Some((k, e)) => Some(Found(i, k, e))
  }

  function NumberTable(s: string): (r: seq<Option<Found>>)
    ensures |r| == |s| + 1 && forall j | 0 <= j <= |s| :: r[j] == NumberAt(s, j)
  {
    seq(|s| + 1, j requires 0 <= j <= |s| => NumberAt(s, j))
  }

  /** `re.search` for the number pattern. */
  function SearchNumber(s: string): (r: Option<Found>)
    ensures r.Some? ==> r.value.at <= |s| && NumberAt(s, r.value.at) == r
  {
    match FirstSome(NumberTable(s), 0)
    case None => None
    case Some(j) => NumberAt(s, j)
  }

  /** `match_portaria.group(1).strip()`, or None. */
  function OrdinanceNumber(s: string): (r: Option<string>)
    ensures r.Some? ==> IsStripped(r.value)
  {
    match SearchNumber(s)
    case None => None
    case Some(f) => Some(Strip(s[f.start..f.end]))
  }

  /** No number is found exactly when the pattern matches nowhere. */
  lemma NumberAbsent(s: string)
    ensures OrdinanceNumber(s).None? <==> forall i | 0 <= i <= |s| :: NumberAt(s, i).None?
  {
    var r := FirstSome(NumberTable(s), 0);
    if OrdinanceNumber(s).None? {
      assert r.None?;
    }
  }

  /**
   * The `\s*` after the sign crosses line breaks: a sign that ends its
   * line takes its number from the next line.
   */
  lemma NumberOnNextLine()
    ensures OrdinanceNumber(SignThenNewline) == Some("12")
  {
    var s := SignThenNewline;
    SignEndsLine();
    GroupOnNextLine();
    assert NumberAt(s, 0) == Some(Found(0, 12, 14));
    assert s[12..14] == "12";
    StripStripped("12");
  }

  /** A sign that ends its line, with the number on the line after it. */
  const SignThenNewline: string := "PORTARIA Nº\n12"

  lemma SignEndsLine()
    ensures SignAt(SignThenNewline, 0) == Some(11)
  {
    var s := SignThenNewline;
    assert CiAt(s, 0, "portaria") by {
      forall k | 0 <= k < 8 ensures Lower(s[k]) == "portaria"[k] {
        assert s[..8] == "PORTARIA";
      }
    }
    assert SpacesIn(s, 8, 9) && Lower(s[9]) == 'n' && IsDegree(s[10]);
    SignAtComplete(s, 0, 9, false, 10);
  }

  lemma GroupOnNextLine()
    ensures CaptureAfter(SignThenNewline, 11, true) == Some((12, 14))
  {
    var s := SignThenNewline;
    assert IsSpace(s[11]) && !IsSpace(s[12]);
    SkipSpacesUnique(s, 11, 12);
    assert LastStart(s, 11, 13, true) == Some(12);
    assert StopEnd(s, 14, true) == 14;
    assert StopEnd(s, 12, true) == 14;
  }

  /**
   * A number that is found comes from the leftmost match of the pattern:
   * after the sign, `\s*` went as far as it could while leaving a character
   * for the group, and the group runs to the end of its line, which is a
   * later line when the sign ends its own. The number is the group,
   * stripped.
   */
  lemma NumberFound(s: string)
    requires OrdinanceNumber(s).Some?
    ensures var f := SearchNumber(s).value;
            var p := SignAt(s, f.at).value;
            && SignAt(s, f.at).Some?
            && (forall j | 0 <= j < f.at :: NumberAt(s, j).None?)
            && ValidStart(s, p, f.start, true) && NoStopIn(s, f.start, f.end, true)
            && (f.end == |s| || IsStop(s[f.end], true))
            && (forall k | f.start < k :: !ValidStart(s, p, k, true))
            && OrdinanceNumber(s) == Some(Strip(s[f.start..f.end]))
  {
    var f := SearchNumber(s).value;
    CaptureSound(s, SignAt(s, f.at).value, true);
  }

  /** The number never spans two lines. */
  lemma NumberOneLine(s: string)
    requires OrdinanceNumber(s).Some?
    ensures forall c | c in OrdinanceNumber(s).value :: c != '\r' && c != '\n'
  {
    var f := SearchNumber(s).value;
    CaptureSound(s, SignAt(s, f.at).value, true);
    StrippedGroupOneLine(s, f.start, f.end, true);
  }

  // ---------------------------------------------------------------------
  // The date
  // ---------------------------------------------------------------------

  /**
   * `(?:De\s+)?(phrase)` anchored at `i`: the engine first tries the
   * prefix, then the phrase alone. The result is the position of the
   * phrase, the group.
   */
  function DateMatchAt(s: string, i: nat): (r: Option<DatePos>)
    requires i <= |s|
    ensures r.Some? ==> i <= r.value.Start() <= |s| && DateAt(s, r.value.Start()) == r
  {
    var prefixed :=
      if DeAt(s, i) then
        var v := SkipSpaces(s, i + 2);
        if v > i + 2 then DateAt(s, v) else None
      else None;
    if prefixed.Some? then prefixed else DateAt(s, i)
  }

  function DateMatchTable(s: string): (r: seq<Option<DatePos>>)
    ensures |r| == |s| + 1 && forall j | 0 <= j <= |s| :: r[j] == DateMatchAt(s, j)
  {
    seq(|s| + 1, j requires 0 <= j <= |s| => DateMatchAt(s, j))
  }

  /** `re.search` for the prefixed date pattern: the phrase of the leftmost match. */
  function SearchDateMatch(s: string): (r: Option<DatePos>)
    ensures r.Some? ==> r.value.Start() <= |s| && DateAt(s, r.value.Start()) == r
  {
    match FirstSome(DateMatchTable(s), 0)
    case None => None
    case Some(j) => DateMatchAt(s, j)
  }

  /** The phrase starts with a digit. */
  lemma DateAtDigit(s: string, j: nat)
    requires j <= |s|
    ensures DateAt(s, j).Some? ==> j < |s| && IsDigit(s[j])
  {
    if DateAt(s, j).Some? {
      var p := DateAt(s, j).value;
      assert IsDigit(s[p.dm.start]);
    }
  }

  /** "De" and the whitespace after it hold no digit. */
  lemma PrefixHasNoDigit(s: string, i: nat, j: nat)
    requires DeAt(s, i) && i <= j < SkipSpaces(s, i + 2)
    ensures !IsDigit(s[j])
  {
    var classes := Lower(s[j]) == 'd' || Lower(s[j]) == 'e' || IsSpace(s[j]);
  }

  /** Between a match position and its phrase there is "De" and whitespace, so no phrase starts there. */
  lemma DateMatchGap(s: string, i: nat)
    requires i <= |s| && DateMatchAt(s, i).Some?
    ensures forall j | i <= j < DateMatchAt(s, i).value.Start() :: DateAt(s, j).None?
  {
    var v := DateMatchAt(s, i).value.Start();
    if i < v {
      assert DeAt(s, i) && v == SkipSpaces(s, i + 2);
      forall j | i <= j < v ensures DateAt(s, j).None? {
        DateAtDigit(s, j);
        PrefixHasNoDigit(s, i, j);
      }
    }
  }

  /** Where the phrase alone matches, the prefixed pattern matches too, at the same phrase. */
  lemma DateMatchAtPhrase(s: string, j: nat)
    requires j <= |s| && DateAt(s, j).Some?
    ensures DateMatchAt(s, j) == DateAt(s, j)
  {
    DateAtDigit(s, j);
  }

  /**
   * The optional "De" prefix never changes which phrase is found: the
   * group of the leftmost match is the leftmost occurrence of the phrase,
   * the one `formatar_data` finds.
   */
  lemma SearchDateMatchSame(s: string)
    ensures SearchDateMatch(s) == SearchDate(s, 0)
  {
    var d := SearchDate(s, 0);
    var r := FirstSome(DateMatchTable(s), 0);
    if d.Some? {
      var j0 := d.value.Start();
      DateMatchAtPhrase(s, j0);
      var i := r.value;
      var v := DateMatchAt(s, i).value.Start();
      DateMatchGap(s, i);
      assert v == j0;
    }
  }

  /** `match_data.group(1).strip()`, or None. */
  function OrdinanceDate(s: string): (r: Option<string>)
  {
    match SearchDateMatch(s)
    case None => None
    case Some(p) => Some(Strip(PhraseText(s, p)))
  }

  /** The phrase begins and ends with a digit, so stripping leaves it as it is. */
  lemma PhraseStripped(s: string, p: DatePos)
    requires DateShape(s, p.Start(), p) && p.End() <= |s|
    ensures Strip(PhraseText(s, p)) == PhraseText(s, p)
  {
    var t := PhraseText(s, p);
    assert t[0] == s[p.Start()] && IsDigit(s[p.dm.start]);
    assert t[|t| - 1] == s[p.End() - 1] && IsDigit(s[p.yr.yearStart + 3]);
    StripStripped(t);
  }

  /**
   * The date is the leftmost date phrase exactly as written, or None when
   * there is none; normalising it gives what `formatar_data` gives for the
   * whole text.
   */
  lemma OrdinanceDateIsPhrase(s: string)
    ensures SearchDate(s, 0).None? ==> OrdinanceDate(s).None?
    ensures SearchDate(s, 0).Some? ==>
              && OrdinanceDate(s) == Some(PhraseText(s, SearchDate(s, 0).value))
              && FormatDate(OrdinanceDate(s).value) == FormatDate(s)
  {
    SearchDateMatchSame(s);
    if SearchDate(s, 0).Some? {
      var p := SearchDate(s, 0).value;
      PhraseStripped(s, p);
      FormatPhraseText(s, p);
    }
  }

  // ---------------------------------------------------------------------
  // The excerpt
  // ---------------------------------------------------------------------

  /** The text after `end`, stripped, and cut just after its first period when it has one. */
  function UpToPeriod(s: string, end: nat): (r: string)
    requires end <= |s|
  {
    PeriodCut(Strip(s[end..]))
  }

  /** `t[:t.find('.') + 1].strip()` when `t` holds a period, `t` itself otherwise. */
  function PeriodCut(t: string): string {
    var k := FindFrom(t, ".", 0);
    if k >= 0 then Strip(t[..k + 1]) else t
  }

  lemma OccursDot(t: string, j: nat)
    requires j < |t|
    ensures OccursAt(t, j, ".") <==> t[j] == '.'
  {
    if t[j] == '.' { assert t[j..j + 1] == "."; }
    if OccursAt(t, j, ".") { assert t[j..j + 1][0] == t[j]; }
  }

  /**
   * The excerpt is stripped. When the stripped rest holds a period, the
   * excerpt is its prefix through the first period: it ends with that
   * period and has no other. Otherwise it is the whole stripped rest.
   */
  lemma UpToPeriodFacts(s: string, end: nat)
    requires end <= |s|
    ensures var after := Strip(s[end..]);
            var r := UpToPeriod(s, end);
            && IsStripped(r)
            && ('.' in after ==> && r != [] && |r| <= |after| && r == after[..|r|] && r[|r| - 1] == '.'
                                 && forall j | 0 <= j < |r| - 1 :: r[j] != '.')
            && ('.' !in after ==> r == after)
  {
    PeriodCutFacts(Strip(s[end..]));
  }

  /** The cut of a stripped text is stripped, and is its prefix through the first period when it has one. */
  lemma PeriodCutFacts(t: string)
    requires IsStripped(t)
    ensures var r := PeriodCut(t);
            && IsStripped(r)
            && ('.' in t ==> && r != [] && |r| <= |t| && r == t[..|r|] && r[|r| - 1] == '.'
                             && forall j | 0 <= j < |r| - 1 :: r[j] != '.')
            && ('.' !in t ==> r == t)
  {
    CutAtPeriod(t);
    var k := FindFrom(t, ".", 0);
    if '.' in t {
      var r := t[..k + 1];
      assert PeriodCut(t) == r;
      assert |r| == k + 1 && r[k] == '.';
      forall j | 0 <= j < |r| - 1 ensures r[j] != '.' {
        assert r[j] == t[j];
      }
    }
  }

  /** The first period of a stripped text, and the stripped prefix through it. */
  lemma CutAtPeriod(t: string)
    requires IsStripped(t)
    ensures var k := FindFrom(t, ".", 0);
            && ('.' in t ==> 0 <= k < |t| && t[k] == '.' && (forall j | 0 <= j < k :: t[j] != '.') && Strip(t[..k + 1]) == t[..k + 1])
            && ('.' !in t ==> k < 0)
  {
    var k := FindFrom(t, ".", 0);
    if k >= 0 {
      OccursDot(t, k);
    }
    if '.' in t {
      var j :| 0 <= j < |t| && t[j] == '.';
      OccursDot(t, j);
      forall i | 0 <= i < k ensures t[i] != '.' {
        OccursDot(t, i);
      }
      var cut := t[..k + 1];
      assert IsStripped(cut) by {
        assert cut[0] == t[0] && cut[k] == '.';
      }
      StripStripped(cut);
    }
  }

  /** The excerpt of `extrair_informacoes`: cut from where the date match ends, or "" without a date. */
  function OrdinanceExcerpt(s: string): (r: string)
    ensures SearchDate(s, 0).None? ==> r == []
  {
    SearchDateMatchSame(s);
    match SearchDateMatch(s)
    case None => []
    case Some(p) => UpToPeriod(s, p.End())
  }

  /** What `extrair_informacoes` returns: number, date as written, excerpt. */
  datatype Extracted = Extracted(number: Option<string>, date: Option<string>, excerpt: string)

  function Extract(s: string): (r: Extracted)
    ensures r.date.None? ==> r.excerpt == []
  {
    OrdinanceDateIsPhrase(s);
    Extracted(OrdinanceNumber(s), OrdinanceDate(s), OrdinanceExcerpt(s))
  }

  /** The excerpt is taken from the end of the leftmost date phrase, the one the date field holds. */
  lemma ExtractExcerpt(s: string)
    requires SearchDate(s, 0).Some?
    ensures Extract(s).excerpt == UpToPeriod(s, SearchDate(s, 0).value.End())
  {
    SearchDateMatchSame(s);
  }

  // ---------------------------------------------------------------------
  // Ordinances that share a number
  // ---------------------------------------------------------------------

  /** `f"{numero}"` for a number that may be None. */
  function Render(n: Option<string>): string {
    match n
    case None => "None"
    case Some(x) => x
  }

  /** `f"{numero}-{count}"`. */
  function Suffixed(n: Option<string>, k: nat): string {
    Render(n) + "-" + NatToString(k)
  }

  /** How often `x` occurs in `xs`. */
  function CountOf(xs: seq<Option<string>>, x: Option<string>): nat
    decreases |xs|
  {
    if xs == [] then 0 else CountOf(xs[..|xs| - 1], x) + (if xs[|xs| - 1] == x then 1 else 0)
  }

  /** Which occurrence of its number the i-th entry is, counting from 1. */
  function Rank(xs: seq<Option<string>>, i: nat): nat
    requires i < |xs|
  {
    CountOf(xs[..i + 1], xs[i])
  }

  /**
   * The number each result ends up with: its own when no other result has
   * it, and otherwise the number suffixed with its rank among those that do.
   */
  function Resolved(xs: seq<Option<string>>): (r: seq<Option<string>>)
    ensures |r| == |xs|
  {
    seq(|xs|, i requires 0 <= i < |xs| =>
      if CountOf(xs, xs[i]) == 1 then xs[i] else Some(Suffixed(xs[i], Rank(xs, i))))
  }

  lemma CountOfAppend(xs: seq<Option<string>>, y: Option<string>, x: Option<string>)
    ensures CountOf(xs + [y], x) == CountOf(xs, x) + (if y == x then 1 else 0)
  {
    assert (xs + [y])[..|xs|] == xs;
  }

  /** Counting in a longer prefix never gives less. */
  lemma {:induction false} CountOfPrefix(xs: seq<Option<string>>, a: nat, b: nat, x: Option<string>)
    requires a <= b <= |xs|
    ensures CountOf(xs[..a], x) <= CountOf(xs[..b], x)
    decreases b - a
  {
    if a < b {
      CountOfPrefix(xs, a, b - 1, x);
      assert xs[..b] == xs[..b - 1] + [xs[b - 1]];
      CountOfAppend(xs[..b - 1], xs[b - 1], x);
    }
  }

  /** The rank of an entry lies between 1 and the number of entries that share its number. */
  lemma RankBounds(xs: seq<Option<string>>, i: nat)
    requires i < |xs|
    ensures 1 <= Rank(xs, i) <= CountOf(xs, xs[i])
  {
    assert xs[..i + 1] == xs[..i] + [xs[i]];
    CountOfAppend(xs[..i], xs[i], xs[i]);
    CountOfPrefix(xs, i + 1, |xs|, xs[i]);
    assert xs[..|xs|] == xs;
  }

  /** A later entry with the same number has a higher rank. */
  lemma RankIncreasing(xs: seq<Option<string>>, i: nat, j: nat)
    requires i < j < |xs| && xs[i] == xs[j]
    ensures Rank(xs, i) < Rank(xs, j)
  {
    assert xs[..j + 1] == xs[..j] + [xs[j]];
    CountOfAppend(xs[..j], xs[j], xs[j]);
    CountOfPrefix(xs, i + 1, j, xs[i]);
  }

  /** Two entries with the same number make its count at least two. */
  lemma CountOfTwo(xs: seq<Option<string>>, i: nat, j: nat)
    requires i < j < |xs| && xs[i] == xs[j]
    ensures CountOf(xs, xs[i]) >= 2
  {
    RankIncreasing(xs, i, j);
    RankBounds(xs, i);
    RankBounds(xs, j);
  }

  /** Different ranks give different suffixed numbers. */
  lemma SuffixedInjective(n: Option<string>, a: nat, b: nat)
    requires Suffixed(n, a) == Suffixed(n, b)
    ensures a == b
  {
    var head := Render(n) + "-";
    assert Suffixed(n, a)[|head|..] == NatToString(a);
    assert Suffixed(n, b)[|head|..] == NatToString(b);
    NatToStringInjective(a, b);
  }

  /**
   * Results that share a number all end up with different numbers: the
   * k-th of them gets the suffix `-k`.
   */
  lemma ResolvedDistinct(xs: seq<Option<string>>, i: nat, j: nat)
    requires i < j < |xs| && xs[i] == xs[j]
    ensures Resolved(xs)[i] == Some(Suffixed(xs[i], Rank(xs, i)))
    ensures Resolved(xs)[j] == Some(Suffixed(xs[j], Rank(xs, j)))
    ensures Resolved(xs)[i] != Resolved(xs)[j]
  {
    CountOfTwo(xs, i, j);
    RankIncreasing(xs, i, j);
    if Resolved(xs)[i] == Resolved(xs)[j] {
      SuffixedInjective(xs[i], Rank(xs, i), Rank(xs, j));
    }
  }

  /**
   * What one more result does to the numbers handed out so far: the new
   * result gets its bare number the first time and `-(c+1)` after `c`
   * earlier ones; an earlier entry changes only when the count reaches two,
   * and then it is the one earlier entry with that number, which becomes
   * `-1`.
   */
  lemma ResolvedStep(xs: seq<Option<string>>, n: Option<string>)
    ensures var ys := xs + [n];
            var c := CountOf(xs, n);
            && Resolved(ys)[|xs|] == (if c == 0 then n else Some(Suffixed(n, c + 1)))
            && forall j | 0 <= j < |xs| ::
                 Resolved(ys)[j] == (if xs[j] == n && c == 1 then Some(Suffixed(n, 1)) else Resolved(xs)[j])
  {
    ResolvedStepLast(xs, n);
    forall j | 0 <= j < |xs|
      ensures Resolved(xs + [n])[j] == (if xs[j] == n && CountOf(xs, n) == 1 then Some(Suffixed(n, 1)) else Resolved(xs)[j])
    {
      ResolvedStepAt(xs, n, j);
    }
  }

  lemma ResolvedStepLast(xs: seq<Option<string>>, n: Option<string>)
    ensures var c := CountOf(xs, n);
            Resolved(xs + [n])[|xs|] == (if c == 0 then n else Some(Suffixed(n, c + 1)))
  {
    var ys := xs + [n];
    assert ys[..|xs| + 1] == ys;
    CountOfAppend(xs, n, n);
    assert Rank(ys, |xs|) == CountOf(xs, n) + 1;
  }

  lemma ResolvedStepAt(xs: seq<Option<string>>, n: Option<string>, j: nat)
    requires j < |xs|
    ensures var c := CountOf(xs, n);
            Resolved(xs + [n])[j] == (if xs[j] == n && c == 1 then Some(Suffixed(n, 1)) else Resolved(xs)[j])
  {
    var ys := xs + [n];
    var x := xs[j];
    var cx := CountOf(xs, x);
    var rank := Rank(xs, j);
    CountOfAppend(xs, n, x);
    assert Rank(ys, j) == rank by { assert ys[..j + 1] == xs[..j + 1]; }
    RankBounds(xs, j);
    assert Resolved(xs)[j] == if cx == 1 then x else Some(Suffixed(x, rank));
    if x == n {
      assert Resolved(ys)[j] == Some(Suffixed(x, rank));
    } else {
      assert Resolved(ys)[j] == Resolved(xs)[j];
    }
  }

  /** One entry of `ocr_results`: the file, its OCR text, and the fields the loop fills in. */
  datatype OcrResult = OcrResult(filename: string, text: string, number: Option<string>, date: Option<string>, excerpt: string)

  /** The numbers `extract` finds in each result's text. */
  function Numbers(rs: seq<OcrResult>, extract: string -> Extracted): (r: seq<Option<string>>)
    ensures |r| == |rs| && forall i {:trigger r[i]} | 0 <= i < |rs| :: r[i] == extract(rs[i].text).number
  {
    seq(|rs|, i requires 0 <= i < |rs| => extract(rs[i].text).number)
  }

  /** A result with its fields filled in from its own text, the number replaced by `tag`. */
  function Filled(r: OcrResult, x: Extracted, tag: Option<string>): OcrResult {
    r.(number := tag, date := x.date, excerpt := x.excerpt)
  }

  /** `ocr_results` after the loop, `extract` standing for `extrair_informacoes`. */
  function Annotated(rs: seq<OcrResult>, extract: string -> Extracted): (r: seq<OcrResult>)
    ensures |r| == |rs|
  {
    var labels := Resolved(Numbers(rs, extract));
    seq(|rs|, i requires 0 <= i < |rs| => Filled(rs[i], extract(rs[i].text), labels[i]))
  }

  /** The bookkeeping of the loop: `counts` holds how often each number has come, `first` where it came first. */
  ghost predicate Counted(counts: map<Option<string>, nat>, first: map<Option<string>, nat>, xs: seq<Option<string>>) {
    && (forall x | x in counts :: counts[x] == CountOf(xs, x) && x in first && first[x] < |xs| && xs[first[x]] == x)
    && (forall x | x !in counts :: CountOf(xs, x) == 0)
  }

  lemma CountedSeen(counts: map<Option<string>, nat>, first: map<Option<string>, nat>, xs: seq<Option<string>>, n: Option<string>)
    requires Counted(counts, first, xs) && n in counts
    ensures Counted(counts[n := counts[n] + 1], first, xs + [n])
  {
    forall x ensures CountOf(xs + [n], x) == CountOf(xs, x) + (if n == x then 1 else 0) {
      CountOfAppend(xs, n, x);
    }
  }

  lemma CountedNew(counts: map<Option<string>, nat>, first: map<Option<string>, nat>, xs: seq<Option<string>>, n: Option<string>)
    requires Counted(counts, first, xs) && n !in counts
    ensures Counted(counts[n := 1], first[n := |xs|], xs + [n])
  {
    forall x ensures CountOf(xs + [n], x) == CountOf(xs, x) + (if n == x then 1 else 0) {
      CountOfAppend(xs, n, x);
    }
  }

  lemma TakeNext<T>(s: seq<T>, i: nat)
    requires i < |s|
    ensures s[..i + 1] == s[..i] + [s[i]]
  {
  }

  /** A number is counted only when it occurs. */
  lemma {:induction false} CountOfPositive(xs: seq<Option<string>>, x: Option<string>)
    ensures CountOf(xs, x) > 0 <==> x in xs
    decreases |xs|
  {
    if xs != [] {
      var init := xs[..|xs| - 1];
      CountOfPositive(init, x);
      assert xs == init + [xs[|xs| - 1]];
    }
  }

  /** Where `x` first occurs in `xs`, or |xs| when it does not. */
  function IndexOf(xs: seq<Option<string>>, x: Option<string>): (r: nat)
    ensures r <= |xs| && (r < |xs| <==> x in xs)
    ensures r < |xs| ==> xs[r] == x && forall j | 0 <= j < r :: xs[j] != x
    decreases |xs|
  {
    if xs == [] then 0
    else if xs[0] == x then 0
    else
      var k := IndexOf(xs[1..], x);
      assert forall j | 0 < j <= k :: xs[j] == xs[1..][j - 1];
      k + 1
  }

  /** A number that occurs once occurs only where it was seen. */
  lemma IndexOfOnce(xs: seq<Option<string>>, f: nat)
    requires f < |xs| && CountOf(xs, xs[f]) == 1
    ensures IndexOf(xs, xs[f]) == f
  {
    var g := IndexOf(xs, xs[f]);
    if g < f {
      CountOfTwo(xs, g, f);
    }
  }

  /**
   * One turn of the loop on entry i = |xs|, xs being the numbers of the
   * entries before it and x what was extracted from its text: the entry
   * gets its number n, or `n-(c+1)` when n came c times before, and when c
   * is 1 the entry that had n first is rewritten to `n-1`.
   */
  function Turn(cur: seq<OcrResult>, xs: seq<Option<string>>, x: Extracted): (r: seq<OcrResult>)
    requires |xs| < |cur|
    ensures |r| == |cur|
  {
    var i := |xs|;
    var n := x.number;
    var c := CountOf(xs, n);
    var f := IndexOf(xs, n);
    var mid := if c == 1 && f < i then cur[f := cur[f].(number := Some(Suffixed(n, 1)))] else cur;
    mid[i := Filled(cur[i], x, if c == 0 then n else Some(Suffixed(n, c + 1)))]
  }

  /**
   * A turn gives the new entry and the entries before it the numbers
   * `Resolved` gives them once the new number is counted, and leaves the
   * entries after it alone.
   */
  lemma TurnAt(cur: seq<OcrResult>, xs: seq<Option<string>>, x: Extracted, j: nat)
    requires |xs| < |cur| && j < |cur|
    requires j < |xs| ==> cur[j].number == Resolved(xs)[j]
    ensures var ys := xs + [x.number];
            Turn(cur, xs, x)[j] ==
              if j == |xs| then Filled(cur[j], x, Resolved(ys)[j])
              else if j < |xs| then cur[j].(number := Resolved(ys)[j])
              else cur[j]
  {
    var n := x.number;
    if j < |xs| {
      ResolvedStepAt(xs, n, j);
      if CountOf(xs, n) == 1 && xs[j] == n {
        IndexOfOnce(xs, j);
      }
    } else if j == |xs| {
      ResolvedStepLast(xs, n);
    }
  }

  /** A turn as two updates, `f` being any entry before i that holds n when n came exactly once. */
  lemma TurnUpdate(cur: seq<OcrResult>, xs: seq<Option<string>>, x: Extracted, f: nat)
    requires |xs| < |cur|
    requires CountOf(xs, x.number) == 1 ==> f < |xs| && xs[f] == x.number
    ensures var n := x.number;
            var c := CountOf(xs, n);
            var mid := if c == 1 then cur[f := cur[f].(number := Some(Suffixed(n, 1)))] else cur;
            Turn(cur, xs, x) == mid[|xs| := Filled(cur[|xs|], x, if c == 0 then n else Some(Suffixed(n, c + 1)))]
  {
    if CountOf(xs, x.number) == 1 {
      IndexOfOnce(xs, f);
    }
  }

  /** `ocr_results` after `idx` turns of the loop. */
  ghost function Trace(rs: seq<OcrResult>, extract: string -> Extracted, idx: nat): (r: seq<OcrResult>)
    requires idx <= |rs|
    ensures |r| == |rs|
    decreases idx
  {
    if idx == 0 then rs
    else Turn(Trace(rs, extract, idx - 1), Numbers(rs, extract)[..idx - 1], extract(rs[idx - 1].text))
  }

  /** Entry `j` of `ocr_results` once the first `idx` entries have been annotated. */
  ghost function Entry(rs: seq<OcrResult>, extract: string -> Extracted, idx: nat, j: nat): OcrResult
    requires idx <= |rs| && j < |rs|
  {
    if j < idx then Filled(rs[j], extract(rs[j].text), Resolved(Numbers(rs, extract)[..idx])[j]) else rs[j]
  }

  /** Turn by turn, each annotated entry holds the number `Resolved` gives it among the entries seen so far. */
  lemma {:induction false} TraceAt(rs: seq<OcrResult>, extract: string -> Extracted, idx: nat, j: nat)
    requires idx <= |rs| && j < |rs|
    ensures Trace(rs, extract, idx)[j] == Entry(rs, extract, idx, j)
    decreases idx
  {
    if idx > 0 {
      var i := idx - 1;
      var nums := Numbers(rs, extract);
      var xs := nums[..i];
      var cur := Trace(rs, extract, i);
      TraceAt(rs, extract, i, j);
      TraceAt(rs, extract, i, i);
      TurnAt(cur, xs, extract(rs[i].text), j);
      TakeNext(nums, i);
    }
  }

  /** After a turn on every entry, `ocr_results` is annotated as a whole. */
  lemma TraceEnds(rs: seq<OcrResult>, extract: string -> Extracted)
    ensures Trace(rs, extract, |rs|) == Annotated(rs, extract)
  {
    var nums := Numbers(rs, extract);
    assert nums[..|rs|] == nums;
    forall j | 0 <= j < |rs| ensures Trace(rs, extract, |rs|)[j] == Annotated(rs, extract)[j] {
      TraceAt(rs, extract, |rs|, j);
    }
  }

  /**
   * The body of the loop of the main script for entry `idx`, x being what
   * `extrair_informacoes` found in its text. `counts` holds how often each
   * number has come and `first` where it came first; when a number comes
   * back for the second time, the entry at `first` is rewritten with the
   * suffix "-1".
   */
  method TakeTurn(results: array<OcrResult>, idx: nat, x: Extracted, counts: map<Option<string>, nat>,
                  first: map<Option<string>, nat>, ghost xs: seq<Option<string>>)
    returns (counts': map<Option<string>, nat>, first': map<Option<string>, nat>)
    requires idx == |xs| < results.Length && Counted(counts, first, xs)
    modifies results
    ensures results[..] == Turn(old(results[..]), xs, x)
    ensures Counted(counts', first', xs + [x.number])
  {
    ghost var cur := results[..];
    var n := x.number;
    ghost var c := CountOf(xs, n);
    ghost var f: nat := 0;
    if n in counts {
      assert counts[n] == c && xs[first[n]] == n;
      CountOfPositive(xs, n);
      CountedSeen(counts, first, xs, n);
      var count := counts[n] + 1;
      counts', first' := counts[n := count], first;
      if count == 2 {
        var earlier := first[n];
        f := earlier;
        results[earlier] := results[earlier].(number := Some(Suffixed(n, 1)));
      }
      n := Some(Suffixed(n, count));
    } else {
      CountedNew(counts, first, xs, n);
      counts', first' := counts[n := 1], first[n := idx];
    }
    TurnUpdate(cur, xs, x, f);
    ghost var mid := if c == 1 then cur[f := cur[f].(number := Some(Suffixed(x.number, 1)))] else cur;
    assert results[..] == mid && n == if c == 0 then x.number else Some(Suffixed(x.number, c + 1));
    results[idx] := results[idx].(number := n, date := x.date, excerpt := x.excerpt);
  }

  /** The loop of the main script over `ocr_results`, in place; `extract` stands for `extrair_informacoes`. */
  method Annotate(results: array<OcrResult>, extract: string -> Extracted)
    modifies results
    ensures results[..] == Annotated(old(results[..]), extract)
  {
    ghost var rs := results[..];
    ghost var nums := Numbers(rs, extract);
    var counts: map<Option<string>, nat> := map[];
    var first: map<Option<string>, nat> := map[];
    for idx := 0 to results.Length
      invariant Counted(counts, first, nums[..idx])
      invariant results[..] == Trace(rs, extract, idx)
    {
      TraceAt(rs, extract, idx, idx);
      TakeNext(nums, idx);
      var x := extract(results[idx].text);
      counts, first := TakeTurn(results, idx, x, counts, first, nums[..idx]);
    }
    TraceEnds(rs, extract);
  }

  // ---------------------------------------------------------------------
  // sorted(ocr_results, key=lambda x: x.get('numero_portaria') or "")
  // ---------------------------------------------------------------------

  /** The sort key: the number, or "" when there is none. */
  function Key(r: OcrResult): string {
    if r.number.None? then "" else r.number.value
  }

  /** Ordered by key under Python's string ordering. */
  ghost predicate SortedByKey(ys: seq<OcrResult>) {
    forall i, j | 0 <= i < j < |ys| :: LexLe(Key(ys[i]), Key(ys[j]))
  }

  /** Stable insertion of `x`, which comes after every element of `ys` in the input: after all keys not above its own. */
  function Insert(x: OcrResult, ys: seq<OcrResult>): (r: seq<OcrResult>)
    ensures |r| == |ys| + 1
    decreases |ys|
  {
    if ys == [] then [x]
    else if LexLe(Key(ys[0]), Key(x)) then [ys[0]] + Insert(x, ys[1..])
    else [x] + ys
  }

  /** Python's `sorted` with that key: a stable sort. */
  function SortByKey(xs: seq<OcrResult>): (r: seq<OcrResult>)
    ensures |r| == |xs|
    decreases |xs|
  {
    if xs == [] then [] else Insert(xs[|xs| - 1], SortByKey(xs[..|xs| - 1]))
  }

  /** The entries with key `k`, in order. */
  function WithKey(ys: seq<OcrResult>, k: string): seq<OcrResult>
    decreases |ys|
  {
    if ys == [] then [] else (if Key(ys[0]) == k then [ys[0]] else []) + WithKey(ys[1..], k)
  }

  lemma {:induction false} WithKeyAppend(a: seq<OcrResult>, b: seq<OcrResult>, k: string)
    ensures WithKey(a + b, k) == WithKey(a, k) + WithKey(b, k)
    decreases |a|
  {
    if a == [] {
      assert a + b == b;
    } else {
      var head := if Key(a[0]) == k then [a[0]] else [];
      assert (a + b)[0] == a[0] && (a + b)[1..] == a[1..] + b;
      WithKeyAppend(a[1..], b, k);
      assert WithKey(a + b, k) == head + (WithKey(a[1..], k) + WithKey(b, k));
    }
  }

  /** Inserting adds exactly `x`. */
  lemma {:induction false} InsertPermutes(x: OcrResult, ys: seq<OcrResult>)
    ensures multiset(Insert(x, ys)) == multiset(ys) + multiset{x}
    decreases |ys|
  {
    if ys != [] && LexLe(Key(ys[0]), Key(x)) {
      InsertPermutes(x, ys[1..]);
      assert ys == [ys[0]] + ys[1..];
    }
  }

  lemma TailSorted(ys: seq<OcrResult>)
    requires SortedByKey(ys) && ys != []
    ensures SortedByKey(ys[1..])
    ensures forall i | 0 <= i < |ys[1..]| :: LexLe(Key(ys[0]), Key(ys[1..][i]))
  {
    var tail := ys[1..];
    forall i, j | 0 <= i < j < |tail| ensures LexLe(Key(tail[i]), Key(tail[j])) {
      assert tail[i] == ys[i + 1] && tail[j] == ys[j + 1];
    }
    forall i | 0 <= i < |tail| ensures LexLe(Key(ys[0]), Key(tail[i])) {
      assert tail[i] == ys[i + 1];
    }
  }

  /** Inserting into a sorted list keeps it sorted. */
  lemma {:induction false} InsertSorted(x: OcrResult, ys: seq<OcrResult>)
    requires SortedByKey(ys)
    ensures SortedByKey(Insert(x, ys))
    decreases |ys|
  {
    if ys == [] {
    } else if LexLe(Key(ys[0]), Key(x)) {
      var tail := ys[1..];
      TailSorted(ys);
      InsertSorted(x, tail);
      InsertPermutes(x, tail);
      var rest := Insert(x, tail);
      forall m | 0 <= m < |rest| ensures LexLe(Key(ys[0]), Key(rest[m])) {
        InsertedBound(x, tail, ys[0], m);
      }
      ConsSorted(ys[0], rest);
    } else {
      forall m | 0 <= m < |ys| ensures LexLe(Key(x), Key(ys[m])) {
        LexLeTotal(Key(x), Key(ys[0]));
        if m > 0 {
          LexLeTransitive(Key(x), Key(ys[0]), Key(ys[m]));
        }
      }
      ConsSorted(x, ys);
    }
  }

  /** A sorted list stays sorted under a head whose key is not above any of its keys. */
  lemma ConsSorted(h: OcrResult, rest: seq<OcrResult>)
    requires SortedByKey(rest) && forall m | 0 <= m < |rest| :: LexLe(Key(h), Key(rest[m]))
    ensures SortedByKey([h] + rest)
  {
    var r := [h] + rest;
    forall i, j | 0 <= i < j < |r| ensures LexLe(Key(r[i]), Key(r[j])) {
      assert r[j] == rest[j - 1];
      if i > 0 {
        assert r[i] == rest[i - 1];
      }
    }
  }

  /** Inserting into a sorted list puts `x` after every entry with its key. */
  lemma {:induction false} InsertWithKey(x: OcrResult, ys: seq<OcrResult>, k: string)
    requires SortedByKey(ys)
    ensures WithKey(Insert(x, ys), k) == WithKey(ys, k) + WithKey([x], k)
    decreases |ys|
  {
    if ys == [] {
      assert Insert(x, ys) == [x];
      assert WithKey(ys, k) == [];
    } else if LexLe(Key(ys[0]), Key(x)) {
      var tail := ys[1..];
      assert SortedByKey(tail) by {
        TailSorted(ys);
      }
      InsertWithKey(x, tail, k);
      InsertWithKeyStep(x, ys, k);
    } else {
      InsertWithKeyFront(x, ys, k);
    }
  }

  /** The step of `InsertWithKey` past an entry that sorts before `x`. */
  lemma InsertWithKeyStep(x: OcrResult, ys: seq<OcrResult>, k: string)
    requires ys != [] && LexLe(Key(ys[0]), Key(x))
    requires WithKey(Insert(x, ys[1..]), k) == WithKey(ys[1..], k) + WithKey([x], k)
    ensures WithKey(Insert(x, ys), k) == WithKey(ys, k) + WithKey([x], k)
  {
    var tail, h := ys[1..], [ys[0]];
    assert Insert(x, ys) == h + Insert(x, tail);
    assert ys == h + tail;
    WithKeyAppend(h, Insert(x, tail), k);
    WithKeyAppend(h, tail, k);
    AppendAssoc(WithKey(h, k), WithKey(tail, k), WithKey([x], k));
  }

  /** `x` goes in front of a sorted list whose first key is above its own. */
  lemma InsertWithKeyFront(x: OcrResult, ys: seq<OcrResult>, k: string)
    requires SortedByKey(ys) && ys != [] && !LexLe(Key(ys[0]), Key(x))
    ensures WithKey(Insert(x, ys), k) == WithKey(ys, k) + WithKey([x], k)
  {
    assert Insert(x, ys) == [x] + ys;
    WithKeyAppend([x], ys, k);
    if Key(x) == k {
      AboveHasNoKey(ys, k);
    } else {
      assert WithKey([x], k) == [] by {
        assert [x][1..] == [];
      }
    }
  }

  /** Every entry of `Insert(x, tail)` has a key not below `b`'s when `b` sorts before `x` and before all of `tail`. */
  lemma InsertedBound(x: OcrResult, tail: seq<OcrResult>, b: OcrResult, m: nat)
    requires LexLe(Key(b), Key(x)) && forall i | 0 <= i < |tail| :: LexLe(Key(b), Key(tail[i]))
    requires m < |Insert(x, tail)| && multiset(Insert(x, tail)) == multiset(tail) + multiset{x}
    ensures LexLe(Key(b), Key(Insert(x, tail)[m]))
  {
    var e := Insert(x, tail)[m];
    assert e in multiset(Insert(x, tail));
    if e != x {
      assert e in multiset(tail);
      var i :| 0 <= i < |tail| && tail[i] == e;
    }
  }

  /** A sorted list whose first key is above `k` has no entry with key `k`. */
  lemma AboveHasNoKey(ys: seq<OcrResult>, k: string)
    requires SortedByKey(ys) && ys != [] && !LexLe(Key(ys[0]), k)
    ensures WithKey(ys, k) == []
  {
    forall i | 0 <= i < |ys| ensures Key(ys[i]) != k {
      LexLeTotal(Key(ys[i]), Key(ys[i]));
    }
    NoKeyEmpty(ys, k);
  }

  lemma {:induction false} NoKeyEmpty(ys: seq<OcrResult>, k: string)
    requires forall i | 0 <= i < |ys| :: Key(ys[i]) != k
    ensures WithKey(ys, k) == []
    decreases |ys|
  {
    if ys != [] {
      NoKeyEmpty(ys[1..], k);
    }
  }

  /**
   * `sorted` returns the entries ordered by key, as a permutation of its
   * input, and keeps the input order among entries with equal keys.
   */
  lemma {:induction false} SortByKeyFacts(xs: seq<OcrResult>)
    ensures SortedByKey(SortByKey(xs))
    ensures multiset(SortByKey(xs)) == multiset(xs)
    ensures forall k :: WithKey(SortByKey(xs), k) == WithKey(xs, k)
    decreases |xs|
  {
    if xs != [] {
      var init := xs[..|xs| - 1];
      var x := xs[|xs| - 1];
      SortByKeyFacts(init);
      InsertSorted(x, SortByKey(init));
      InsertPermutes(x, SortByKey(init));
      assert xs == init + [x];
      forall k ensures WithKey(SortByKey(xs), k) == WithKey(xs, k) {
        InsertWithKey(x, SortByKey(init), k);
        WithKeyAppend(init, [x], k);
      }
    }
  }

  // ---------------------------------------------------------------------
  // salvar_resultados_em_txt and the script
  // ---------------------------------------------------------------------

  const OrdinanceNumberLabel: string := "Número da Portaria: "
  const OrdinanceDateLabel: string := "Data da Portaria: "

  /** One record as the writer of main.py lays it out: the delimiter, three labelled lines, a blank line, the excerpt, a blank line. */
  function RecordText(r: OcrResult): string {
    Delimiter() + "\n" + "Arquivo: " + r.filename + "\n" + OrdinanceNumberLabel + Render(r.number) + "\n"
    + OrdinanceDateLabel + Render(r.date) + "\n" + "\n" + r.excerpt + "\n\n"
  }

  /** The file contents the writer produces, record by record in list order. */
  function RecordsText(rs: seq<OcrResult>): string {
    Concat(rs, RecordText)
  }

  /** The writer's loop. */
  method WriteRecords(rs: seq<OcrResult>) returns (out: string)
    ensures out == RecordsText(rs)
  {
    out := "";
    for i := 0 to |rs|
      invariant out == RecordsText(rs[..i])
    {
      assert rs[..i + 1][..i] == rs[..i];
      out := out + RecordText(rs[i]);
    }
    assert rs[..|rs|] == rs;
  }

  /**
   * The script after OCR: every result annotated in place, then sorted by
   * number, then written out; `extract` stands for `extrair_informacoes`.
   */
  method ProcessOrdinances(results: array<OcrResult>, extract: string -> Extracted) returns (out: string)
    modifies results
    ensures results[..] == Annotated(old(results[..]), extract)
    ensures out == RecordsText(SortByKey(Annotated(old(results[..]), extract)))
  {
    Annotate(results, extract);
    out := WriteRecords(SortByKey(results[..]));
  }
}
