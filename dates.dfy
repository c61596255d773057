/**
 * The date normaliser `formatar_data` (decreto.py and lei_complementar.py)
 * and the date phrase it looks for, `(\d{1,2})\s+de\s+(\w+)\s+de\s+(\d{4})`
 * matched without regard to case.
 *
 * The phrase is recognised by a hand-written scanner. Every quantifier of the
 * pattern is followed by something its own characters cannot start, so a
 * match has exactly one way of splitting into groups: the scanner is proved
 * to return a match exactly when the declarative shape holds, and that the
 * shape fixes every group boundary.
 */
module Dates {
  import opened Text

  /** The value both normalisers return for a missing or unreadable date. */
  const Sentinel: IsoDate := "0000-00-00"

  /** The twelve month names of the `meses` table, in calendar order. */
  const MonthNames: seq<string> := ["janeiro", "fevereiro", "março", "abril", "maio", "junho",
                                    "julho", "agosto", "setembro", "outubro", "novembro", "dezembro"]

  /** The month number a lower-case month name stands for. */
  function MonthNumber(name: string): (r: Option<nat>)
    ensures r.Some? ==> 1 <= r.value <= 12
  {
    if name == "janeiro" then Some(1)
    else if name == "fevereiro" then Some(2)
    else if name == "março" then Some(3)
    else if name == "abril" then Some(4)
    else if name == "maio" then Some(5)
    else if name == "junho" then Some(6)
    else if name == "julho" then Some(7)
    else if name == "agosto" then Some(8)
    else if name == "setembro" then Some(9)
    else if name == "outubro" then Some(10)
    else if name == "novembro" then Some(11)
    else if name == "dezembro" then Some(12)
    else None
  }

  /** The table maps the k-th month name to k, and nothing else to a month. */
  lemma MonthTableBijective(name: string)
    ensures forall k | 0 <= k < 12 :: MonthNumber(MonthNames[k]) == Some(k + 1)
    ensures MonthNumber(name).Some? ==> MonthNames[MonthNumber(name).value - 1] == name
  {
  }

  /** A word of lower-case letters is its own lower case and a `\w+` run. */
  lemma LowerCaseWord(n: string)
    requires forall i | 0 <= i < |n| :: 'a' <= n[i] <= 'z' || n[i] == 'ç'
    ensures LowerString(n) == n
    ensures forall i | 0 <= i < |n| :: IsWordChar(n[i])
  {
  }

  /** Each name of the table is a lower-case `\w+` word. */
  lemma MonthNameFacts(k: nat)
    requires k < 12
    ensures LowerString(MonthNames[k]) == MonthNames[k]
    ensures MonthNames[k] != [] && forall i | 0 <= i < |MonthNames[k]| :: IsWordChar(MonthNames[k][i])
  {
    LowerCaseWord(MonthNames[k]);
  }

  function TwoDigits(n: nat): (r: string)
    requires n < 100
    ensures |r| == 2 && AllDigits(r)
  {
    [DigitChar(n / 10), DigitChar(n % 10)]
  }

  /** `meses.get(name, "00")`. */
  function MonthCode(name: string): (r: string)
    ensures |r| == 2 && AllDigits(r)
    ensures MonthNumber(name).None? <==> r == "00"
  {
    match MonthNumber(name)
    case Some(m) => TwoDigits(m)
    case None => "00"
  }

  /** `dia.zfill(2)` for a day of one or two digits. */
  function ZFill2(d: string): (r: string)
    requires 1 <= |d| <= 2
    ensures |r| == 2 && r[2 - |d|..] == d
    ensures |d| == 1 ==> r[0] == '0'
    ensures AllDigits(d) ==> AllDigits(r)
  {
    if |d| == 1 then "0" + d else d
  }

  lemma ZFill2OfNat(d: nat)
    requires d < 100
    ensures 1 <= |NatToString(d)| <= 2 && ZFill2(NatToString(d)) == TwoDigits(d)
  {
    if d < 10 {
      assert NatToString(d) == [DigitChar(d)];
      assert d / 10 == 0 && d % 10 == d;
      assert ZFill2([DigitChar(d)]) == "0" + [DigitChar(d)];
    } else {
      var hi, lo := d / 10, d % 10;
      assert hi < 10;
      assert NatToString(hi) == [DigitChar(hi)];
      assert NatToString(d) == [DigitChar(hi)] + [DigitChar(lo)];
    }
  }

  // ---------------------------------------------------------------------
  // Matching helpers
  // ---------------------------------------------------------------------

  predicate SpacesIn(s: string, i: nat, j: nat) {
    i <= j <= |s| && forall k {:trigger IsSpace(s[k])} | i <= k < j :: IsSpace(s[k])
  }

  predicate DigitsIn(s: string, i: nat, j: nat) {
    i <= j <= |s| && forall k {:trigger IsDigit(s[k])} | i <= k < j :: IsDigit(s[k])
  }

  predicate WordCharsIn(s: string, i: nat, j: nat) {
    i <= j <= |s| && forall k {:trigger IsWordChar(s[k])} | i <= k < j :: IsWordChar(s[k])
  }

  /** "de" occurs at `i` in any mix of case (`re.IGNORECASE`). */
  predicate DeAt(s: string, i: nat) {
    i + 2 <= |s| && Lower(s[i]) == 'd' && Lower(s[i + 1]) == 'e'
  }

  /** The end of the maximal run of `\w` characters from `i`. */
  function SkipWord(s: string, i: nat): (j: nat)
    requires i <= |s|
    ensures WordCharsIn(s, i, j)
    ensures j == |s| || !IsWordChar(s[j])
    decreases |s| - i
  {
    if i < |s| && IsWordChar(s[i]) then SkipWord(s, i + 1) else i
  }

  lemma SkipSpacesUnique(s: string, i: nat, j: nat)
    requires SpacesIn(s, i, j) && (j == |s| || !IsSpace(s[j]))
    ensures SkipSpaces(s, i) == j
  {
  }

  lemma SkipWordUnique(s: string, i: nat, j: nat)
    requires WordCharsIn(s, i, j) && (j == |s| || !IsWordChar(s[j]))
    ensures SkipWord(s, i) == j
  {
  }

  lemma DeNotSpace(s: string, i: nat)
    requires DeAt(s, i)
    ensures !IsSpace(s[i]) && !IsDigit(s[i])
  {
  }

  lemma WordCharNotSpace(c: char)
    requires IsWordChar(c)
    ensures !IsSpace(c)
  {
  }

  // ---------------------------------------------------------------------
  // The date phrase
  // ---------------------------------------------------------------------

  /** Boundaries of `\d{1,2}\s+de\s+\w+`: the day is s[start..dayEnd], "de" sits at de1, the month word is s[monthStart..monthEnd]. */
  datatype DayMonthPos = DayMonthPos(start: nat, dayEnd: nat, de1: nat, monthStart: nat, monthEnd: nat)

  /** Boundaries of `\s+de\s+\d{4}`: "de" sits at de2, the year is s[yearStart..yearStart + 4]. */
  datatype YearPos = YearPos(de2: nat, yearStart: nat)

  datatype DatePos = DatePos(dm: DayMonthPos, yr: YearPos) {
    function Start(): nat { dm.start }
    function End(): nat { yr.yearStart + 4 }
  }

  /**
   * `\d{1,2}\s+de\s+\w+` matches at `i` with these boundaries; the word run
   * is maximal, as a greedy `\w+` leaves it (in the full phrase the
   * whitespace that follows already forces this).
   */
  predicate DayMonthShape(s: string, i: nat, p: DayMonthPos) {
    && p.start == i && i < p.dayEnd <= i + 2 && DigitsIn(s, i, p.dayEnd)
    && p.dayEnd < p.de1 && SpacesIn(s, p.dayEnd, p.de1)
    && DeAt(s, p.de1)
    && p.de1 + 2 < p.monthStart && SpacesIn(s, p.de1 + 2, p.monthStart)
    && p.monthStart < p.monthEnd && WordCharsIn(s, p.monthStart, p.monthEnd)
    && (p.monthEnd == |s| || !IsWordChar(s[p.monthEnd]))
  }

  /** `\s+de\s+\d{4}` matches at `j` with these boundaries. */
  predicate YearShape(s: string, j: nat, y: YearPos) {
    && j < y.de2 && SpacesIn(s, j, y.de2)
    && DeAt(s, y.de2)
    && y.de2 + 2 < y.yearStart && SpacesIn(s, y.de2 + 2, y.yearStart)
    && DigitsIn(s, y.yearStart, y.yearStart + 4)
  }

  /** The whole date phrase matches at `i` with these boundaries. */
  predicate DateShape(s: string, i: nat, p: DatePos) {
    DayMonthShape(s, i, p.dm) && YearShape(s, p.dm.monthEnd, p.yr)
  }

  /** Scanner for `\d{1,2}\s+de\s+\w+` anchored at `i`. */
  function DayMonthAt(s: string, i: nat): (r: Option<DayMonthPos>)
    requires i <= |s|
    ensures r.Some? ==> DayMonthShape(s, i, r.value)
  {
    if i < |s| && IsDigit(s[i]) then
      var dayEnd := if i + 1 < |s| && IsDigit(s[i + 1]) then i + 2 else i + 1;
      var de1 := SkipSpaces(s, dayEnd);
      if de1 == dayEnd || !DeAt(s, de1) then None
      else
        var ms := SkipSpaces(s, de1 + 2);
        if ms == de1 + 2 then None
        else
          var me := SkipWord(s, ms);
          if me == ms then None
          else Some(DayMonthPos(i, dayEnd, de1, ms, me))
    else None
  }

  /** Any match of `\d{1,2}\s+de\s+\w+` at `i` is the one the scanner finds. */
  lemma DayMonthComplete(s: string, i: nat, p: DayMonthPos)
    requires DayMonthShape(s, i, p)
    ensures DayMonthAt(s, i) == Some(p)
  {
    assert IsSpace(s[p.dayEnd]);
    DeNotSpace(s, p.de1);
    SkipSpacesUnique(s, p.dayEnd, p.de1);
    WordCharNotSpace(s[p.monthStart]);
    SkipSpacesUnique(s, p.de1 + 2, p.monthStart);
    SkipWordUnique(s, p.monthStart, p.monthEnd);
  }

  /** Scanner for `\s+de\s+\d{4}` anchored at `j`. */
  function YearTailAt(s: string, j: nat): (r: Option<YearPos>)
    requires j <= |s|
    ensures r.Some? ==> YearShape(s, j, r.value)
  {
    var de2 := SkipSpaces(s, j);
    if de2 > j && DeAt(s, de2) then
      var ys := SkipSpaces(s, de2 + 2);
      if ys > de2 + 2 && DigitsIn(s, ys, ys + 4) then Some(YearPos(de2, ys)) else None
    else None
  }

  /** Any match of `\s+de\s+\d{4}` at `j` is the one the scanner finds. */
  lemma YearTailComplete(s: string, j: nat, y: YearPos)
    requires YearShape(s, j, y)
    ensures YearTailAt(s, j) == Some(y)
  {
    DeNotSpace(s, y.de2);
    SkipSpacesUnique(s, j, y.de2);
    assert IsDigit(s[y.yearStart]);
    SkipSpacesUnique(s, y.de2 + 2, y.yearStart);
  }

  /** Scanner for the whole date phrase anchored at `i`. */
  function DateAt(s: string, i: nat): (r: Option<DatePos>)
    requires i <= |s|
    ensures r.Some? ==> r.value.Start() == i && DateShape(s, i, r.value) && r.value.End() <= |s|
  {
    match DayMonthAt(s, i)
    case None => None
    case Some(dm) =>
      match YearTailAt(s, dm.monthEnd)
      case None => None
      case Some(y) => Some(DatePos(dm, y))
  }

  /** The phrase matches at `i` exactly when the scanner says so, with the boundaries it reports. */
  lemma DateComplete(s: string, i: nat, p: DatePos)
    requires i <= |s| && DateShape(s, i, p)
    ensures DateAt(s, i) == Some(p)
  {
    DayMonthComplete(s, i, p.dm);
    YearTailComplete(s, p.dm.monthEnd, p.yr);
  }

  /** `j` is where `re.search` finds the date phrase: it matches there and at no earlier index. */
  ghost predicate IsFirstDate(s: string, j: nat)
    requires j <= |s|
  {
    DateAt(s, j).Some? && forall i | 0 <= i < j :: DateAt(s, i).None?
  }

  /** The anchored date match at every position of `s`. */
  function DateTable(s: string): (r: seq<Option<DatePos>>)
    ensures |r| == |s| + 1 && forall j | 0 <= j <= |s| :: r[j] == DateAt(s, j)
  {
    seq(|s| + 1, j requires 0 <= j <= |s| => DateAt(s, j))
  }

  /** `re.search` for the date phrase from index `from`. */
  function SearchDate(s: string, from: nat): (r: Option<DatePos>)
    requires from <= |s|
    ensures r.Some? ==> from <= r.value.Start() <= |s| && DateAt(s, r.value.Start()) == r
    ensures r.Some? ==> forall j | from <= j < r.value.Start() :: DateAt(s, j).None?
    ensures r.None? ==> forall j | from <= j <= |s| :: DateAt(s, j).None?
  {
    match FirstSome(DateTable(s), from)
    case None => None
    case Some(k) => DateAt(s, k)
  }

  function DayText(s: string, p: DatePos): string
    requires p.dm.start <= p.dm.dayEnd <= |s|
  {
    s[p.dm.start..p.dm.dayEnd]
  }

  function MonthText(s: string, p: DatePos): string
    requires p.dm.monthStart <= p.dm.monthEnd <= |s|
  {
    s[p.dm.monthStart..p.dm.monthEnd]
  }

  function YearText(s: string, p: DatePos): string
    requires p.yr.yearStart + 4 <= |s|
  {
    s[p.yr.yearStart..p.yr.yearStart + 4]
  }

  /** The text of the whole phrase, `match.group(0)` without the optional prefix. */
  function PhraseText(s: string, p: DatePos): string
    requires p.Start() <= p.End() <= |s|
  {
    s[p.Start()..p.End()]
  }

  /** `yyyy-mm-dd`: four digits, two digits, two digits. */
  predicate IsIsoShaped(d: string) {
    |d| == 10 && AllDigits(d[..4]) && d[4] == '-' && AllDigits(d[5..7]) && d[7] == '-' && AllDigits(d[8..])
  }

  /** A date as the normalisers return it: `yyyy-mm-dd`, the sentinel included. */
  type IsoDate = d: string | IsIsoShaped(d) witness "0000-00-00"

  /** `f"{ano}-{mes}-{dia}"` for a four-digit year and two-digit month and day. */
  function IsoJoin(y: string, m: string, d: string): (r: string)
    requires |y| == 4 && AllDigits(y) && |m| == 2 && AllDigits(m) && |d| == 2 && AllDigits(d)
    ensures IsIsoShaped(r) && r[..4] == y && r[5..7] == m && r[8..] == d
  {
    var r := y + "-" + m + "-" + d;
    assert r[..4] == y && r[5..7] == m && r[8..] == d;
    r
  }

  /** The normalised form of the phrase found at `p`. */
  function IsoOf(s: string, p: DatePos): (r: string)
    requires DateShape(s, p.Start(), p)
    ensures IsIsoShaped(r)
  {
    var day := DayText(s, p);
    var year := YearText(s, p);
    DigitsText(s, p.dm.start, p.dm.dayEnd);
    DigitsText(s, p.yr.yearStart, p.yr.yearStart + 4);
    assert AllDigits(day) && 1 <= |day| <= 2 && AllDigits(year) && |year| == 4;
    var d := ZFill2(day);
    IsoJoin(year, MonthCode(LowerString(MonthText(s, p))), d)
  }

  /** `formatar_data`: the leftmost date phrase as `yyyy-mm-dd`, or the sentinel. */
  function FormatDate(t: string): (r: string)
    ensures IsIsoShaped(r)
    ensures (forall j | 0 <= j <= |t| :: DateAt(t, j).None?) ==> r == Sentinel
  {
    if t == [] then Sentinel
    else
      match SearchDate(t, 0)
      case None => Sentinel
      case Some(p) => IsoOf(t, p)
  }

  /** The search finds the first index at which the phrase matches. */
  lemma SearchFindsFirst(t: string, j: nat)
    requires j <= |t| && IsFirstDate(t, j)
    ensures SearchDate(t, 0) == DateAt(t, j)
  {
    var r := SearchDate(t, 0);
    assert r.Some?;
    var s0 := r.value.Start();
    assert DateAt(t, s0).Some?;
    assert s0 >= j;
    assert DateAt(t, j).Some?;
    assert s0 <= j;
  }

  /** When the phrase occurs, the result is the normalised form of its leftmost occurrence. */
  lemma FormatDateFirst(t: string, j: nat)
    requires j <= |t| && IsFirstDate(t, j)
    ensures FormatDate(t) == IsoOf(t, DateAt(t, j).value)
  {
    SearchFindsFirst(t, j);
  }

  /** The year a normalised date carries: `int(data.split("-")[0])`. */
  function YearOf(d: string): nat
    requires IsIsoShaped(d)
  {
    ParseDigits(d[..4])
  }

  lemma DigitsAt(t: string, a: nat, w: string)
    requires a + |w| <= |t| && t[a..a + |w|] == w && AllDigits(w)
    ensures DigitsIn(t, a, a + |w|)
  {
    forall k | a <= k < a + |w| ensures IsDigit(t[k]) {
      assert t[k] == w[k - a];
    }
  }

  lemma WordCharsAt(t: string, a: nat, w: string)
    requires a + |w| <= |t| && t[a..a + |w|] == w
    requires forall k | 0 <= k < |w| :: IsWordChar(w[k])
    ensures WordCharsIn(t, a, a + |w|)
  {
    forall k | a <= k < a + |w| ensures IsWordChar(t[k]) {
      assert t[k] == w[k - a];
    }
  }

  lemma DeWordAt(t: string, a: nat, w: string)
    requires a + 2 <= |t| && t[a..a + 2] == w && LowerString(w) == "de"
    ensures DeAt(t, a)
  {
    assert t[a] == w[0] && t[a + 1] == w[1];
    assert LowerString(w)[0] == Lower(w[0]) && LowerString(w)[1] == Lower(w[1]);
  }

  /** Where the parts of "<day> <de> <month> <de> <year>", single-spaced, sit. */
  lemma PhraseSlices(day: string, de1: string, month: string, de2: string, year: string)
    requires |de1| == 2 && |de2| == 2 && |year| == 4
    ensures var t := day + " " + de1 + " " + month + " " + de2 + " " + year;
            var a := |day|;
            var me := a + 4 + |month|;
            && |t| == me + 8
            && t[..a] == day && t[a] == ' ' && t[a + 1..a + 3] == de1 && t[a + 3] == ' '
            && t[a + 4..me] == month && t[me] == ' ' && t[me + 1..me + 3] == de2 && t[me + 3] == ' '
            && t[me + 4..me + 8] == year
  {
    var t := day + " " + de1 + " " + month + " " + de2 + " " + year;
    var a := |day|;
    var me := a + 4 + |month|;
    var head := day + " " + de1 + " " + month;
    var tail := " " + de2 + " " + year;
    assert t == head + tail;
    assert head[..a] == day && head[a] == ' ' && head[a + 1..a + 3] == de1 && head[a + 3] == ' ' && head[a + 4..] == month;
    assert tail[0] == ' ' && tail[1..3] == de2 && tail[3] == ' ' && tail[4..] == year;
  }

  /** The boundaries of a single-spaced phrase laid out as `PhraseSlices` describes. */
  lemma PhraseShape(t: string, day: string, de1: string, month: string, de2: string, year: string) returns (p: DatePos)
    requires 1 <= |day| <= 2 && AllDigits(day)
    requires LowerString(de1) == "de" && LowerString(de2) == "de"
    requires month != [] && forall k | 0 <= k < |month| :: IsWordChar(month[k])
    requires |year| == 4 && AllDigits(year)
    requires var a := |day|;
             var me := a + 4 + |month|;
             && |t| == me + 8
             && t[..a] == day && t[a] == ' ' && t[a + 1..a + 3] == de1 && t[a + 3] == ' '
             && t[a + 4..me] == month && t[me] == ' ' && t[me + 1..me + 3] == de2 && t[me + 3] == ' '
             && t[me + 4..me + 8] == year
    ensures DateShape(t, 0, p) && DayText(t, p) == day && MonthText(t, p) == month && YearText(t, p) == year
  {
    var a := |day|;
    var me := a + 4 + |month|;
    p := DatePos(DayMonthPos(0, a, a + 1, a + 4, me), YearPos(me + 1, me + 4));
    DigitsAt(t, 0, day);
    WordCharsAt(t, a + 4, month);
    DigitsAt(t, me + 4, year);
    DeWordAt(t, a + 1, de1);
    DeWordAt(t, me + 1, de2);
    assert SpacesIn(t, a, a + 1) && SpacesIn(t, a + 3, a + 4) && SpacesIn(t, me, me + 1) && SpacesIn(t, me + 3, me + 4);
  }

  /**
   * A phrase "<day> de <month> de <year>", with any case of "de" and of the
   * month, is normalised to year, table code of the month, day padded to two
   * digits.
   */
  lemma FormatPhrase(day: string, de1: string, month: string, de2: string, year: string)
    requires 1 <= |day| <= 2 && AllDigits(day)
    requires LowerString(de1) == "de" && LowerString(de2) == "de"
    requires month != [] && forall k | 0 <= k < |month| :: IsWordChar(month[k])
    requires |year| == 4 && AllDigits(year)
    ensures FormatDate(day + " " + de1 + " " + month + " " + de2 + " " + year)
            == year + "-" + MonthCode(LowerString(month)) + "-" + ZFill2(day)
  {
    var t := day + " " + de1 + " " + month + " " + de2 + " " + year;
    PhraseSlices(day, de1, month, de2, year);
    var p := PhraseShape(t, day, de1, month, de2, year);
    DateComplete(t, 0, p);
    FormatDateFirst(t, 0);
  }

  lemma SpacedDe(x: string, y: string, z: string)
    ensures x + " de " + y + " de " + z == x + " " + "de" + " " + y + " " + "de" + " " + z
  {
    var sep := " de ";
    assert sep == " " + "de" + " ";
    assert x + sep + y + sep + z == x + " " + "de" + " " + y + " " + "de" + " " + z;
  }

  /** A calendar day and a month of the table give the canonical `yyyy-mm-dd`. */
  lemma FormatCalendarDate(d: nat, m: nat, year: string)
    requires 1 <= d <= 31 && 1 <= m <= 12
    requires |year| == 4 && AllDigits(year)
    ensures FormatDate(NatToString(d) + " de " + MonthNames[m - 1] + " de " + year)
            == year + "-" + TwoDigits(m) + "-" + TwoDigits(d)
  {
    var month := MonthNames[m - 1];
    MonthNameFacts(m - 1);
    MonthTableBijective(month);
    assert LowerString("de") == "de";
    ZFill2OfNat(d);
    var day := NatToString(d);
    FormatPhrase(day, "de", month, "de", year);
    var t1 := day + " de " + month + " de " + year;
    var t2 := day + " " + "de" + " " + month + " " + "de" + " " + year;
    SpacedDe(day, month, year);
    assert FormatDate(t2) == year + "-" + MonthCode(LowerString(month)) + "-" + ZFill2(day);
    assert MonthCode(LowerString(month)) == TwoDigits(m);
    assert ZFill2(day) == TwoDigits(d);
  }

  /**
   * In a text that is exactly "<day> de <word>", a "de" with whitespace on
   * both sides can only be the one after the day.
   */
  lemma IsolatedDe(t: string, q: DayMonthPos, x: nat)
    requires DayMonthShape(t, 0, q) && q.monthEnd == |t|
    requires 1 <= x && x + 2 < |t| && IsSpace(t[x - 1]) && DeAt(t, x) && IsSpace(t[x + 2])
    ensures x == q.de1
  {
    DeNotSpace(t, x);
    assert !IsSpace(t[x + 1]) by { LowerAsciiLetterNotSpace(t[x + 1]); }
    assert x + 2 < q.monthStart by {
      if q.monthStart <= x + 2 { WordCharNotSpace(t[x + 2]); }
    }
  }

  lemma LowerAsciiLetterNotSpace(c: char)
    requires 'a' <= Lower(c) <= 'z'
    ensures !IsSpace(c)
  {
  }

  /** A day and a month word with no year after them contain no full date phrase. */
  lemma NoDateInDayMonth(t: string, q: DayMonthPos)
    requires DayMonthShape(t, 0, q) && q.monthEnd == |t|
    ensures forall j, p :: !DateShape(t, j, p)
  {
    forall j, p | DateShape(t, j, p) ensures false {
      IsolatedDe(t, q, p.dm.de1);
      IsolatedDe(t, q, p.yr.de2);
    }
  }

  /** `formatar_data` of "<day> de <word>" with no year is the sentinel. */
  lemma FormatDayMonthOnly(t: string, q: DayMonthPos)
    requires DayMonthShape(t, 0, q) && q.monthEnd == |t|
    ensures FormatDate(t) == Sentinel
  {
    NoDateInDayMonth(t, q);
  }

  // ---------------------------------------------------------------------
  // Phrases cut out of a larger text
  // ---------------------------------------------------------------------

  lemma SpacesInSlice(s: string, o: nat, e: nat, a: nat, b: nat)
    requires o <= a <= b <= e <= |s| && SpacesIn(s, a, b)
    ensures SpacesIn(s[o..e], a - o, b - o)
  {
    var t := s[o..e];
    forall k | a - o <= k < b - o ensures IsSpace(t[k]) { assert t[k] == s[k + o]; }
  }

  /** A run of digits, cut out, is a digit string. */
  lemma DigitsText(s: string, a: nat, b: nat)
    requires DigitsIn(s, a, b)
    ensures AllDigits(s[a..b])
  {
    var t := s[a..b];
    forall k | 0 <= k < |t| ensures IsDigit(t[k]) { assert t[k] == s[a + k]; }
  }

  lemma DigitsInSlice(s: string, o: nat, e: nat, a: nat, b: nat)
    requires o <= a <= b <= e <= |s| && DigitsIn(s, a, b)
    ensures DigitsIn(s[o..e], a - o, b - o)
  {
    var t := s[o..e];
    forall k | a - o <= k < b - o ensures IsDigit(t[k]) { assert t[k] == s[k + o]; }
  }

  lemma WordCharsInSlice(s: string, o: nat, e: nat, a: nat, b: nat)
    requires o <= a <= b <= e <= |s| && WordCharsIn(s, a, b)
    ensures WordCharsIn(s[o..e], a - o, b - o)
  {
    var t := s[o..e];
    forall k | a - o <= k < b - o ensures IsWordChar(t[k]) { assert t[k] == s[k + o]; }
  }

  /** The day-and-month part of a match, cut out of the text from its start up to `e`. */
  lemma DayMonthInSlice(s: string, p: DayMonthPos, e: nat) returns (q: DayMonthPos)
    requires DayMonthShape(s, p.start, p) && p.monthEnd <= e <= |s|
    requires p.monthEnd == e || !IsWordChar(s[p.monthEnd])
    ensures q == DayMonthPos(0, p.dayEnd - p.start, p.de1 - p.start, p.monthStart - p.start, p.monthEnd - p.start)
    ensures DayMonthShape(s[p.start..e], 0, q)
    ensures s[p.start..e][q.start..q.dayEnd] == s[p.start..p.dayEnd]
    ensures s[p.start..e][q.monthStart..q.monthEnd] == s[p.monthStart..p.monthEnd]
  {
    SliceOfSlice(s, p.start, e, p.start, p.dayEnd);
    SliceOfSlice(s, p.start, e, p.monthStart, p.monthEnd);
    var o := p.start;
    var t := s[o..e];
    q := DayMonthPos(0, p.dayEnd - o, p.de1 - o, p.monthStart - o, p.monthEnd - o);
    DigitsInSlice(s, o, e, o, p.dayEnd);
    SpacesInSlice(s, o, e, p.dayEnd, p.de1);
    SpacesInSlice(s, o, e, p.de1 + 2, p.monthStart);
    WordCharsInSlice(s, o, e, p.monthStart, p.monthEnd);
    assert t[q.de1] == s[p.de1] && t[q.de1 + 1] == s[p.de1 + 1];
    assert q.monthEnd < |t| ==> t[q.monthEnd] == s[p.monthEnd];
  }

  /** Normalising the text of a phrase found in `s` gives the same date as normalising `s` there. */
  lemma FormatPhraseText(s: string, p: DatePos)
    requires DateShape(s, p.Start(), p) && p.End() <= |s|
    ensures FormatDate(PhraseText(s, p)) == IsoOf(s, p)
  {
    var t := PhraseText(s, p);
    var dm := DayMonthInSlice(s, p.dm, p.End());
    var y := YearInPhrase(s, p);
    var q := DatePos(dm, y);
    assert YearText(t, q) == YearText(s, p);
    assert DayText(t, q) == DayText(s, p);
    assert MonthText(t, q) == MonthText(s, p);
    DateComplete(t, 0, q);
    FormatDateFirst(t, 0);
    IsoOfParts(t, q, s, p);
  }

  /** The year part of a match, seen from the start of its phrase text. */
  lemma YearInPhrase(s: string, p: DatePos) returns (y: YearPos)
    requires DateShape(s, p.Start(), p) && p.End() <= |s|
    ensures y == YearPos(p.yr.de2 - p.Start(), p.yr.yearStart - p.Start())
    ensures y.yearStart + 4 == |PhraseText(s, p)|
    ensures YearShape(PhraseText(s, p), p.dm.monthEnd - p.Start(), y)
    ensures PhraseText(s, p)[y.yearStart..y.yearStart + 4] == YearText(s, p)
  {
    var o := p.Start();
    var e := p.End();
    var t := PhraseText(s, p);
    y := YearPos(p.yr.de2 - o, p.yr.yearStart - o);
    SliceOfSlice(s, o, e, p.yr.yearStart, e);
    SpacesInSlice(s, o, e, p.dm.monthEnd, p.yr.de2);
    SpacesInSlice(s, o, e, p.yr.de2 + 2, p.yr.yearStart);
    DigitsInSlice(s, o, e, p.yr.yearStart, e);
    assert t[y.de2] == s[p.yr.de2] && t[y.de2 + 1] == s[p.yr.de2 + 1];
  }

  lemma IsoOfParts(t: string, q: DatePos, s: string, p: DatePos)
    requires DateShape(t, q.Start(), q) && DateShape(s, p.Start(), p)
    requires DayText(t, q) == DayText(s, p) && MonthText(t, q) == MonthText(s, p) && YearText(t, q) == YearText(s, p)
    ensures IsoOf(t, q) == IsoOf(s, p)
  {
  }

  lemma SliceOfSlice(s: string, o: nat, e: nat, a: nat, b: nat)
    requires o <= a <= b <= e <= |s|
    ensures s[o..e][a - o..b - o] == s[a..b]
  {
    var u := s[o..e][a - o..b - o];
    assert |u| == b - a;
    assert forall k | 0 <= k < |u| :: u[k] == s[a + k];
  }
}
