/**
 * `parse_portarias` of postar.py: it reads the ordinance listing by label.
 * The content is split at every run of three or more `=`, blank pieces are
 * dropped, and each remaining record yields one tuple (file, number, date,
 * text). Also the month table `MONTH_MAP` and the name of the file the
 * poster uploads.
 */
module Poster {
  import opened Text
  import opened Dates
  import opened Capture
  import opened FileNames
  import opened Batch
  import Renamer

  // ---------------------------------------------------------------------
  // re.split(r"={3,}", content)
  // ---------------------------------------------------------------------

  /** The length of the run of `=` that `s` starts with. */
  function RunLen(s: string): (n: nat)
    ensures n <= |s|
    ensures s != [] && s[0] == '=' ==> n > 0
    decreases |s|
  {
    if s != [] && s[0] == '=' then 1 + RunLen(s[1..]) else 0
  }

  /** `={3,}` matches at the start of `s`. */
  predicate RunStart(s: string) {
    |s| >= 3 && s[0] == '=' && s[1] == '=' && s[2] == '='
  }

  /**
   * The pieces `re.split` leaves when the current piece so far is `acc`
   * and `s` is still to be scanned: the leftmost run of three or more `=`
   * is a separator, taken as long as it goes.
   */
  function Pieces(acc: string, s: string): (r: seq<string>)
    ensures |r| >= 1
    decreases |s|
  {
    if s == [] then [acc]
    else if RunStart(s) then [acc] + Pieces([], s[RunLen(s)..])
    else Pieces(acc + [s[0]], s[1..])
  }

  /** `re.split(r"={3,}", content)`. */
  function SplitRuns(content: string): (r: seq<string>)
    ensures |r| >= 1
  {
    Pieces([], content)
  }

  /** A run of `=` followed by something else is measured to its end. */
  lemma {:induction false} RunLenOf(e: string, y: string)
    requires forall k | 0 <= k < |e| :: e[k] == '='
    requires y == [] || y[0] != '='
    ensures RunLen(e + y) == |e|
    decreases |e|
  {
    if e != [] {
      assert (e + y)[1..] == e[1..] + y;
      RunLenOf(e[1..], y);
    } else {
      assert e + y == y;
    }
  }

  /** Text without `=` joins the current piece. */
  lemma {:induction false} PiecesPlain(acc: string, x: string, y: string)
    requires '=' !in x
    ensures Pieces(acc, x + y) == Pieces(acc + x, y)
    decreases |x|
  {
    if x == [] {
      assert x + y == y && acc + x == acc;
    } else {
      var s := x + y;
      assert s[0] == x[0] && s[1..] == x[1..] + y;
      assert !RunStart(s);
      PiecesPlain(acc + [x[0]], x[1..], y);
      assert acc + [x[0]] + x[1..] == acc + x;
    }
  }

  /** The fifty-`=` delimiter line ends the current piece, when no `=` follows it. */
  lemma PiecesDelimiter(acc: string, y: string)
    requires y == [] || y[0] != '='
    ensures Pieces(acc, Delimiter() + y) == [acc] + Pieces([], y)
  {
    var s := Delimiter() + y;
    RunLenOf(Delimiter(), y);
    assert s[50..] == y;
  }

  /** The head of a framed sequence of blocks. */
  lemma ConcatFirst(rest: seq<string>)
    requires rest != []
    ensures Concat(rest, Renamer.Framed) == Delimiter() + (rest[0] + Concat(rest[1..], Renamer.Framed))
  {
    ConcatAppend([rest[0]], rest[1..], Renamer.Framed);
    assert [rest[0]] + rest[1..] == rest;
    assert Concat([rest[0]], Renamer.Framed) == Renamer.Framed(rest[0]) by { assert [rest[0]][..0] == []; }
    AppendAssoc(Delimiter(), rest[0], Concat(rest[1..], Renamer.Framed));
  }

  /**
   * A head and blocks, each behind a delimiter line, split back into the
   * head and the blocks, provided no block is empty and nothing holds an
   * `=` of its own.
   */
  lemma {:induction false} PiecesFramed(acc: string, b: string, rest: seq<string>)
    requires '=' !in b
    requires forall i | 0 <= i < |rest| :: rest[i] != [] && '=' !in rest[i]
    ensures Pieces(acc, b + Concat(rest, Renamer.Framed)) == [acc + b] + rest
    decreases |rest|
  {
    var tail := Concat(rest, Renamer.Framed);
    PiecesPlain(acc, b, tail);
    if rest == [] {
      assert Pieces(acc + b, tail) == [acc + b];
    } else {
      var next := rest[0] + Concat(rest[1..], Renamer.Framed);
      ConcatFirst(rest);
      assert next[0] == rest[0][0];
      PiecesDelimiter(acc + b, next);
      PiecesFramed([], rest[0], rest[1..]);
      assert [] + rest[0] == rest[0];
      assert [rest[0]] + rest[1..] == rest;
    }
  }

  // ---------------------------------------------------------------------
  // Records
  // ---------------------------------------------------------------------

  /** `record.strip()`, kept when it is not blank. */
  function NonBlank(piece: string): (r: Option<string>)
    ensures r.Some? ==> r.value != [] && IsStripped(r.value)
  {
    if Strip(piece) == [] then None else Some(Strip(piece))
  }

  /** `records`: the stripped pieces that are not blank, in order. */
  function Records(content: string): (r: seq<string>)
    ensures |r| <= |SplitRuns(content)|
  {
    CollectedLength(SplitRuns(content), NonBlank);
    Collected(SplitRuns(content), NonBlank)
  }

  // ---------------------------------------------------------------------
  // Fields by label
  // ---------------------------------------------------------------------

  /**
   * `m.group(1).strip() if m else ""`: a plain projection, so its contract
   * spells out its cases; `FileOfCore` and `NumberOfCore` state what the
   * fields built on it read from a written record.
   */
  function FieldValue(o: Option<string>): (r: string)
    ensures o.None? ==> r == []
    ensures o.Some? ==> r == o.value
  {
    match o
    case None => []
    case Some(v) => v
  }

  /** `re.search(r"Arquivo:\s*(.+)", rec)`, stripped, or "". */
  function FileField(rec: string): (r: string)
    ensures IsStripped(r)
  {
    FieldValue(Captured(rec, Renamer.PathLabel, false, false))
  }

  /** `re.search(r"[Nn]úmero da Portaria:\s*(.+)", rec)`, stripped, or "". */
  function NumberField(rec: string): (r: string)
    ensures IsStripped(r)
  {
    FieldValue(Captured(rec, Renamer.NumberLabel, true, false))
  }

  /** The month numbers of `MONTH_MAP`: twelve names onto 1..12, no two names on the same number. */
  lemma MonthMapBijective(a: string, b: string)
    ensures forall m | 1 <= m <= 12 :: MonthNumber(MonthNames[m - 1]) == Some(m)
    ensures MonthNumber(a).Some? && MonthNumber(a) == MonthNumber(b) ==> a == b
  {
    MonthTableBijective(a);
    MonthTableBijective(b);
  }

  // ---------------------------------------------------------------------
  // The date: Data da Portaria:\s*(\d{1,2})\s*de\s*([a-zç]+)\s*de\s*(\d{4}), ignoring case
  // ---------------------------------------------------------------------

  /** `tag` at `i` in any mix of case. */
  predicate LabelNoCase(s: string, i: nat, tag: string) {
    i + |tag| <= |s| && forall k | 0 <= k < |tag| :: Lower(s[i + k]) == Lower(tag[k])
  }

  /** The class `[a-zç]` under `re.IGNORECASE`, for ASCII and Latin-1 letters. */
  predicate IsMonthLetter(c: char) {
    ('a' <= Lower(c) <= 'z') || Lower(c) == 'ç'
  }

  predicate MonthLettersIn(s: string, i: nat, j: nat) {
    i <= j <= |s| && forall k {:trigger IsMonthLetter(s[k])} | i <= k < j :: IsMonthLetter(s[k])
  }

  lemma MonthLetterFacts(c: char)
    ensures IsMonthLetter(c) ==> !IsSpace(c) && !IsDigit(c)
    ensures IsDigit(c) ==> !IsSpace(c) && Lower(c) == c
  {
  }

  /** The end of the greedy `[a-zç]+` run from `i`. */
  function SkipLetters(s: string, i: nat): (j: nat)
    requires i <= |s|
    ensures MonthLettersIn(s, i, j)
    ensures j == |s| || !IsMonthLetter(s[j])
    decreases |s| - i
  {
    if i < |s| && IsMonthLetter(s[i]) then SkipLetters(s, i + 1) else i
  }

  /**
   * Where `Data da Portaria:\s*(\d{1,2})\s*de\s*` matched: the day is
   * s[dayStart..dayEnd], the "de" sits at de1, and the month name starts
   * at monthStart.
   */
  datatype HeadSpan = HeadSpan(dayStart: nat, dayEnd: nat, de1: nat, monthStart: nat)

  /**
   * Where `([a-zç]+)\s*de\s*(\d{4})` matched from the month's start: the
   * month name ends at monthEnd, the "de" sits at de2, the year is
   * s[yearStart..yearStart + 4].
   */
  datatype TailSpan = TailSpan(monthEnd: nat, de2: nat, yearStart: nat)

  /** A match of the whole date pattern at `at`. */
  datatype DateSpan = DateSpan(at: nat, head: HeadSpan, tail: TailSpan)

  predicate HeadShape(s: string, i: nat, h: HeadSpan) {
    && LabelNoCase(s, i, Renamer.DateLabel)
    && SpacesIn(s, i + |Renamer.DateLabel|, h.dayStart)
    && h.dayStart < h.dayEnd <= h.dayStart + 2 && DigitsIn(s, h.dayStart, h.dayEnd)
    && SpacesIn(s, h.dayEnd, h.de1) && DeAt(s, h.de1)
    && SpacesIn(s, h.de1 + 2, h.monthStart)
  }

  predicate TailShape(s: string, ms: nat, t: TailSpan) {
    && ms < t.monthEnd && MonthLettersIn(s, ms, t.monthEnd)
    && SpacesIn(s, t.monthEnd, t.de2) && DeAt(s, t.de2)
    && SpacesIn(s, t.de2 + 2, t.yearStart) && DigitsIn(s, t.yearStart, t.yearStart + 4)
  }

  /** The pattern matches at `i` with these boundaries. */
  predicate DateShapeAt(s: string, i: nat, p: DateSpan) {
    p.at == i && HeadShape(s, i, p.head) && TailShape(s, p.head.monthStart, p.tail)
  }

  /** `\s*de\s*\d{4}` at `j`: where the "de" and the year begin. */
  function YearAfter(s: string, j: nat): (r: Option<(nat, nat)>)
    requires j <= |s|
    ensures r.Some? ==> SpacesIn(s, j, r.value.0) && DeAt(s, r.value.0)
                        && SpacesIn(s, r.value.0 + 2, r.value.1) && DigitsIn(s, r.value.1, r.value.1 + 4)
  {
    var d := SkipSpaces(s, j);
    if DeAt(s, d) then
      var y := SkipSpaces(s, d + 2);
      if DigitsIn(s, y, y + 4) then Some((d, y)) else None
    else None
  }

  /** `\d{1,2}` from a digit at `ds`: two digits when there are two. */
  function DayEnd(s: string, ds: nat): (e: nat)
    requires ds < |s| && IsDigit(s[ds])
    ensures ds < e <= ds + 2 && DigitsIn(s, ds, e)
    ensures e == ds + 1 ==> e == |s| || !IsDigit(s[e])
  {
    if ds + 1 < |s| && IsDigit(s[ds + 1]) then ds + 2 else ds + 1
  }

  /** The scanner for the label, the day and the first "de", anchored at `i`. */
  function HeadAt(s: string, i: nat): (r: Option<HeadSpan>)
    requires i <= |s|
    ensures r.Some? ==> HeadShape(s, i, r.value) && r.value.monthStart <= |s|
  {
    if !LabelNoCase(s, i, Renamer.DateLabel) then None
    else
      var ds := SkipSpaces(s, i + |Renamer.DateLabel|);
      if ds == |s| || !IsDigit(s[ds]) then None
      else
        var de := DayEnd(s, ds);
        var d1 := SkipSpaces(s, de);
        if !DeAt(s, d1) then None
        else Some(HeadSpan(ds, de, d1, SkipSpaces(s, d1 + 2)))
  }

  /**
   * The scanner for the month and the year from `ms`. The greedy month run
   * is tried first; when the year does not follow it, the run gives back
   * its last two letters, which is the only other way the pattern can go
   * on, and only when those letters are "de".
   */
  function TailAt(s: string, ms: nat): (r: Option<TailSpan>)
    requires ms <= |s|
    ensures r.Some? ==> TailShape(s, ms, r.value)
  {
    var me := SkipLetters(s, ms);
    if me == ms then None
    else
      match YearAfter(s, me)
      case Some((d2, ys)) => Some(TailSpan(me, d2, ys))
      case None =>
        if me - 2 > ms && DeAt(s, me - 2) then
          var ys := SkipSpaces(s, me);
          if DigitsIn(s, ys, ys + 4) then Some(TailSpan(me - 2, me - 2, ys)) else None
        else None
  }

  /** The scanner for the whole pattern anchored at `i`. */
  function DateSpanAt(s: string, i: nat): (r: Option<DateSpan>)
    requires i <= |s|
    ensures r.Some? ==> DateShapeAt(s, i, r.value)
  {
    match HeadAt(s, i)
    case None => None
    case Some(h) =>
      match TailAt(s, h.monthStart)
      case None => None
      case Some(t) => Some(DateSpan(i, h, t))
  }

  /** A day followed by spaces and "de" took every digit there was. */
  lemma DayEndMaximal(s: string, ds: nat, e: nat, d1: nat)
    requires ds < e <= ds + 2 && DigitsIn(s, ds, e) && SpacesIn(s, e, d1) && DeAt(s, d1)
    ensures DayEnd(s, ds) == e
  {
    if e < |s| {
      MonthLetterFacts(s[e]);
    }
  }

  /** Any match of the head at `i` that the month name follows is the one the scanner finds. */
  lemma HeadComplete(s: string, i: nat, h: HeadSpan)
    requires i <= |s| && HeadShape(s, i, h)
    requires h.monthStart < |s| && !IsSpace(s[h.monthStart])
    ensures HeadAt(s, i) == Some(h)
  {
    assert SkipSpaces(s, i + |Renamer.DateLabel|) == h.dayStart by {
      MonthLetterFacts(s[h.dayStart]);
      SkipSpacesUnique(s, i + |Renamer.DateLabel|, h.dayStart);
    }
    assert DayEnd(s, h.dayStart) == h.dayEnd by {
      DayEndMaximal(s, h.dayStart, h.dayEnd, h.de1);
    }
    assert SkipSpaces(s, h.dayEnd) == h.de1 by {
      DeNotSpace(s, h.de1);
      SkipSpacesUnique(s, h.dayEnd, h.de1);
    }
    assert SkipSpaces(s, h.de1 + 2) == h.monthStart by {
      SkipSpacesUnique(s, h.de1 + 2, h.monthStart);
    }
    assert h == HeadSpan(h.dayStart, h.dayEnd, h.de1, h.monthStart);
  }

  /** The greedy month run reaches at least as far as any run of month letters. */
  lemma SkipLettersBeyond(s: string, ms: nat, e: nat)
    requires MonthLettersIn(s, ms, e)
    ensures e <= SkipLetters(s, ms)
  {
  }

  /** A month name that the run goes on past ends where the run's closing "de" begins. */
  lemma MonthGivesBack(s: string, ms: nat, t: TailSpan, me: nat)
    requires TailShape(s, ms, t) && MonthLettersIn(s, ms, me) && (me == |s| || !IsMonthLetter(s[me]))
    requires t.monthEnd < me
    ensures t.de2 == t.monthEnd && me == t.de2 + 2 && SkipSpaces(s, me) == t.yearStart
  {
    MonthLetterFacts(s[t.monthEnd]);
    assert t.de2 == t.monthEnd;
    MonthLetterFacts(s[t.de2 + 1]);
    assert t.de2 + 2 <= me;
    if t.de2 + 2 < me {
      MonthLetterFacts(s[t.de2 + 2]);
    }
    MonthLetterFacts(s[t.yearStart]);
    SkipSpacesUnique(s, me, t.yearStart);
  }

  /** Any match of the month and year from `ms` is the one the scanner finds. */
  lemma TailComplete(s: string, ms: nat, t: TailSpan)
    requires ms <= |s| && TailShape(s, ms, t)
    ensures TailAt(s, ms) == Some(t)
  {
    var me := SkipLetters(s, ms);
    SkipLettersBeyond(s, ms, t.monthEnd);
    MonthLetterFacts(s[t.yearStart]);
    if t.monthEnd == me {
      DeNotSpace(s, t.de2);
      SkipSpacesUnique(s, me, t.de2);
      SkipSpacesUnique(s, t.de2 + 2, t.yearStart);
    } else {
      MonthGivesBack(s, ms, t, me);
      assert !DeAt(s, t.yearStart);
    }
  }

  /** Any match of the whole pattern at `i` is the one the scanner finds. */
  lemma DateSpanComplete(s: string, i: nat, p: DateSpan)
    requires i <= |s| && DateShapeAt(s, i, p)
    ensures DateSpanAt(s, i) == Some(p)
  {
    MonthLetterFacts(s[p.head.monthStart]);
    HeadComplete(s, i, p.head);
    TailComplete(s, p.head.monthStart, p.tail);
  }

  /** The anchored date match at every position. */
  function DateSpanTable(s: string): (r: seq<Option<DateSpan>>)
    ensures |r| == |s| + 1 && forall j | 0 <= j <= |s| :: r[j] == DateSpanAt(s, j)
  {
    seq(|s| + 1, j requires 0 <= j <= |s| => DateSpanAt(s, j))
  }

  /** `re.search` for the date pattern: the match at the leftmost position that has one. */
  function SearchDateSpan(s: string): (r: Option<DateSpan>)
    ensures r.Some? ==> r.value.at <= |s| && DateShapeAt(s, r.value.at, r.value)
    ensures r.Some? ==> forall j | 0 <= j < r.value.at :: DateSpanAt(s, j).None?
    ensures r.None? ==> forall j | 0 <= j <= |s| :: DateSpanAt(s, j).None?
  {
    match FirstSome(DateSpanTable(s), 0)
    case None => None
    case Some(j) => DateSpanAt(s, j)
  }

  /** `(dia, mes, ano)`: the month is nothing when `MONTH_MAP` lacks the name. */
  datatype PostDate = PostDate(day: nat, month: Option<nat>, year: nat)

  /** The number written by 1 to `n` digits. */
  function Pow10(n: nat): (r: nat)
    ensures r >= 1
  {
    if n == 0 then 1 else 10 * Pow10(n - 1)
  }

  lemma {:induction false} ParseDigitsBelow(s: string)
    requires AllDigits(s)
    ensures ParseDigits(s) < Pow10(|s|)
    decreases |s|
  {
    if s != [] {
      ParseDigitsBelow(s[..|s| - 1]);
    }
  }

  /** `(int(group(1)), MONTH_MAP.get(group(2).lower()), int(group(3)))` for a match. */
  function DateFrom(s: string, p: DateSpan): (r: PostDate)
    requires DateShapeAt(s, p.at, p)
    ensures r.day < 100 && r.year < 10000
    ensures r.month.Some? ==> 1 <= r.month.value <= 12
  {
    var day := s[p.head.dayStart..p.head.dayEnd];
    var year := s[p.tail.yearStart..p.tail.yearStart + 4];
    ParseDigitsBelow(day);
    ParseDigitsBelow(year);
    assert |day| <= 2 && |year| == 4;
    assert Pow10(1) == 10 && Pow10(2) == 100 && Pow10(4) == 10000;
    PostDate(ParseDigits(day), MonthNumber(LowerString(s[p.head.monthStart..p.tail.monthEnd])), ParseDigits(year))
  }

  /** `data_portaria`: the date of the first match, or nothing when the pattern occurs nowhere. */
  function DateOf(rec: string): (r: Option<PostDate>)
    ensures r.None? <==> forall j | 0 <= j <= |rec| :: DateSpanAt(rec, j).None?
  {
    match SearchDateSpan(rec)
    case None => None
    case Some(p) => Some(DateFrom(rec, p))
  }

  /** The first match of the pattern gives the tuple `DateOf` returns. */
  lemma DateOfFirst(rec: string, p: DateSpan)
    requires p.at <= |rec| && DateShapeAt(rec, p.at, p)
    requires forall j | 0 <= j < p.at :: DateSpanAt(rec, j).None?
    ensures DateOf(rec) == Some(DateFrom(rec, p))
  {
    DateSpanComplete(rec, p.at, p);
    var q := SearchDateSpan(rec).value;
    assert q.at == p.at;
    DateSpanComplete(rec, q.at, q);
  }

  /** The date line up to the month name, as the listing writes it: `Data da Portaria: d de `. */
  function DateLineHead(d: string): string {
    Renamer.DateLabel + " " + d + " de "
  }

  /** A text that opens with the date line's head has the head of the pattern at 0. */
  lemma HeadOfDateLine(s: string, d: string)
    requires 1 <= |d| <= 2 && AllDigits(d)
    requires |DateLineHead(d)| <= |s| && s[..|DateLineHead(d)|] == DateLineHead(d)
    ensures HeadShape(s, 0, HeadSpan(18, 18 + |d|, 19 + |d|, 22 + |d|))
    ensures s[18..18 + |d|] == d
  {
    var h := DateLineHead(d);
    assert |Renamer.DateLabel| == 17;
    assert forall k | 0 <= k < |h| :: s[k] == h[k];
    assert forall k | 0 <= k < 17 :: h[k] == Renamer.DateLabel[k];
    assert forall k | 0 <= k < |d| :: h[18 + k] == d[k];
    assert h[17] == ' ' && h[18 + |d|] == ' ' && h[19 + |d|] == 'd' && h[20 + |d|] == 'e' && h[21 + |d|] == ' ';
    assert s[18..18 + |d|] == d;
  }

  /** A month name, " de " and a year from `ms` are the tail of the pattern. */
  lemma TailOfDateLine(s: string, ms: nat, m: string, y: string)
    requires m != [] && MonthLettersIn(m, 0, |m|) && |y| == 4 && AllDigits(y)
    requires ms + |m| + 8 <= |s| && s[ms..ms + |m| + 8] == DateLineTail(m, y)
    ensures TailShape(s, ms, TailSpan(ms + |m|, ms + |m| + 1, ms + |m| + 4))
    ensures s[ms..ms + |m|] == m && s[ms + |m| + 4..ms + |m| + 8] == y
  {
    var t := DateLineTail(m, y);
    assert forall k | 0 <= k < |t| :: s[ms + k] == t[k];
    assert forall k | 0 <= k < |m| :: t[k] == m[k];
    assert forall k | 0 <= k < 4 :: t[|m| + 4 + k] == y[k];
    assert t[|m|] == ' ' && t[|m| + 1] == 'd' && t[|m| + 2] == 'e' && t[|m| + 3] == ' ';
    assert s[ms..ms + |m|] == m;
    assert s[ms + |m| + 4..ms + |m| + 8] == y;
  }

  /** The date line from the month name on: `m de y`. */
  function DateLineTail(m: string, y: string): string {
    m + " de " + y
  }

  /** The two leading parts of a three-part text are its first slices. */
  lemma LeadingParts(a: string, b: string, c: string)
    ensures |a| + |b| <= |a + b + c|
    ensures (a + b + c)[..|a|] == a && (a + b + c)[|a|..|a| + |b|] == b
  {
    var s := a + b + c;
    assert forall k | 0 <= k < |a| :: s[k] == a[k];
    assert forall k | 0 <= k < |b| :: s[|a| + k] == b[k];
  }

  /**
   * A record that opens with the date line `Data da Portaria: d de m de y`
   * reads back as the day and year values and `MONTH_MAP.get` of the
   * lowered month name, whatever follows the year.
   */
  lemma DateOfLine(d: string, m: string, y: string, rest: string)
    requires 1 <= |d| <= 2 && AllDigits(d)
    requires m != [] && MonthLettersIn(m, 0, |m|)
    requires |y| == 4 && AllDigits(y)
    ensures DateOf(DateLineHead(d) + DateLineTail(m, y) + rest)
            == Some(PostDate(ParseDigits(d), MonthNumber(LowerString(m)), ParseDigits(y)))
  {
    var s := DateLineHead(d) + DateLineTail(m, y) + rest;
    var p := DateLineSpan(d, m, y, rest);
    DateOfFirst(s, p);
    DateFromGroups(s, p);
  }

  /** The match of the pattern in a record opening with the date line, and its three groups. */
  lemma DateLineSpan(d: string, m: string, y: string, rest: string) returns (p: DateSpan)
    requires 1 <= |d| <= 2 && AllDigits(d)
    requires m != [] && MonthLettersIn(m, 0, |m|)
    requires |y| == 4 && AllDigits(y)
    ensures var s := DateLineHead(d) + DateLineTail(m, y) + rest;
            && p.at == 0 && DateShapeAt(s, 0, p)
            && s[p.head.dayStart..p.head.dayEnd] == d
            && s[p.head.monthStart..p.tail.monthEnd] == m
            && s[p.tail.yearStart..p.tail.yearStart + 4] == y
  {
    var h, t := DateLineHead(d), DateLineTail(m, y);
    var s := h + t + rest;
    var ms := |h|;
    LeadingParts(h, t, rest);
    HeadOfDateLine(s, d);
    TailOfDateLine(s, ms, m, y);
    p := DateSpan(0, HeadSpan(18, 18 + |d|, 19 + |d|, ms), TailSpan(ms + |m|, ms + |m| + 1, ms + |m| + 4));
  }

  /** The tuple of a match is built from its three groups. */
  lemma DateFromGroups(s: string, p: DateSpan)
    requires DateShapeAt(s, p.at, p)
    ensures AllDigits(s[p.head.dayStart..p.head.dayEnd]) && AllDigits(s[p.tail.yearStart..p.tail.yearStart + 4])
    ensures DateFrom(s, p) == PostDate(ParseDigits(s[p.head.dayStart..p.head.dayEnd]),
                                       MonthNumber(LowerString(s[p.head.monthStart..p.tail.monthEnd])),
                                       ParseDigits(s[p.tail.yearStart..p.tail.yearStart + 4]))
  {
  }

  /** A named month on the date line reads back as its number in `MONTH_MAP`. */
  lemma DateOfNamedMonth(d: string, k: nat, y: string, rest: string)
    requires 1 <= |d| <= 2 && AllDigits(d) && k < 12 && |y| == 4 && AllDigits(y)
    ensures DateOf(DateLineHead(d) + DateLineTail(MonthNames[k], y) + rest)
            == Some(PostDate(ParseDigits(d), Some(k + 1), ParseDigits(y)))
  {
    var m := MonthNames[k];
    MonthNameLetters(k);
    DateOfLine(d, m, y, rest);
    MonthNameFacts(k);
    MonthTableBijective(m);
  }

  /** The names of `MONTH_MAP` are runs of `[a-zç]`. */
  lemma MonthNameLetters(k: nat)
    requires k < 12
    ensures MonthNames[k] != [] && MonthLettersIn(MonthNames[k], 0, |MonthNames[k]|)
  {
    var m := MonthNames[k];
    assert forall i | 0 <= i < |m| :: 'a' <= m[i] <= 'z' || m[i] == 'ç';
  }

  /** A month name `MONTH_MAP` lacks, in any case, reads back with no month. */
  lemma DateOfUnknownMonth(d: string, m: string, y: string, rest: string)
    requires 1 <= |d| <= 2 && AllDigits(d) && |y| == 4 && AllDigits(y)
    requires m != [] && MonthLettersIn(m, 0, |m|)
    requires forall k | 0 <= k < 12 :: LowerString(m) != MonthNames[k]
    ensures DateOf(DateLineHead(d) + DateLineTail(m, y) + rest)
            == Some(PostDate(ParseDigits(d), None, ParseDigits(y)))
  {
    DateOfLine(d, m, y, rest);
    MonthTableBijective(LowerString(m));
  }

  // ---------------------------------------------------------------------
  // The text
  // ---------------------------------------------------------------------

  predicate StartsWith(line: string, prefix: string) {
    |prefix| <= |line| && line[..|prefix|] == prefix
  }

  /** A line that starts with one of the three labels, matched with case. */
  predicate IsHeaderLine(line: string) {
    StartsWith(line, Renamer.PathLabel) || StartsWith(line, Renamer.NumberLabel) || StartsWith(line, Renamer.DateLabel)
  }

  /** What a line adds to `text_lines`: nothing for a header line, else the line stripped. */
  function TextLine(line: string): (r: Option<string>)
    ensures r.None? <==> IsHeaderLine(line)
    ensures r.Some? ==> IsStripped(r.value)
  {
    if IsHeaderLine(line) then None else Some(Strip(line))
  }

  /** `texto`: the lines that are not headers, stripped, joined by spaces, stripped. */
  function TextOf(rec: string): (r: string)
    ensures IsStripped(r)
  {
    Strip(Join(Collected(SplitLines(rec), TextLine), " "))
  }

  /** The loop over the lines of a record. */
  method CollectText(rec: string) returns (texto: string)
    ensures texto == TextOf(rec)
  {
    var lines := SplitLines(rec);
    var textLines: seq<string> := [];
    for i := 0 to |lines|
      invariant textLines == Collected(lines[..i], TextLine)
    {
      var line := lines[i];
      CollectedNext(lines, TextLine, i);
      if !(StartsWith(line, Renamer.PathLabel) || StartsWith(line, Renamer.NumberLabel)
           || StartsWith(line, Renamer.DateLabel)) {
        textLines := textLines + [Strip(line)];
      }
    }
    assert lines[..|lines|] == lines;
    texto := Strip(Join(textLines, " "));
  }

  // ---------------------------------------------------------------------
  // parse_portarias
  // ---------------------------------------------------------------------

  /** One tuple `(arquivo, numero, data_portaria, texto)`. */
  datatype Post = Post(file: string, number: string, date: Option<PostDate>, text: string)

  /** The tuple for one record. */
  function ParseRecord(rec: string): Post {
    Post(FileField(rec), NumberField(rec), DateOf(rec), TextOf(rec))
  }

  /** `result_list`: exactly one tuple per record, in record order; no record is rejected. */
  function Posts(content: string): (r: seq<Post>)
    ensures |r| == |Records(content)|
    ensures forall i | 0 <= i < |r| :: r[i] == ParseRecord(Records(content)[i])
  {
    var recs := Records(content);
    seq(|recs|, i requires 0 <= i < |recs| => ParseRecord(recs[i]))
  }

  /** The body of the loop over the records. */
  method ReadRecord(rec: string) returns (post: Post)
    ensures post == ParseRecord(rec)
  {
    var arquivo := FieldValue(Captured(rec, Renamer.PathLabel, false, false));
    var numero := FieldValue(Captured(rec, Renamer.NumberLabel, true, false));
    var data := DateOf(rec);
    var texto := CollectText(rec);
    post := Post(arquivo, numero, data, texto);
  }

  /** The loop over the records. */
  method ParseOrdinances(content: string) returns (posts: seq<Post>)
    ensures posts == Posts(content)
  {
    var records := Records(content);
    ghost var all := Posts(content);
    posts := [];
    for i := 0 to |records|
      invariant posts == all[..i]
    {
      var post := ReadRecord(records[i]);
      assert all[i] == post;
      PrefixStep(all, i, post);
      posts := posts + [post];
    }
    assert all[..|records|] == all;
  }

  /** `item[1].replace("/", "") + ".pdf"`: the file the poster uploads for a tuple. */
  function UploadName(p: Post): (r: string)
    ensures '/' !in r
  {
    SlashFreeName(p.number)
  }

  // ---------------------------------------------------------------------
  // Reading what muda_nome.py wrote
  // ---------------------------------------------------------------------

  /**
   * A record the poster reads back as written: it can be carried unchanged
   * through the listing, its date or text is not empty, its path and
   * number are not empty, and its path does not hold the number label.
   */
  predicate Postable(r: Renamer.Row) {
    Renamer.Clean(r) && Renamer.Filled(r) && r.path != [] && r.number != [] && NoOcc(r.path, Renamer.NumberLabel[1..])
  }

  /** The records of a rebuilt listing, once split and stripped: the cores of its rows. */
  function Cores(rows: seq<Renamer.Row>): (r: seq<string>)
    ensures |r| == |rows| && forall i | 0 <= i < |rows| :: r[i] == Renamer.Core(rows[i], false)
  {
    seq(|rows|, i requires 0 <= i < |rows| => Renamer.Core(rows[i], false))
  }

  /** A rebuilt listing splits at its delimiter lines into an empty head, one block per row, and a closing line break. */
  lemma SplitRebuilt(rows: seq<Renamer.Row>)
    requires forall i | 0 <= i < |rows| :: Renamer.Clean(rows[i])
    ensures SplitRuns(Renamer.Rebuilt(rows)) == [""] + (Renamer.Bodies(rows) + ["\n"])
  {
    var all := Renamer.Bodies(rows) + ["\n"];
    Renamer.RebuiltFramed(rows);
    assert Renamer.Rebuilt(rows) == "" + Concat(all, Renamer.Framed);
    PiecesFramed([], "", all);
    var empty: string := [];
    assert empty + "" == "";
  }

  /** Each block of a rebuilt listing strips to the core of its row. */
  lemma BodiesStrip(rows: seq<Renamer.Row>)
    requires forall i | 0 <= i < |rows| :: Renamer.Clean(rows[i]) && Renamer.Filled(rows[i])
    ensures forall i | 0 <= i < |rows| :: NonBlank(Renamer.Bodies(rows)[i]) == Some(Cores(rows)[i])
  {
    forall i | 0 <= i < |rows| ensures NonBlank(Renamer.Bodies(rows)[i]) == Some(Cores(rows)[i]) {
      Renamer.CoreStripped(rows[i], false);
      StripPadded("\n", Renamer.Core(rows[i], false), "\n");
    }
  }

  /** Splitting a rebuilt listing at its `=` runs and dropping blank pieces leaves one record per row. */
  lemma RecordsRebuilt(rows: seq<Renamer.Row>)
    requires forall i | 0 <= i < |rows| :: Renamer.Clean(rows[i]) && Renamer.Filled(rows[i])
    ensures Records(Renamer.Rebuilt(rows)) == Cores(rows)
  {
    SplitRebuilt(rows);
    BodiesStrip(rows);
    StripAllSpace("");
    StripAllSpace("\n");
    Renamer.CollectedBetween(Renamer.Bodies(rows), NonBlank, Cores(rows));
  }

  /** Where a labelled line sits inside a longer text. */
  lemma FieldLine(pre: string, tag: string, v: string, rest: string)
    ensures var s := pre + (tag + " " + v + "\n" + rest);
            var p := |pre|;
            && p + |tag| + 1 + |v| < |s|
            && s[p..p + |tag|] == tag && s[p + |tag|] == ' '
            && s[p + |tag| + 1..p + |tag| + 1 + |v|] == v && s[p + |tag| + 1 + |v|] == '\n'
  {
  }

  lemma RegroupCore(a: string, b: string, c: string, t: string)
    ensures a + "\n" + b + "\n" + c + t == a + "\n" + (b + "\n" + (c + t))
    ensures a + "\n" + b + "\n" + c + t == "" + (a + "\n" + (b + "\n" + (c + t)))
    ensures a + "\n" + b + "\n" + c + t == (a + "\n") + (b + "\n" + (c + t))
  {
  }

  /** The file the poster reads from a written record is the record's path. */
  lemma FileOfCore(r: Renamer.Row)
    requires Postable(r)
    ensures FileField(Renamer.Core(r, false)) == r.path
  {
    var rest := Renamer.Line1(r) + "\n" + (Renamer.Line2(r) + Renamer.Tail(r, false));
    var s := "" + (Renamer.PathLabel + " " + r.path + "\n" + rest);
    assert Renamer.Core(r, false) == s by {
      RegroupCore(Renamer.Line0(r), Renamer.Line1(r), Renamer.Line2(r), Renamer.Tail(r, false));
    }
    assert r.path != [] && IsStripped(r.path) && forall m | 0 <= m < |r.path| :: r.path[m] != '\n';
    FieldLine("", Renamer.PathLabel, r.path, rest);
    Capture.CapturedField(s, 0, Renamer.PathLabel, r.path, false);
  }

  /** The number label does not occur in the path line of a written record. */
  lemma NumberLabelFirst(r: Renamer.Row)
    requires Postable(r)
    ensures forall j | 0 <= j < |Renamer.Line0(r) + "\n"| :: !LabelAt(Renamer.Core(r, false), j, Renamer.NumberLabel, true)
  {
    var rest := Renamer.Line2(r) + Renamer.Tail(r, false);
    RegroupCore(Renamer.Line0(r), Renamer.Line1(r), Renamer.Line2(r), Renamer.Tail(r, false));
    NoLabelInLine(Renamer.PathLabel + " ", r.path, Renamer.Line1(r) + "\n" + rest, Renamer.NumberLabel, true);
  }

  /** The number the poster reads from a written record is the record's number. */
  lemma NumberOfCore(r: Renamer.Row)
    requires Postable(r)
    ensures NumberField(Renamer.Core(r, false)) == r.number
  {
    var pre := Renamer.Line0(r) + "\n";
    var rest := Renamer.Line2(r) + Renamer.Tail(r, false);
    RegroupCore(Renamer.Line0(r), Renamer.Line1(r), Renamer.Line2(r), Renamer.Tail(r, false));
    FieldLine(pre, Renamer.NumberLabel, r.number, rest);
    NumberLabelFirst(r);
    Capture.CapturedField(Renamer.Core(r, false), |pre|, Renamer.NumberLabel, r.number, true);
  }

  /** The three header lines of a written record add nothing to the text. */
  lemma HeadersSilent(r: Renamer.Row)
    ensures Collected([Renamer.Line0(r), Renamer.Line1(r), Renamer.Line2(r)], TextLine) == []
  {
    var heads := [Renamer.Line0(r), Renamer.Line1(r), Renamer.Line2(r)];
    assert IsHeaderLine(heads[0]) by { assert heads[0][..|Renamer.PathLabel|] == Renamer.PathLabel; }
    assert IsHeaderLine(heads[1]) by { assert heads[1][..|Renamer.NumberLabel|] == Renamer.NumberLabel; }
    assert IsHeaderLine(heads[2]) by { assert heads[2][..|Renamer.DateLabel|] == Renamer.DateLabel; }
    CollectedNone(heads, TextLine);
  }

  /** The text the poster reads from a written record is what it reads from the record's text alone. */
  lemma TextOfCore(r: Renamer.Row)
    requires Renamer.Clean(r)
    ensures TextOf(Renamer.Core(r, false)) == TextOf(r.text)
  {
    var heads := [Renamer.Line0(r), Renamer.Line1(r), Renamer.Line2(r)];
    var lines := SplitLines(r.text);
    assert SplitLines(Renamer.Core(r, false)) == heads + lines by {
      Renamer.CoreLines(r, false);
    }
    assert Collected(heads + lines, TextLine) == Collected(lines, TextLine) by {
      HeadersSilent(r);
      CollectedAppend(heads, lines, TextLine);
    }
  }

  /**
   * What postar.py reads from the listing muda_nome.py writes: one tuple
   * per record, in order, carrying the record's path and number, the text
   * the record's own text yields, and an upload name equal to the name the
   * renamer gives the record's file.
   */
  lemma PostRebuilt(rows: seq<Renamer.Row>)
    requires forall i | 0 <= i < |rows| :: Postable(rows[i])
    ensures |Posts(Renamer.Rebuilt(rows))| == |rows|
    ensures forall i | 0 <= i < |rows| ::
              var p := Posts(Renamer.Rebuilt(rows))[i];
              && p.file == rows[i].path && p.number == rows[i].number && p.text == TextOf(rows[i].text)
              && UploadName(p) == SlashFreeName(rows[i].number)
  {
    RecordsRebuilt(rows);
    forall i | 0 <= i < |rows|
      ensures var p := ParseRecord(Cores(rows)[i]);
              p.file == rows[i].path && p.number == rows[i].number && p.text == TextOf(rows[i].text)
    {
      FileOfCore(rows[i]);
      NumberOfCore(rows[i]);
      TextOfCore(rows[i]);
    }
  }
}
