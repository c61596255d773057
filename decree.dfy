/**
 * `extrair_informacoes` and `processar_em_blocos` of decreto.py.
 *
 * The header pattern is
 * `DECRETO\s+N\.?\s*[º°o]?\s*([\d.,]+)(?:\s*DE\s+(\d{1,2}\s+de\s+\w+(?:\s+de\s+\d{4})?))?`
 * matched without regard to case and searched for leftmost. The number run
 * and the month word are greedy and nothing after them can extend a match
 * of their class, so the only choice the engine makes is whether `\.?`
 * takes a dot (see `Headers.LeadAfterN`).
 */
module Decree {
  import opened Text
  import opened Dates
  import opened Headers
  import opened FileNames
  import opened Batch
  import opened Pipeline

  /** The optional date clause: "DE", then day and month word, then maybe "de" and a year. */
  datatype Clause = Clause(start: nat, dm: DayMonthPos, year: Option<YearPos>) {
    function End(): nat {
      match year
      case None => dm.monthEnd
      case Some(y) => y.yearStart + 4
    }
  }

  /**
   * The part of a header match up to the number: "decreto" at `start`, the
   * `N` at `nAt`, the number s[lead.start..numEnd]. The date clause after it
   * is optional and never makes the match fail, so the header pattern
   * matches at a position exactly when this part does.
   */
  datatype NumberMatch = NumberMatch(start: nat, nAt: nat, lead: Lead, numEnd: nat)

  /** A whole header match: the number part and the clause as the engine takes it. */
  datatype Header = Header(start: nat, nAt: nat, lead: Lead, numEnd: nat, clause: Option<Clause>) {
    function End(): nat {
      match clause
      case None => numEnd
      case Some(c) => c.End()
    }
  }

  /** `(?:\s*DE\s+(\d{1,2}\s+de\s+\w+(?:\s+de\s+\d{4})?))?` after the number ending at `j`. */
  function ClauseAt(s: string, j: nat): (r: Option<Clause>)
    requires j <= |s|
    ensures r.Some? ==> j < r.value.start && DayMonthShape(s, r.value.start, r.value.dm)
    ensures r.Some? ==> match r.value.year
                        case None => YearTailAt(s, r.value.dm.monthEnd).None?
                        case Some(y) => YearShape(s, r.value.dm.monthEnd, y)
    ensures r.Some? ==> r.value.End() <= |s|
  {
    match DeSeparator(s, j, false)
    case None => None
    case Some(v) =>
      match DayMonthAt(s, v)
      case None => None
      case Some(dm) => Some(Clause(v, dm, YearTailAt(s, dm.monthEnd)))
  }

  /** `DECRETO\s+N\.?\s*[º°o]?\s*([\d.,]+)` matches at `i` with these boundaries, the number run maximal. */
  ghost predicate NumberShape(s: string, i: nat, m: NumberMatch) {
    && m.start == i && CiAt(s, i, "decreto")
    && i + 7 < m.nAt < |s| && SpacesIn(s, i + 7, m.nAt) && Lower(s[m.nAt]) == 'n'
    && LeadPath(s, m.nAt + 1, m.lead, true)
    && m.lead.start < m.numEnd && NumRun(s, m.lead.start, m.numEnd, true)
  }

  /** `DECRETO\s+N` at `i`: the position of the `N`. */
  function WordsAt(s: string, i: nat): (r: Option<nat>)
    requires i <= |s|
    ensures r.Some? ==> i + 7 < r.value < |s|
  {
    if !CiAt(s, i, "decreto") then None
    else
      var a := SkipSpaces(s, i + 7);
      if a == i + 7 || a >= |s| || Lower(s[a]) != 'n' then None
      else Some(a)
  }

  /** What `WordsAt` finds is "decreto", whitespace and an `N`. */
  lemma WordsAtSound(s: string, i: nat)
    requires i <= |s| && WordsAt(s, i).Some?
    ensures CiAt(s, i, "decreto") && SpacesIn(s, i + 7, WordsAt(s, i).value) && Lower(s[WordsAt(s, i).value]) == 'n'
  {
  }

  /** "decreto", whitespace and an `N` are found where they are. */
  lemma WordsAtComplete(s: string, i: nat, nAt: nat)
    requires CiAt(s, i, "decreto") && i + 7 < nAt < |s| && SpacesIn(s, i + 7, nAt) && Lower(s[nAt]) == 'n'
    ensures WordsAt(s, i) == Some(nAt)
  {
    LowerAsciiLetterNotSpace(s[nAt]);
    SkipSpacesUnique(s, i + 7, nAt);
  }

  /** The number part of the header pattern anchored at `i`. */
  function NumberAt(s: string, i: nat): (r: Option<NumberMatch>)
    requires i <= |s|
    ensures r.Some? ==> r.value.start == i && r.value.lead.start < r.value.numEnd <= |s|
  {
    match WordsAt(s, i)
    case None => None
    case Some(a) =>
      match LeadAfterN(s, a + 1, true)
      case None => None
      case Some(l) => Some(NumberMatch(i, a, l, NumberEnd(s, l.start, true)))
  }

  /** What `NumberAt` finds is a match of the pattern, with the number run maximal. */
  lemma NumberAtSound(s: string, i: nat)
    requires i <= |s| && NumberAt(s, i).Some?
    ensures NumberShape(s, i, NumberAt(s, i).value)
  {
    NumberAtSteps(s, i);
    NumberShapeOf(s, i, NumberAt(s, i).value);
  }

  /** What the scanner found came from its two steps and the end of the digit run. */
  lemma NumberAtSteps(s: string, i: nat)
    requires i <= |s| && NumberAt(s, i).Some?
    ensures var m := NumberAt(s, i).value;
            && m.start == i && WordsAt(s, i) == Some(m.nAt) && m.nAt < |s|
            && LeadAfterN(s, m.nAt + 1, true) == Some(m.lead) && m.lead.start <= |s|
            && NumberEnd(s, m.lead.start, true) == m.numEnd
  {
  }

  /** The results of the steps form a match of the number part. */
  lemma NumberShapeOf(s: string, i: nat, m: NumberMatch)
    requires i <= |s| && m.start == i && WordsAt(s, i) == Some(m.nAt) && m.nAt < |s|
    requires LeadAfterN(s, m.nAt + 1, true) == Some(m.lead) && m.lead.start <= |s|
    requires NumberEnd(s, m.lead.start, true) == m.numEnd
    ensures NumberShape(s, i, m)
  {
    WordsAtSound(s, i);
    LeadAfterNSound(s, m.nAt + 1, true);
    NumberEndRun(s, m.lead.start, true);
  }

  /** The header matches at `i` whenever "decreto", whitespace, "N" and some lead to a number are there. */
  lemma NumberAtComplete(s: string, i: nat, nAt: nat, l: Lead)
    requires CiAt(s, i, "decreto") && i + 7 < nAt < |s| && SpacesIn(s, i + 7, nAt) && Lower(s[nAt]) == 'n'
    requires LeadPath(s, nAt + 1, l, true)
    ensures NumberAt(s, i).Some? && NumberAt(s, i).value.nAt == nAt
    ensures l.dot ==> NumberAt(s, i).value.lead == l
  {
    WordsAtComplete(s, i, nAt);
    LeadAfterNComplete(s, nAt + 1, l, true);
    NumberAtOf(s, i, nAt, LeadAfterN(s, nAt + 1, true).value);
  }

  /** The scanner's result is determined by the results of its two steps. */
  lemma NumberAtOf(s: string, i: nat, a: nat, l: Lead)
    requires i <= |s| && WordsAt(s, i) == Some(a) && a < |s|
    requires LeadAfterN(s, a + 1, true) == Some(l) && l.start <= |s|
    ensures NumberAt(s, i) == Some(NumberMatch(i, a, l, NumberEnd(s, l.start, true)))
  {
  }

  /** The anchored match at every position of `s`. */
  function NumberTable(s: string): (r: seq<Option<NumberMatch>>)
    ensures |r| == |s| + 1 && forall j | 0 <= j <= |s| :: r[j] == NumberAt(s, j)
  {
    seq(|s| + 1, j requires 0 <= j <= |s| => NumberAt(s, j))
  }

  /** `re.search` for the header from `from`: where it starts and its number part. */
  function SearchNumber(s: string, from: nat): (r: Option<NumberMatch>)
    requires from <= |s|
    ensures r.Some? ==> from <= r.value.start <= |s| && r.value.lead.start < r.value.numEnd <= |s|
  {
    match FirstSome(NumberTable(s), from)
    case None => None
    case Some(k) => NumberAt(s, k)
  }

  /** The search returns the match at the leftmost position from `from`, or nothing when there is none. */
  lemma SearchNumberLeftmost(s: string, from: nat)
    requires from <= |s|
    ensures var r := SearchNumber(s, from);
            && (r.Some? ==> NumberAt(s, r.value.start) == r)
            && (r.Some? ==> forall j | from <= j < r.value.start :: NumberAt(s, j).None?)
            && (r.None? ==> forall j | from <= j <= |s| :: NumberAt(s, j).None?)
  {
  }

  /** The positions of a header lie in order inside `s`. */
  predicate HeaderBounds(s: string, h: Header) {
    && h.lead.start < h.numEnd <= |s| && h.End() <= |s|
    && (h.clause.Some? ==> h.numEnd < h.clause.value.start < h.clause.value.End())
  }

  /** The whole match: the number part followed by the clause the engine takes after it. */
  function WithClause(s: string, m: NumberMatch): (h: Header)
    requires m.lead.start < m.numEnd <= |s|
    ensures HeaderBounds(s, h)
  {
    Header(m.start, m.nAt, m.lead, m.numEnd, ClauseAt(s, m.numEnd))
  }

  /** The leftmost header match, when there is one. */
  function FirstHeader(s: string): (r: Option<Header>)
    ensures r.Some? ==> HeaderBounds(s, r.value)
  {
    match SearchNumber(s, 0)
    case None => None
    case Some(m) => Some(WithClause(s, m))
  }

  /** `de\s+\d{4}` at `j`, case-sensitive. */
  predicate DeYearAt(t: string, j: nat) {
    j + 2 <= |t| && t[j] == 'd' && t[j + 1] == 'e'
    && var y := SkipSpaces(t, j + 2); y > j + 2 && DigitsIn(t, y, y + 4)
  }

  /** `re.search(r"de\s+\d{4}", t)` succeeds. */
  function HasDeYear(t: string, from: nat): (r: bool)
    requires from <= |t|
    ensures r <==> exists j :: from <= j <= |t| && DeYearAt(t, j)
    decreases |t| - from
  {
    if DeYearAt(t, from) then true
    else if from == |t| then false
    else
      var r := HasDeYear(t, from + 1);
      assert r <==> exists j :: from <= j <= |t| && DeYearAt(t, j) by {
        if exists j :: from <= j <= |t| && DeYearAt(t, j) {
          var j :| from <= j <= |t| && DeYearAt(t, j);
          assert j != from;
        }
      }
      r
  }

  /** `Aracaju,\s*(\d{1,2}\s+de\s+\w+\s+de\s+\d{4})` anchored at `i`, ignoring case. */
  function AracajuAt(s: string, i: nat): (r: Option<DatePos>)
    requires i <= |s|
    ensures r.Some? ==> CiAt(s, i, "aracaju,") && SpacesIn(s, i + 8, r.value.Start())
    ensures r.Some? ==> DateAt(s, r.value.Start()) == r
  {
    if CiAt(s, i, "aracaju,") then DateAt(s, SkipSpaces(s, i + 8)) else None
  }

  /** The anchored "Aracaju," match at every position of `s`. */
  function AracajuTable(s: string): (r: seq<Option<DatePos>>)
    ensures |r| == |s| + 1 && forall j | 0 <= j <= |s| :: r[j] == AracajuAt(s, j)
  {
    seq(|s| + 1, j requires 0 <= j <= |s| => AracajuAt(s, j))
  }

  /** `re.search` for the "Aracaju," date line: the date of the leftmost match. */
  function SearchAracaju(s: string, from: nat): (r: Option<DatePos>)
    requires from <= |s|
    ensures r.Some? ==> exists i :: from <= i <= |s| && AracajuAt(s, i) == r && forall j | from <= j < i :: AracajuAt(s, j).None?
    ensures r.Some? ==> DateAt(s, r.value.Start()) == r
    ensures r.None? ==> forall i | from <= i <= |s| :: AracajuAt(s, i).None?
  {
    match FirstSome(AracajuTable(s), from)
    case None => None
    case Some(k) => AracajuAt(s, k)
  }

  /** `match_header.group(2)`: the clause text, or "" when the clause is absent. */
  function ClauseText(s: string, h: Header): (r: string)
    requires h.End() <= |s|
    requires h.clause.Some? ==> h.clause.value.start <= h.clause.value.End()
  {
    match h.clause
    case None => ""
    case Some(c) => s[c.start..c.End()]
  }

  /**
   * The date text the decree uses: the clause, unless it is non-empty and
   * has no lower-case "de" followed by a year, in which case the first
   * "Aracaju," date replaces it when there is one.
   */
  function DatePart(s: string, part: string): string {
    if part != "" && !HasDeYear(part, 0) then
      match SearchAracaju(s, 0)
      case Some(p) => PhraseText(s, p)
      case None => part
    else part
  }

  /** The normalised date of a header: the date part's phrase, or the sentinel when the part is empty. */
  function HeaderDate(s: string, h: Header): (r: string)
    requires HeaderBounds(s, h)
    ensures IsIsoShaped(r)
  {
    var part := DatePart(s, ClauseText(s, h));
    if part != "" then FormatDate(part) else Sentinel
  }

  /** What a header found at `h.start` yields: its number, its date, the excerpt after it. */
  function DecreeInfo(s: string, h: Header, tokenize: string -> seq<string>): (r: Info)
    requires HeaderBounds(s, h)
    ensures r.number.Some? && r.number.value != []
  {
    var number := s[h.lead.start..h.numEnd];
    assert |number| > 0;
    var date: IsoDate := HeaderDate(s, h);
    Info(Some(number), date, Excerpt(s, h.End(), tokenize))
  }

  /** `extrair_informacoes` of decreto.py; `tokenize` stands for `word_tokenize`. */
  function ExtractDecree(s: string, tokenize: string -> seq<string>): (r: Info)
    ensures r.number.None? ==> r.date == Sentinel && r.excerpt == Excerpt(s, 0, tokenize)
    ensures r.number.Some? ==> r.number.value != []
  {
    match FirstHeader(s)
    case None => Info(None, Sentinel, Excerpt(s, 0, tokenize))
    case Some(h) => DecreeInfo(s, h, tokenize)
  }

  /** No number is extracted exactly when the header pattern matches nowhere in the text. */
  lemma DecreeAbsent(s: string, tokenize: string -> seq<string>)
    ensures ExtractDecree(s, tokenize).number.None? <==> forall i | 0 <= i <= |s| :: NumberAt(s, i).None?
  {
    SearchNumberLeftmost(s, 0);
  }

  /**
   * When a header is found, it is the leftmost match; the number is its
   * maximal run of digits, dots and commas, the clause is the one the
   * engine takes after it, and the excerpt starts where the match ends.
   */
  lemma DecreeFound(s: string, tokenize: string -> seq<string>)
    requires FirstHeader(s).Some?
    ensures var h := FirstHeader(s).value;
            && NumberShape(s, h.start, NumberMatch(h.start, h.nAt, h.lead, h.numEnd))
            && h.clause == ClauseAt(s, h.numEnd)
            && (forall j | 0 <= j < h.start :: NumberAt(s, j).None?)
            && ExtractDecree(s, tokenize) == Info(Some(s[h.lead.start..h.numEnd]), HeaderDate(s, h), Excerpt(s, h.End(), tokenize))
  {
    var m := SearchNumber(s, 0).value;
    SearchNumberLeftmost(s, 0);
    NumberAtSound(s, m.start);
  }

  /** A header without a date clause gives the sentinel date; the excerpt starts after the number. */
  lemma NoClauseSentinel(s: string, tokenize: string -> seq<string>)
    requires FirstHeader(s).Some? && FirstHeader(s).value.clause.None?
    ensures ExtractDecree(s, tokenize).date == Sentinel
    ensures ExtractDecree(s, tokenize).excerpt == Excerpt(s, FirstHeader(s).value.numEnd, tokenize)
  {
  }

  /** A clause whose year is introduced by a lower-case "de" is normalised as is. */
  lemma ClauseWithYear(s: string, tokenize: string -> seq<string>)
    requires FirstHeader(s).Some? && FirstHeader(s).value.clause.Some?
    requires HasDeYear(ClauseText(s, FirstHeader(s).value), 0)
    ensures ExtractDecree(s, tokenize).date == FormatDate(ClauseText(s, FirstHeader(s).value))
  {
  }

  /** A clause without a lower-case "de yyyy" gives way to the first "Aracaju," date. */
  lemma ClauseReplacedByAracaju(s: string, tokenize: string -> seq<string>)
    requires FirstHeader(s).Some? && FirstHeader(s).value.clause.Some?
    requires !HasDeYear(ClauseText(s, FirstHeader(s).value), 0)
    requires SearchAracaju(s, 0).Some?
    ensures ExtractDecree(s, tokenize).date == IsoOf(s, SearchAracaju(s, 0).value)
  {
    DecreeFound(s, tokenize);
    AracajuDate(s, FirstHeader(s).value);
  }

  lemma AracajuDate(s: string, h: Header)
    requires HeaderBounds(s, h) && h.clause.Some?
    requires !HasDeYear(ClauseText(s, h), 0)
    requires SearchAracaju(s, 0).Some?
    ensures HeaderDate(s, h) == IsoOf(s, SearchAracaju(s, 0).value)
  {
    var p := SearchAracaju(s, 0).value;
    var part := ClauseText(s, h);
    assert |part| > 0;
    assert DatePart(s, part) == PhraseText(s, p);
    assert |PhraseText(s, p)| > 0;
    FormatPhraseText(s, p);
  }

  /** A clause with no year at all, and no "Aracaju," date in the text, leaves the date unknown. */
  lemma ClauseWithoutYear(s: string, tokenize: string -> seq<string>)
    requires FirstHeader(s).Some? && FirstHeader(s).value.clause.Some?
    requires FirstHeader(s).value.clause.value.year.None?
    requires SearchAracaju(s, 0).None?
    ensures ExtractDecree(s, tokenize).date == Sentinel
  {
    var c := FirstHeader(s).value.clause.value;
    var q := DayMonthInSlice(s, c.dm, c.End());
    FormatDayMonthOnly(s[c.start..c.End()], q);
  }

  /**
   * A clause with no lower-case "de yyyy" (its year after an upper-case
   * "DE", say) and no "Aracaju," date in the text is normalised as it stands.
   */
  lemma ClauseKeptWithoutAracaju(s: string, tokenize: string -> seq<string>)
    requires FirstHeader(s).Some? && FirstHeader(s).value.clause.Some?
    requires !HasDeYear(ClauseText(s, FirstHeader(s).value), 0)
    requires SearchAracaju(s, 0).None?
    ensures ExtractDecree(s, tokenize).date == FormatDate(ClauseText(s, FirstHeader(s).value))
  {
    DecreeFound(s, tokenize);
  }

  /**
   * A clause that carries its year and is normalised as it stands (it has a
   * lower-case "de yyyy", or there is no "Aracaju," date to replace it)
   * gives the clause's own day, month and year, whatever the case of "DE".
   */
  lemma ClauseDate(s: string, tokenize: string -> seq<string>)
    requires FirstHeader(s).Some? && FirstHeader(s).value.clause.Some?
    requires FirstHeader(s).value.clause.value.year.Some?
    requires HasDeYear(ClauseText(s, FirstHeader(s).value), 0) || SearchAracaju(s, 0).None?
    ensures var c := FirstHeader(s).value.clause.value;
            ExtractDecree(s, tokenize).date == IsoOf(s, DatePos(c.dm, c.year.value))
  {
    var h := FirstHeader(s).value;
    if HasDeYear(ClauseText(s, h), 0) {
      ClauseWithYear(s, tokenize);
    } else {
      ClauseKeptWithoutAracaju(s, tokenize);
    }
    DecreeFound(s, tokenize);
    ClausePhrase(s, h);
  }

  /** A clause that carries its year is a full date phrase, normalised to the date it denotes. */
  lemma ClausePhrase(s: string, h: Header)
    requires HeaderBounds(s, h) && h.clause.Some? && h.clause.value.year.Some?
    requires h.clause == ClauseAt(s, h.numEnd)
    ensures FormatDate(ClauseText(s, h)) == IsoOf(s, DatePos(h.clause.value.dm, h.clause.value.year.value))
  {
    var c := h.clause.value;
    var p := DatePos(c.dm, c.year.value);
    assert DateShape(s, p.Start(), p);
    assert ClauseText(s, h) == PhraseText(s, p);
    FormatPhraseText(s, p);
  }

  /** OCR of a file (`ocr`) followed by `extrair_informacoes`: what `processar_em_blocos` extracts per file. */
  function DecreeExtractor(ocr: string -> string, tokenize: string -> seq<string>): string -> Info
  {
    f => ExtractDecree(ocr(f), tokenize)
  }
}
