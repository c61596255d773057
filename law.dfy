/**
 * `extrair_informacoes` and the `__main__` pipeline of lei_complementar.py.
 *
 * The header pattern is
 * `LEI\s+COMPLEMENTAR\s+N\.?\s*[º°o]?\s*(\d+)\s+DE\s+(\d{1,2}\s+de\s+\w+\s+de\s+\d{4})`
 * matched without regard to case and searched for leftmost. The date is
 * not optional here and there is no fallback. Every run in the pattern is
 * greedy and followed by something its class cannot supply, and a number
 * of digits cannot begin at a dot, so at each position there is at most
 * one way to match: `LawHeaderAt` finds it whenever it exists.
 */
module Law {
  import opened Text
  import opened Dates
  import opened Headers
  import opened FileNames
  import opened Batch
  import opened Pipeline

  /** The first half of a header match: "complementar" at `complAt`, the `N` at `nAt`, the number s[lead.start..numEnd]. */
  datatype LawNumber = LawNumber(complAt: nat, nAt: nat, lead: Lead, numEnd: nat)

  /** `LEI\s+COMPLEMENTAR\s+N\.?\s*[º°o]?\s*(\d+)` matches at `i` with these boundaries, the digit run maximal. */
  ghost predicate NumberShape(s: string, i: nat, n: LawNumber) {
    && CiAt(s, i, "lei")
    && i + 3 < n.complAt && SpacesIn(s, i + 3, n.complAt) && CiAt(s, n.complAt, "complementar")
    && n.complAt + 12 < n.nAt < |s| && SpacesIn(s, n.complAt + 12, n.nAt) && Lower(s[n.nAt]) == 'n'
    && LeadPath(s, n.nAt + 1, n.lead, false)
    && n.lead.start < n.numEnd && NumRun(s, n.lead.start, n.numEnd, false)
  }

  /** `LEI\s+COMPLEMENTAR\s+N` at `i`: the positions of "complementar" and of the `N`. */
  function WordsAt(s: string, i: nat): (r: Option<(nat, nat)>)
    requires i <= |s|
    ensures r.Some? ==> i + 3 < r.value.0 && r.value.0 + 12 < r.value.1 < |s|
  {
    if !CiAt(s, i, "lei") then None
    else
      var a := SkipSpaces(s, i + 3);
      if a == i + 3 || !CiAt(s, a, "complementar") then None
      else
        var b := SkipSpaces(s, a + 12);
        if b == a + 12 || b >= |s| || Lower(s[b]) != 'n' then None
        else Some((a, b))
  }

  /** What `WordsAt` finds is the three words with whitespace between them. */
  lemma WordsAtSound(s: string, i: nat)
    requires i <= |s| && WordsAt(s, i).Some?
    ensures var (a, b) := WordsAt(s, i).value;
            && CiAt(s, i, "lei") && SpacesIn(s, i + 3, a) && CiAt(s, a, "complementar")
            && SpacesIn(s, a + 12, b) && Lower(s[b]) == 'n'
  {
  }

  /** The words before the number, with spaces between them, are found where they are. */
  lemma WordsAtComplete(s: string, i: nat, a: nat, b: nat)
    requires CiAt(s, i, "lei")
    requires i + 3 < a && SpacesIn(s, i + 3, a) && CiAt(s, a, "complementar")
    requires a + 12 < b < |s| && SpacesIn(s, a + 12, b) && Lower(s[b]) == 'n'
    ensures WordsAt(s, i) == Some((a, b))
  {
    assert "complementar"[0] == 'c';
    assert Lower(s[a + 0]) == 'c';
    LowerAsciiLetterNotSpace(s[a]);
    SkipSpacesUnique(s, i + 3, a);
    LowerAsciiLetterNotSpace(s[b]);
    SkipSpacesUnique(s, a + 12, b);
  }

  /** Scanner for the first half of the header, anchored at `i`. */
  function LawNumberAt(s: string, i: nat): (r: Option<LawNumber>)
    requires i <= |s|
    ensures r.Some? ==> r.value.lead.start < r.value.numEnd <= |s|
  {
    match WordsAt(s, i)
    case None => None
    case Some((a, b)) =>
      match LeadAfterN(s, b + 1, false)
      case None => None
      case Some(l) => Some(LawNumber(a, b, l, NumberEnd(s, l.start, false)))
  }

  lemma LawNumberAtSound(s: string, i: nat)
    requires i <= |s| && LawNumberAt(s, i).Some?
    ensures NumberShape(s, i, LawNumberAt(s, i).value)
  {
    LawNumberAtSteps(s, i);
    NumberShapeOf(s, i, LawNumberAt(s, i).value);
  }

  /** What the scanner found came from its three steps. */
  lemma LawNumberAtSteps(s: string, i: nat)
    requires i <= |s| && LawNumberAt(s, i).Some?
    ensures var n := LawNumberAt(s, i).value;
            && WordsAt(s, i) == Some((n.complAt, n.nAt)) && n.nAt < |s|
            && LeadAfterN(s, n.nAt + 1, false) == Some(n.lead) && n.lead.start <= |s|
            && NumberEnd(s, n.lead.start, false) == n.numEnd
  {
  }

  /** The results of the three steps form a match of the number part. */
  lemma NumberShapeOf(s: string, i: nat, n: LawNumber)
    requires i <= |s| && WordsAt(s, i) == Some((n.complAt, n.nAt)) && n.nAt < |s|
    requires LeadAfterN(s, n.nAt + 1, false) == Some(n.lead) && n.lead.start <= |s|
    requires NumberEnd(s, n.lead.start, false) == n.numEnd
    ensures NumberShape(s, i, n)
  {
    WordsAtSound(s, i);
    LeadAfterNSound(s, n.nAt + 1, false);
    NumberEndRun(s, n.lead.start, false);
  }

  lemma LawNumberAtComplete(s: string, i: nat, n: LawNumber)
    requires NumberShape(s, i, n)
    ensures LawNumberAt(s, i) == Some(n)
  {
    WordsAtComplete(s, i, n.complAt, n.nAt);
    DigitLeadUnique(s, n.nAt + 1, n.lead);
    NumberEndUnique(s, n.lead.start, n.numEnd, false);
    LawNumberAtOf(s, i, n);
  }

  /** The scanner's result is determined by the results of its three steps. */
  lemma LawNumberAtOf(s: string, i: nat, n: LawNumber)
    requires i <= |s| && WordsAt(s, i) == Some((n.complAt, n.nAt)) && n.nAt < |s|
    requires LeadAfterN(s, n.nAt + 1, false) == Some(n.lead) && n.lead.start <= |s|
    requires NumberEnd(s, n.lead.start, false) == n.numEnd
    ensures LawNumberAt(s, i) == Some(n)
  {
    assert n == LawNumber(n.complAt, n.nAt, n.lead, n.numEnd);
  }

  /** A header match: "lei" at `start`, the number part, "DE" at `deAt`, the date phrase. */
  datatype LawHeader = LawHeader(start: nat, num: LawNumber, deAt: nat, date: DatePos) {
    function End(): nat { date.End() }
  }

  /** `h` is a match of the whole header pattern at `i`. */
  ghost predicate LawShape(s: string, i: nat, h: LawHeader) {
    && h.start == i && NumberShape(s, i, h.num)
    && h.num.numEnd < h.deAt && SpacesIn(s, h.num.numEnd, h.deAt) && DeAt(s, h.deAt)
    && h.deAt + 2 < h.date.Start() && SpacesIn(s, h.deAt + 2, h.date.Start())
    && DateShape(s, h.date.Start(), h.date) && h.End() <= |s|
  }

  /** The positions of a header found at `i` lie in order inside `s`. */
  predicate LawBounds(s: string, i: nat, h: LawHeader) {
    h.start == i && h.num.lead.start < h.num.numEnd < h.date.Start() < h.End() <= |s|
  }

  /** The header pattern anchored at `i`. */
  function LawHeaderAt(s: string, i: nat): (r: Option<LawHeader>)
    requires i <= |s|
    ensures r.Some? ==> LawBounds(s, i, r.value)
  {
    match LawNumberAt(s, i)
    case None => None
    case Some(n) =>
      match DeSeparator(s, n.numEnd, true)
      case None => None
      case Some(v) =>
        match DateAt(s, v)
        case None => None
        case Some(p) => Some(LawHeader(i, n, SkipSpaces(s, n.numEnd), p))
  }

  /** What `LawHeaderAt` finds is a match of the pattern. */
  lemma LawHeaderAtSound(s: string, i: nat)
    requires i <= |s| && LawHeaderAt(s, i).Some?
    ensures LawShape(s, i, LawHeaderAt(s, i).value)
  {
    LawNumberAtSound(s, i);
  }

  /** Every match of the pattern at `i` is the one `LawHeaderAt` finds. */
  lemma LawHeaderAtComplete(s: string, i: nat, h: LawHeader)
    requires LawShape(s, i, h)
    ensures LawHeaderAt(s, i) == Some(h)
  {
    LawNumberAtComplete(s, i, h.num);
    assert IsDigit(s[h.date.Start()]);
    DeSeparatorComplete(s, h.num.numEnd, h.deAt, h.date.Start(), true);
    DeNotSpace(s, h.deAt);
    SkipSpacesUnique(s, h.num.numEnd, h.deAt);
    DateComplete(s, h.date.Start(), h.date);
  }

  /** The anchored match at every position of `s`. */
  function LawTable(s: string): (r: seq<Option<LawHeader>>)
    ensures |r| == |s| + 1 && forall j | 0 <= j <= |s| :: r[j] == LawHeaderAt(s, j)
  {
    seq(|s| + 1, j requires 0 <= j <= |s| => LawHeaderAt(s, j))
  }

  /** `re.search` for the header from `from`. */
  function SearchLawHeader(s: string, from: nat): (r: Option<LawHeader>)
    requires from <= |s|
    ensures r.Some? ==> from <= r.value.start <= |s| && LawBounds(s, r.value.start, r.value)
  {
    match FirstSome(LawTable(s), from)
    case None => None
    case Some(k) => LawHeaderAt(s, k)
  }

  /** The search returns the match at the leftmost position from `from`, or nothing when there is none. */
  lemma SearchLawHeaderLeftmost(s: string, from: nat)
    requires from <= |s|
    ensures var r := SearchLawHeader(s, from);
            && (r.Some? ==> LawHeaderAt(s, r.value.start) == r)
            && (r.Some? ==> forall j | from <= j < r.value.start :: LawHeaderAt(s, j).None?)
            && (r.None? ==> forall j | from <= j <= |s| :: LawHeaderAt(s, j).None?)
  {
  }

  /** What a header found at `h.start` yields: its number, its date, the excerpt after it. */
  function LawInfo(s: string, h: LawHeader, tokenize: string -> seq<string>): (r: Info)
    requires LawBounds(s, h.start, h)
    ensures r.number.Some? && r.number.value != []
  {
    Info(Some(s[h.num.lead.start..h.num.numEnd]), FormatDate(PhraseText(s, h.date)), Excerpt(s, h.End(), tokenize))
  }

  /** `extrair_informacoes` of lei_complementar.py; `tokenize` stands for `word_tokenize`. */
  function ExtractLaw(s: string, tokenize: string -> seq<string>): (r: Info)
    ensures r.number.None? ==> r.date == Sentinel && r.excerpt == Excerpt(s, 0, tokenize)
    ensures r.number.Some? ==> r.number.value != []
  {
    match SearchLawHeader(s, 0)
    case None => Info(None, Sentinel, Excerpt(s, 0, tokenize))
    case Some(h) => LawInfo(s, h, tokenize)
  }

  /** No number is extracted exactly when the header pattern matches nowhere in the text. */
  lemma LawAbsent(s: string, tokenize: string -> seq<string>)
    ensures ExtractLaw(s, tokenize).number.None? <==> forall i | 0 <= i <= |s| :: LawHeaderAt(s, i).None?
  {
  }

  /**
   * When a header is found it is the leftmost match; the number is its
   * digits, the date is the header's own date phrase normalised, and the
   * excerpt starts where the match ends.
   */
  lemma LawFound(s: string, tokenize: string -> seq<string>)
    requires SearchLawHeader(s, 0).Some?
    ensures var h := SearchLawHeader(s, 0).value;
            && LawShape(s, h.start, h)
            && (forall j | 0 <= j < h.start :: LawHeaderAt(s, j).None?)
            && ExtractLaw(s, tokenize) == Info(Some(s[h.num.lead.start..h.num.numEnd]), IsoOf(s, h.date), Excerpt(s, h.End(), tokenize))
  {
    var h := SearchLawHeader(s, 0).value;
    SearchLawHeaderLeftmost(s, 0);
    LawHeaderAtSound(s, h.start);
    assert LawShape(s, h.start, h);
    FormatPhraseText(s, h.date);
    assert ExtractLaw(s, tokenize) == LawInfo(s, h, tokenize);
  }

  /** OCR of a file (`ocr`) followed by `extrair_informacoes`: what the driver loop extracts per file. */
  function LawExtractor(ocr: string -> string, tokenize: string -> seq<string>): string -> Info
  {
    f => ExtractLaw(ocr(f), tokenize)
  }
}
