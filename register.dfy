/**
 * `extrair_elementos` and `post_documento` of cadastrar.py. The listing is
 * split at every line of `=` that stands between two line breaks; every
 * block that is not blank is searched for a document number, a date
 * written `yyyy-mm-dd` and an excerpt; a block holding all three becomes
 * an element, and each element is sent as one payload of type PORTARIA.
 */
module Register {
  import opened Text
  import opened Dates
  import opened Capture
  import Batch
  import Ordinance

  // ---------------------------------------------------------------------
  // re.split(r'\n=+\n', conteudo)
  // ---------------------------------------------------------------------

  /** The end of the run of `=` that starts at `i`. */
  function EqualsEnd(s: string, i: nat): (j: nat)
    requires i <= |s|
    ensures i <= j <= |s|
    ensures forall k | i <= k < j :: s[k] == '='
    ensures j == |s| || s[j] != '='
    decreases |s| - i
  {
    if i < |s| && s[i] == '=' then EqualsEnd(s, i + 1) else i
  }

  /**
   * The length of the match of `\n=+\n` at the start of `s`, if there is
   * one. `=+` is greedy, and giving an `=` back would leave an `=` where
   * the closing line break must be, so the whole run is taken or nothing.
   */
  function DelimiterLen(s: string): (r: Option<nat>)
    ensures r.Some? ==> 3 <= r.value <= |s| && s[0] == '\n' && s[r.value - 1] == '\n'
    ensures r.Some? ==> forall k | 1 <= k < r.value - 1 :: s[k] == '='
  {
    if |s| >= 2 && s[0] == '\n' && s[1] == '=' then
      var e := EqualsEnd(s, 1);
      if e < |s| && s[e] == '\n' then Some(e + 1) else None
    else None
  }

  /** A line break, one or more `=` and a line break at the start of `s` are recognised, with their length. */
  lemma DelimiterComplete(s: string, n: nat)
    requires 3 <= n <= |s| && s[0] == '\n' && s[n - 1] == '\n'
    requires forall k | 1 <= k < n - 1 :: s[k] == '='
    ensures DelimiterLen(s) == Some(n)
  {
    var e := EqualsEnd(s, 1);
    assert e == n - 1;
  }

  /**
   * The blocks `re.split` leaves when the current block so far is `acc`
   * and `s` is still to be scanned: the leftmost delimiter ends the block
   * and scanning resumes after its closing line break.
   */
  function Blocks(acc: string, s: string): (r: seq<string>)
    ensures |r| >= 1
    decreases |s|
  {
    if s == [] then [acc]
    else
      match DelimiterLen(s)
      case Some(n) => [acc] + Blocks([], s[n..])
      case None => Blocks(acc + [s[0]], s[1..])
  }

  /** `re.split(r'\n=+\n', conteudo)`. */
  function SplitBlocks(content: string): (r: seq<string>)
    ensures |r| >= 1
  {
    Blocks([], content)
  }

  /** A delimiter line with its two line breaks. */
  predicate IsSeparator(sep: string) {
    |sep| >= 3 && sep[0] == '\n' && sep[|sep| - 1] == '\n' && forall k | 1 <= k < |sep| - 1 :: sep[k] == '='
  }

  /** Text without `=` joins the current block when what follows it does not start with `=`. */
  lemma {:induction false} BlocksPlain(acc: string, x: string, y: string)
    requires '=' !in x
    requires y == [] || y[0] != '='
    ensures Blocks(acc, x + y) == Blocks(acc + x, y)
    decreases |x|
  {
    if x == [] {
      assert x + y == y && acc + x == acc;
    } else {
      var s := x + y;
      assert s[0] == x[0] && s[1..] == x[1..] + y;
      assert DelimiterLen(s).None? by {
        if |s| >= 2 {
          if |x| >= 2 {
            assert s[1] == x[1];
          } else {
            assert s[1] == y[0];
          }
        }
      }
      BlocksPlain(acc + [x[0]], x[1..], y);
      assert acc + [x[0]] + x[1..] == acc + x;
    }
  }

  /** A separator ends the current block. */
  lemma BlocksSeparator(acc: string, sep: string, y: string)
    requires IsSeparator(sep)
    ensures Blocks(acc, sep + y) == [acc] + Blocks([], y)
  {
    var s := sep + y;
    assert forall k | 1 <= k < |sep| - 1 :: s[k] == sep[k];
    DelimiterComplete(s, |sep|);
    assert s[|sep|..] == y;
  }

  /** `sep.join(bs)` of blocks free of `=` splits back into those blocks, the first one after `acc`. */
  lemma {:induction false} BlocksJoined(acc: string, bs: seq<string>, sep: string)
    requires IsSeparator(sep) && bs != []
    requires forall i | 0 <= i < |bs| :: '=' !in bs[i]
    ensures Blocks(acc, Join(bs, sep)) == [acc + bs[0]] + bs[1..]
    decreases |bs|
  {
    if |bs| == 1 {
      BlocksPlain(acc, bs[0], []);
      assert bs[0] + [] == bs[0];
    } else {
      var rest := Join(bs[1..], sep);
      assert Join(bs, sep) == bs[0] + (sep + rest) by { AppendAssoc(bs[0], sep, rest); }
      assert Blocks(acc, bs[0] + (sep + rest)) == [acc + bs[0]] + Blocks([], rest) by {
        BlocksPlain(acc, bs[0], sep + rest);
        BlocksSeparator(acc + bs[0], sep, rest);
      }
      assert Blocks([], rest) == bs[1..] by {
        BlocksJoined([], bs[1..], sep);
        assert [] + bs[1] == bs[1];
        assert [bs[1]] + bs[2..] == bs[1..];
      }
    }
  }

  /** Splitting undoes joining with a delimiter line, as long as no block holds an `=`. */
  lemma SplitJoined(bs: seq<string>, sep: string)
    requires IsSeparator(sep) && bs != []
    requires forall i | 0 <= i < |bs| :: '=' !in bs[i]
    ensures SplitBlocks(Join(bs, sep)) == bs
  {
    BlocksJoined([], bs, sep);
    assert [] + bs[0] == bs[0];
    assert [bs[0]] + bs[1..] == bs;
  }

  // ---------------------------------------------------------------------
  // The three searches
  // ---------------------------------------------------------------------

  const DocumentLabel: string := "Número documento:"
  const DateLabel: string := "Data:"
  const ExcerptLabel: string := "Trecho capturado:"

  /**
   * `Data:\s*(\d{4}-\d{2}-\d{2})` anchored at `i`: where its group starts.
   * The group starts with a digit, which `\s` does not match, so the
   * whitespace run is taken whole.
   */
  function IsoAt(s: string, i: nat): (r: Option<nat>)
    requires i <= |s|
    ensures r.Some? ==> OccursAt(s, i, DateLabel) && i + |DateLabel| <= r.value && r.value + 10 <= |s|
    ensures r.Some? ==> (forall m | i + |DateLabel| <= m < r.value :: IsSpace(s[m])) && IsIsoShaped(s[r.value..r.value + 10])
  {
    if !OccursAt(s, i, DateLabel) then None
    else
      var k := SkipSpaces(s, i + |DateLabel|);
      if k + 10 <= |s| && IsIsoShaped(s[k..k + 10]) then Some(k) else None
  }

  /** Every way of matching the pattern at `i` is the one found. */
  lemma IsoComplete(s: string, i: nat, k: nat)
    requires OccursAt(s, i, DateLabel) && i + |DateLabel| <= k && k + 10 <= |s|
    requires forall m | i + |DateLabel| <= m < k :: IsSpace(s[m])
    requires IsIsoShaped(s[k..k + 10])
    ensures IsoAt(s, i) == Some(k)
  {
    assert IsDigit(s[k]) by {
      assert s[k] == s[k..k + 10][..4][0];
    }
    assert !IsSpace(s[k]);
    var j := SkipSpaces(s, i + |DateLabel|);
    assert j <= k;
    assert j >= k;
  }

  /** The anchored match at every position. */
  function IsoTable(s: string): (r: seq<Option<nat>>)
    ensures |r| == |s| + 1 && forall j | 0 <= j <= |s| :: r[j] == IsoAt(s, j)
  {
    seq(|s| + 1, j requires 0 <= j <= |s| => IsoAt(s, j))
  }

  /** `re.search(r'Data:\s*(\d{4}-\d{2}-\d{2})', s)`: where the group of the leftmost match starts. */
  function IsoSearch(s: string): (r: Option<nat>)
    ensures r.Some? ==> r.value + 10 <= |s| && IsIsoShaped(s[r.value..r.value + 10])
    ensures r.None? <==> forall j | 0 <= j <= |s| :: IsoAt(s, j).None?
  {
    match FirstSome(IsoTable(s), 0)
    case None => None
    case Some(j) => IsoAt(s, j)
  }

  /** The match at the leftmost position that has one is the one found. */
  lemma IsoSearchLeftmost(s: string, i: nat, k: nat)
    requires i <= |s| && IsoAt(s, i) == Some(k)
    requires forall j | 0 <= j < i :: IsoAt(s, j).None?
    ensures IsoSearch(s) == Some(k)
  {
    var t := IsoTable(s);
    assert t[i].Some?;
    assert FirstSome(t, 0) == Some(i);
  }

  // ---------------------------------------------------------------------
  // Elements
  // ---------------------------------------------------------------------

  /** `(ano, mes, dia)` as strings. */
  datatype DateParts = DateParts(year: string, month: string, day: string)

  /** An element: `[numero_doc, (ano, mes, dia), trecho]`. */
  datatype Element = Element(number: string, date: DateParts, excerpt: string)

  /** `yyyy-mm-dd` splits at its two dashes. */
  lemma IsoSplit(g: string)
    requires IsIsoShaped(g)
    ensures SplitOn(g, "-") == [g[..4], g[5..7], g[8..]]
  {
    var tail := g[5..];
    assert g == g[..4] + ['-'] + tail;
    assert '-' !in g[..4] && '-' !in g[5..7] && '-' !in g[8..];
    SplitOnChar(g[..4], '-', tail);
    assert tail == g[5..7] + ['-'] + g[8..];
    SplitOnChar(g[5..7], '-', g[8..]);
    SplitOnCharNone(g[8..], '-');
  }

  /** `str(int(d))` for two digits: the zero in front, if any, is dropped and the rest kept. */
  lemma DayDigits(d: string)
    requires |d| == 2 && AllDigits(d)
    ensures NatToString(ParseDigits(d)) == if d[0] == '0' then d[1..] else d
  {
    var a, b := DigitValue(d[0]), DigitValue(d[1]);
    assert ParseDigits(d[..1]) == a by {
      assert d[..1][..0] == [] && d[..1][0] == d[0];
    }
    assert ParseDigits(d) == 10 * a + b;
    if a == 0 {
      assert NatToString(b) == [DigitChar(b)] == [d[1]];
    } else {
      assert (10 * a + b) / 10 == a && (10 * a + b) % 10 == b;
      assert NatToString(a) == [d[0]];
    }
  }

  /** `ano, mes, dia = data_str.split('-')` and `dia = str(int(dia))`. */
  function PartsOf(g: string): (r: DateParts)
    requires IsIsoShaped(g)
    ensures r.year == g[..4] && r.month == g[5..7]
    ensures r.day == if g[8] == '0' then g[9..] else g[8..]
    ensures AllDigits(r.day) && ParseDigits(r.day) == ParseDigits(g[8..])
  {
    IsoSplit(g);
    var parts := SplitOn(g, "-");
    DayDigits(parts[2]);
    ParseNatToString(ParseDigits(parts[2]));
    DateParts(parts[0], parts[1], NatToString(ParseDigits(parts[2])))
  }

  /** `match_data.group(1).strip()` and its parts: the group has no whitespace to strip. */
  function ReadDate(g: string): (r: DateParts)
    requires IsIsoShaped(g)
    ensures r == PartsOf(g)
    ensures |r.year| == 4 && |r.month| == 2 && 1 <= |r.day| <= 2
  {
    assert IsDigit(g[0]) && IsDigit(g[9]);
    StripStripped(g);
    PartsOf(Strip(g))
  }

  /** The element a block gives: all three searches must succeed on the stripped, non-blank block. */
  function ElementOf(block: string): (r: Option<Element>)
    ensures r.Some? ==> Strip(block) != [] && IsStripped(r.value.number) && IsStripped(r.value.excerpt)
    ensures r.Some? ==> |r.value.date.year| == 4 && |r.value.date.month| == 2 && 1 <= |r.value.date.day| <= 2
  {
    var b := Strip(block);
    if b == [] then None
    else
      var numero := Captured(b, DocumentLabel, false, false);
      var data := DateIn(b);
      var trecho := Captured(b, ExcerptLabel, false, false);
      if numero.Some? && data.Some? && trecho.Some? then
        Some(Element(numero.value, data.value, trecho.value))
      else None
  }

  /** The first date `Data: AAAA-MM-DD` of a block, split into its parts. */
  function DateIn(b: string): (r: Option<DateParts>)
    ensures r.Some? <==> IsoSearch(b).Some?
    ensures r.Some? ==> |r.value.year| == 4 && |r.value.month| == 2 && 1 <= |r.value.day| <= 2
  {
    match IsoSearch(b)
    case None => None
    case Some(k) => Some(ReadDate(b[k..k + 10]))
  }

  // ---------------------------------------------------------------------
  // A block in the reader's own vocabulary is read back
  // ---------------------------------------------------------------------

  /** A value on one line, with no whitespace around it. */
  predicate OneLine(v: string) {
    v != [] && IsStripped(v) && '\n' !in v
  }

  /** A labelled line: the label, one space and the value. */
  function Line(tag: string, v: string): string {
    tag + " " + v
  }

  /** The three lines `extrair_elementos` searches for, in the order it searches for them. */
  function Layout(n: string, d: string, t: string): string {
    Line(DocumentLabel, n) + "\n" + Line(DateLabel, d) + "\n" + Line(ExcerptLabel, t)
  }

  /** The value of a field on the first of three lines. */
  lemma FirstField(tag: string, n: string, b: string, c: string)
    requires tag != [] && OneLine(n)
    ensures Captured(Line(tag, n) + "\n" + b + "\n" + c, tag, false, false) == Some(n)
  {
    var x := Line(tag, n) + "\n" + b + "\n" + c;
    var q := |tag|;
    assert x == tag + [' '] + n + ['\n'] + (b + "\n" + c);
    assert x[0..q] == tag && x[q] == ' ';
    assert x[q + 1..q + 1 + |n|] == n && x[q + 1 + |n|] == '\n';
    CapturedField(x, 0, tag, n, false);
  }

  /** The number line holds neither of the other two labels when the number does not. */
  lemma NumberLineClear(n: string, pat: string)
    requires pat == DateLabel || pat == ExcerptLabel
    requires NoOcc(n, pat)
    ensures NoOcc(Line(DocumentLabel, n), pat)
  {
    assert pat[0] !in DocumentLabel + " ";
    NoOccAfterHead(DocumentLabel + " ", n, pat);
  }

  /** The date on the second line, when the date label does not occur in the first. */
  lemma SecondDate(a: string, d: string, rest: string)
    requires NoOcc(a, DateLabel) && IsIsoShaped(d)
    ensures var x := a + "\n" + Line(DateLabel, d) + "\n" + rest;
            var k := |a| + 1 + |DateLabel| + 1;
            IsoSearch(x) == Some(k) && k + 10 <= |x| && x[k..k + 10] == d
  {
    var tail := Line(DateLabel, d) + "\n" + rest;
    var x := a + "\n" + tail;
    assert x == a + "\n" + Line(DateLabel, d) + "\n" + rest;
    var p := |a| + 1;
    var k := p + |DateLabel| + 1;
    assert x[p..p + |DateLabel|] == DateLabel && x[p + |DateLabel|] == ' ';
    assert x[k..k + 10] == d;
    IsoComplete(x, p, k);
    NoOccLine(a, tail, DateLabel);
    IsoSearchLeftmost(x, p, k);
  }

  /** A label without a line break that occurs in neither of two lines does not start in them. */
  lemma LabelNotInTwoLines(a: string, b: string, c: string, tag: string)
    requires '\n' !in tag && NoOcc(a, tag) && NoOcc(b, tag)
    ensures forall j | 0 <= j < |a| + 1 + |b| + 1 :: !LabelAt(a + "\n" + b + "\n" + c, j, tag, false)
  {
    var x := a + "\n" + b + "\n" + c;
    var tail := b + "\n" + c;
    AppendAssoc(a + "\n", b + "\n", c);
    AppendAssoc(a + "\n", b, "\n");
    assert x == a + "\n" + tail;
    forall j | 0 <= j < |a| + 1 + |b| + 1 ensures !LabelAt(x, j, tag, false) {
      LabelOccurs(x, j, tag);
      if j <= |a| {
        OccursInLine(a, tail, tag, j);
        assert !OccursAt(a, j, tag);
      } else {
        var k := j - |a| - 1;
        OccursShift(a + "\n", tail, k, tag);
        OccursInLine(b, c, tag, k);
        assert !OccursAt(b, k, tag);
      }
    }
  }

  /** The value of a field on the third line, when its label occurs in neither line above it. */
  lemma ThirdField(a: string, b: string, tag: string, t: string)
    requires tag != [] && '\n' !in tag && OneLine(t) && NoOcc(a, tag) && NoOcc(b, tag)
    ensures Captured(a + "\n" + b + "\n" + Line(tag, t), tag, false, false) == Some(t)
  {
    var c := Line(tag, t);
    var x := a + "\n" + b + "\n" + c;
    var p := |a| + 1 + |b| + 1;
    assert x[p..] == c;
    assert x[p..p + |tag|] == tag && x[p + |tag|] == ' ' && x[p + |tag| + 1..] == t;
    LabelNotInTwoLines(a, b, c, tag);
    CapturedFieldEnd(x, p, tag, t, false);
  }

  lemma LayoutExcerpt(n: string, d: string, t: string)
    requires OneLine(n) && OneLine(t) && NoOcc(n, ExcerptLabel) && IsIsoShaped(d)
    ensures Captured(Layout(n, d, t), ExcerptLabel, false, false) == Some(t)
  {
    var b := Line(DateLabel, d);
    NumberLineClear(n, ExcerptLabel);
    assert 'T' !in b by {
      assert forall m | 0 <= m < |d| :: d[m] != 'T' by {
        assert d == d[..4] + d[4..5] + d[5..7] + d[7..8] + d[8..];
      }
    }
    NoOccAfterHead(b, [], ExcerptLabel);
    assert b + [] == b;
    ThirdField(Line(DocumentLabel, n), b, ExcerptLabel, t);
  }

  /**
   * A block holding the number, date and excerpt lines the reader searches
   * for is read back into its fields, the day without its zero in front.
   */
  lemma ReadsLayout(n: string, d: string, t: string)
    requires OneLine(n) && OneLine(t) && NoOcc(n, DateLabel) && NoOcc(n, ExcerptLabel) && IsIsoShaped(d)
    ensures ElementOf(Layout(n, d, t)) == Some(Element(n, PartsOf(d), t))
  {
    var a := Line(DocumentLabel, n);
    var x := Layout(n, d, t);
    var k := |a| + 1 + |DateLabel| + 1;
    assert Strip(x) == x && x != [] by {
      assert x[0] == 'N' && x[|x| - 1] == t[|t| - 1];
      StripStripped(x);
    }
    assert Captured(x, DocumentLabel, false, false) == Some(n) by {
      FirstField(DocumentLabel, n, Line(DateLabel, d), Line(ExcerptLabel, t));
    }
    assert IsoSearch(x) == Some(k) && k + 10 <= |x| && x[k..k + 10] == d by {
      NumberLineClear(n, DateLabel);
      SecondDate(a, d, Line(ExcerptLabel, t));
    }
    assert Captured(x, ExcerptLabel, false, false) == Some(t) by {
      LayoutExcerpt(n, d, t);
    }
    ElementOfFound(x, n, k, d, t);
  }

  /** The element of a stripped block whose three searches succeed. */
  lemma ElementOfFound(b: string, n: string, k: nat, g: string, t: string)
    requires Strip(b) == b && b != []
    requires Captured(b, DocumentLabel, false, false) == Some(n)
    requires IsoSearch(b) == Some(k) && k + 10 <= |b| && g == b[k..k + 10] && IsIsoShaped(g)
    requires Captured(b, ExcerptLabel, false, false) == Some(t)
    ensures ElementOf(b) == Some(Element(n, PartsOf(g), t))
  {
  }

  /** `extrair_elementos(arquivo)` of the file's contents. */
  function Elements(content: string): (r: seq<Element>)
    ensures |r| <= |SplitBlocks(content)|
  {
    CollectedLength(SplitBlocks(content), ElementOf);
    Collected(SplitBlocks(content), ElementOf)
  }

  /** The loop of `extrair_elementos`, one block after the other, appending what each gives. */
  method ExtractElements(content: string) returns (elementos: seq<Element>)
    ensures elementos == Elements(content)
  {
    var blocos := SplitBlocks(content);
    elementos := [];
    var i := 0;
    while i < |blocos|
      invariant 0 <= i <= |blocos|
      invariant elementos == Collected(blocos[..i], ElementOf)
    {
      var e := ElementOf(blocos[i]);
      CollectedNext(blocos, ElementOf, i);
      if e.Some? {
        elementos := elementos + [e.value];
      }
      i := i + 1;
    }
    assert blocos[..i] == blocos;
  }

  /** Elements come from the blocks of a joined listing in block order, at most one per block. */
  lemma ElementsJoined(bs: seq<string>, sep: string)
    requires IsSeparator(sep) && bs != []
    requires forall i | 0 <= i < |bs| :: '=' !in bs[i]
    ensures Elements(Join(bs, sep)) == Collected(bs, ElementOf)
  {
    SplitJoined(bs, sep);
  }

  // ---------------------------------------------------------------------
  // post_documento
  // ---------------------------------------------------------------------

  /** The JSON body `post_documento` sends. */
  datatype Payload = Payload(kind: string, number: string, title: string, description: string, date: string, url: string)

  const TitlePrefix: string := "PORTARIA Nº "

  /** `f"{ano}-{mes}-{dia}"`. */
  function DashJoin(d: DateParts): string {
    d.year + "-" + d.month + "-" + d.day
  }

  /**
   * The payload for one element: an ordinance whose title carries its
   * number, with no URL. Its contract lists the fields one by one;
   * `PayloadDateSplit` and `PayloadDateIso` state what its date means.
   */
  function PayloadOf(e: Element): (r: Payload)
    ensures r.kind == "PORTARIA" && r.url == "" && r.number == e.number && r.description == e.excerpt
    ensures r.date == DashJoin(e.date)
    ensures |TitlePrefix| <= |r.title| && r.title[..|TitlePrefix|] == TitlePrefix && r.title[|TitlePrefix|..] == e.number
  {
    var title := TitlePrefix + e.number;
    assert title[|TitlePrefix|..] == e.number;
    Payload("PORTARIA", e.number, title, e.excerpt, DashJoin(e.date), "")
  }

  /** The payload's date splits back at its dashes into year, month and day. */
  lemma PayloadDateSplit(e: Element)
    requires '-' !in e.date.year && '-' !in e.date.month && '-' !in e.date.day
    ensures SplitOn(PayloadOf(e).date, "-") == [e.date.year, e.date.month, e.date.day]
  {
    var d := e.date;
    var tail := d.month + ['-'] + d.day;
    assert PayloadOf(e).date == d.year + ['-'] + tail;
    SplitOnChar(d.year, '-', tail);
    SplitOnChar(d.month, '-', d.day);
    SplitOnCharNone(d.day, '-');
  }

  /**
   * The payload's date is the date read from the block exactly when its
   * day has no zero in front; otherwise it is one character shorter and
   * not of the `yyyy-mm-dd` shape.
   */
  lemma PayloadDateIso(g: string)
    requires IsIsoShaped(g)
    ensures DashJoin(PartsOf(g)) == g <==> g[8] != '0'
    ensures IsIsoShaped(DashJoin(PartsOf(g))) <==> g[8] != '0'
  {
    var p := PartsOf(g);
    if g[8] != '0' {
      assert DashJoin(p) == g;
    } else {
      assert |DashJoin(p)| == 9;
    }
  }

  // ---------------------------------------------------------------------
  // What the writers produce is not read
  // ---------------------------------------------------------------------

  /** A block in which the document label does not occur gives no element. */
  lemma NoLabelNoElement(block: string)
    requires NoOcc(block, DocumentLabel)
    ensures ElementOf(block).None?
  {
    StripNoOcc(block, DocumentLabel);
    SearchCaptureOccurs(Strip(block), DocumentLabel, false);
  }

  /** A listing in which the document label does not occur gives no elements. */
  lemma ElementsNeedLabel(content: string)
    requires NoOcc(content, DocumentLabel)
    ensures Elements(content) == []
  {
    assert [] + content == content;
    BlocksNoOcc([], content, DocumentLabel);
    var bs := SplitBlocks(content);
    forall i | 0 <= i < |bs| ensures ElementOf(bs[i]).None? {
      NoLabelNoElement(bs[i]);
    }
    CollectedNone(bs, ElementOf);
  }

  /** An occurrence in a part is an occurrence in the whole. */
  lemma NoOccParts(x: string, y: string, pat: string)
    requires NoOcc(x + y, pat)
    ensures NoOcc(x, pat) && NoOcc(y, pat)
  {
    forall j | 0 <= j <= |x| ensures OccursAt(x, j, pat) ==> OccursAt(x + y, j, pat) {
      if OccursAt(x, j, pat) {
        assert (x + y)[j..j + |pat|] == x[j..j + |pat|];
      }
    }
    forall j | 0 <= j <= |y| ensures OccursAt(y, j, pat) ==> OccursAt(x + y, |x| + j, pat) {
      if OccursAt(y, j, pat) {
        assert (x + y)[|x| + j..|x| + j + |pat|] == y[j..j + |pat|];
      }
    }
  }

  lemma StripNoOcc(b: string, pat: string)
    requires NoOcc(b, pat)
    ensures NoOcc(Strip(b), pat)
  {
    StripSlice(b);
    var lo := SkipSpaces(b, 0);
    var hi := lo + |Strip(b)|;
    assert b == b[..lo] + (b[lo..hi] + b[hi..]);
    NoOccParts(b[..lo], b[lo..hi] + b[hi..], pat);
    NoOccParts(b[lo..hi], b[hi..], pat);
  }

  /** Every block is a part of the text it was split from. */
  lemma {:induction false} BlocksNoOcc(acc: string, s: string, pat: string)
    requires NoOcc(acc + s, pat)
    ensures forall i | 0 <= i < |Blocks(acc, s)| :: NoOcc(Blocks(acc, s)[i], pat)
    decreases |s|
  {
    if s == [] {
      assert acc + s == acc;
    } else {
      match DelimiterLen(s)
      case Some(n) =>
        NoOccParts(acc, s, pat);
        assert s == s[..n] + s[n..];
        NoOccParts(s[..n], s[n..], pat);
        assert [] + s[n..] == s[n..];
        BlocksNoOcc([], s[n..], pat);
      case None =>
        assert acc + [s[0]] + s[1..] == acc + s;
        BlocksNoOcc(acc + [s[0]], s[1..], pat);
    }
  }

  /**
   * Every `ú` has a space eight characters on, as the `ú` of every writer's
   * number label ("Número do Decreto: ", "Número da Lei: ", "Número da
   * Portaria: ") does; the document label has a `c` there instead.
   */
  predicate Guarded(s: string) {
    forall k | 0 <= k < |s| && s[k] == 'ú' :: k + 8 < |s| && s[k + 8] == ' '
  }

  lemma GuardedAppend(x: string, y: string)
    requires Guarded(x) && Guarded(y)
    ensures Guarded(x + y)
  {
    var s := x + y;
    forall k | 0 <= k < |s| && s[k] == 'ú' ensures k + 8 < |s| && s[k + 8] == ' ' {
      if k < |x| {
        assert s[k] == x[k];
        assert s[k + 8] == x[k + 8];
      } else {
        assert s[k] == y[k - |x|];
        assert s[k + 8] == y[k + 8 - |x|];
      }
    }
  }

  /** The document label has its `ú` at 1 and a `c` at 9. */
  lemma LabelChars(s: string, j: nat)
    ensures OccursAt(s, j, DocumentLabel) ==> j + 9 < |s| && s[j + 1] == 'ú' && s[j + 9] == 'c'
  {
    if OccursAt(s, j, DocumentLabel) {
      assert s[j + 1] == s[j..j + |DocumentLabel|][1];
      assert s[j + 9] == s[j..j + |DocumentLabel|][9];
    }
  }

  lemma GuardedNoOcc(s: string)
    requires Guarded(s)
    ensures NoOcc(s, DocumentLabel)
  {
    forall j | 0 <= j <= |s| ensures OccursAt(s, j, DocumentLabel) ==> j + 9 < |s| && s[j + 1] == 'ú' && s[j + 9] == 'c' {
      LabelChars(s, j);
    }
  }

  /** The number labels of the three writers. */
  lemma WriterLabelsGuarded()
    ensures Guarded(Batch.DecreeNumberLabel) && Guarded(Batch.LawNumberLabel) && Guarded(Ordinance.OrdinanceNumberLabel)
  {
    var a, b, c := Batch.DecreeNumberLabel, Batch.LawNumberLabel, Ordinance.OrdinanceNumberLabel;
    assert forall k | 0 <= k < |a| && k != 1 :: a[k] != 'ú';
    assert forall k | 0 <= k < |b| && k != 1 :: b[k] != 'ú';
    assert forall k | 0 <= k < |c| && k != 1 :: c[k] != 'ú';
  }

  /** A field free of `ú`. */
  predicate Plain(x: string) {
    'ú' !in x
  }

  /** One decree or law record, its fields free of `ú`. */
  lemma EntryGuarded(e: Batch.Entry, numberLabel: string)
    requires Guarded(numberLabel)
    requires Plain(e.filename) && Plain(e.number) && Plain(e.date) && Plain(e.excerpt)
    ensures Guarded(Batch.EntryText(e, numberLabel))
  {
    var head := Batch.Delimiter() + "\n" + "Arquivo: " + e.filename + "\n";
    var tail := e.number + "\n" + "Data: " + e.date + "\n" + "Trecho capturado: " + e.excerpt + "\n" + "\n";
    assert 'ú' !in head && 'ú' !in tail;
    GuardedAppend(head, numberLabel);
    GuardedAppend(head + numberLabel, tail);
    assert Batch.EntryText(e, numberLabel) == head + numberLabel + tail;
  }

  lemma {:induction false} EntriesGuarded(es: seq<Batch.Entry>, numberLabel: string)
    requires Guarded(numberLabel)
    requires forall i | 0 <= i < |es| :: Plain(es[i].filename) && Plain(es[i].number) && Plain(es[i].date) && Plain(es[i].excerpt)
    ensures Guarded(Batch.EntriesText(es, numberLabel))
    decreases |es|
  {
    if es != [] {
      EntriesGuarded(es[..|es| - 1], numberLabel);
      EntryGuarded(es[|es| - 1], numberLabel);
      GuardedAppend(Batch.EntriesText(es[..|es| - 1], numberLabel), Batch.EntryText(es[|es| - 1], numberLabel));
    }
  }

  /**
   * What decreto.py and lei_complementar.py write gives no element: their
   * number labels are not the one searched for.
   */
  lemma BatchListingUnread(es: seq<Batch.Entry>, numberLabel: string)
    requires numberLabel == Batch.DecreeNumberLabel || numberLabel == Batch.LawNumberLabel
    requires forall i | 0 <= i < |es| :: Plain(es[i].filename) && Plain(es[i].number) && Plain(es[i].date) && Plain(es[i].excerpt)
    ensures Elements(Batch.EntriesText(es, numberLabel)) == []
  {
    WriterLabelsGuarded();
    EntriesGuarded(es, numberLabel);
    GuardedNoOcc(Batch.EntriesText(es, numberLabel));
    ElementsNeedLabel(Batch.EntriesText(es, numberLabel));
  }

  /** One record of main.py, its fields free of `ú`. */
  lemma RecordGuarded(r: Ordinance.OcrResult)
    requires Plain(r.filename) && Plain(Ordinance.Render(r.number)) && Plain(Ordinance.Render(r.date)) && Plain(r.excerpt)
    ensures Guarded(Ordinance.RecordText(r))
  {
    var head := Batch.Delimiter() + "\n" + "Arquivo: " + r.filename + "\n";
    var numberLabel := Ordinance.OrdinanceNumberLabel;
    var tail := Ordinance.Render(r.number) + "\n" + Ordinance.OrdinanceDateLabel + Ordinance.Render(r.date) + "\n" + "\n" + r.excerpt + "\n\n";
    assert 'ú' !in head && 'ú' !in tail;
    WriterLabelsGuarded();
    GuardedAppend(head, numberLabel);
    GuardedAppend(head + numberLabel, tail);
    assert Ordinance.RecordText(r) == head + numberLabel + tail;
  }

  lemma {:induction false} RecordsGuarded(rs: seq<Ordinance.OcrResult>)
    requires forall i | 0 <= i < |rs| :: Plain(rs[i].filename) && Plain(Ordinance.Render(rs[i].number)) && Plain(Ordinance.Render(rs[i].date)) && Plain(rs[i].excerpt)
    ensures Guarded(Ordinance.RecordsText(rs))
    decreases |rs|
  {
    if rs != [] {
      var init := rs[..|rs| - 1];
      RecordsGuarded(init);
      RecordGuarded(rs[|rs| - 1]);
      GuardedAppend(Ordinance.RecordsText(init), Ordinance.RecordText(rs[|rs| - 1]));
    }
  }

  /** What main.py writes to resultado_ocr.txt, the file cadastrar.py reads, gives no element. */
  lemma OrdinanceListingUnread(rs: seq<Ordinance.OcrResult>)
    requires forall i | 0 <= i < |rs| :: Plain(rs[i].filename) && Plain(Ordinance.Render(rs[i].number)) && Plain(Ordinance.Render(rs[i].date)) && Plain(rs[i].excerpt)
    ensures Elements(Ordinance.RecordsText(rs)) == []
  {
    RecordsGuarded(rs);
    GuardedNoOcc(Ordinance.RecordsText(rs));
    ElementsNeedLabel(Ordinance.RecordsText(rs));
  }
}
