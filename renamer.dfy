/**
 * `atualizar_txt_com_novos_arquivos` of muda_nome.py: it reads the records
 * of an ordinance listing back by line position, renames each file after
 * its number, and writes the listing again with the new paths.
 *
 * A block between delimiters is stripped; blank blocks and blocks of fewer
 * than three lines are skipped. Line 0, 1 and 2 carry the path, the number
 * and the date behind their labels; whatever follows is the text.
 */
module Renamer {
  import opened Text
  import opened FileNames
  import opened Batch
  import Ordinance

  const PathLabel: string := "Arquivo:"
  const NumberLabel: string := "Número da Portaria:"
  const DateLabel: string := "Data da Portaria:"

  /** One record of the listing: (caminho_pdf, numero_portaria, data_portaria, texto). */
  datatype Row = Row(path: string, number: string, date: string, text: string)

  /** The labelled lines the rebuild writes: `f"Arquivo: {arquivo_atual}"` and the like. */
  function Line0(r: Row): string { PathLabel + " " + r.path }
  function Line1(r: Row): string { NumberLabel + " " + r.number }
  function Line2(r: Row): string { DateLabel + " " + r.date }

  // ---------------------------------------------------------------------
  // Reading
  // ---------------------------------------------------------------------

  /** `line.replace(tag, "").strip()`. */
  function Field(line: string, tag: string): (r: string)
    requires |tag| > 0
    ensures IsStripped(r)
  {
    Strip(RemoveAll(line, tag))
  }

  /** The record a block holds, or nothing when the block is blank or shorter than three lines. */
  function ParseBlock(block: string): (r: Option<Row>)
    ensures r.Some? ==> IsStripped(r.value.path) && IsStripped(r.value.number)
                        && IsStripped(r.value.date) && IsStripped(r.value.text)
    ensures Strip(block) == [] ==> r.None?
  {
    var b := Strip(block);
    if b == [] then None
    else
      var lines := SplitLines(b);
      if |lines| < 3 then None
      else Some(Row(Field(lines[0], PathLabel), Field(lines[1], NumberLabel), Field(lines[2], DateLabel),
                    Strip(Join(lines[3..], "\n"))))
  }

  /** `conteudo.split("=" * 50)`. */
  function Blocks(content: string): seq<string> {
    SplitOn(content, Delimiter())
  }

  /** `registros` after the first loop. */
  function Parse(content: string): (r: seq<Row>)
    ensures |r| <= |Blocks(content)|
  {
    CollectedLength(Blocks(content), ParseBlock);
    Collected(Blocks(content), ParseBlock)
  }

  /** The first loop: one record per block that has one, in block order. */
  method ReadRows(content: string) returns (rows: seq<Row>)
    ensures rows == Parse(content)
  {
    var blocks := SplitOn(content, Delimiter());
    rows := [];
    for i := 0 to |blocks|
      invariant rows == Collected(blocks[..i], ParseBlock)
    {
      var block := Strip(blocks[i]);
      CollectedNext(blocks, ParseBlock, i);
      if block != [] {
        var lines := SplitLines(block);
        if |lines| >= 3 {
          var path := Field(lines[0], PathLabel);
          var number := Field(lines[1], NumberLabel);
          var date := Field(lines[2], DateLabel);
          var text := Strip(Join(lines[3..], "\n"));
          rows := rows + [Row(path, number, date, text)];
        }
      }
    }
    assert blocks[..|blocks|] == blocks;
  }

  // ---------------------------------------------------------------------
  // Renaming
  // ---------------------------------------------------------------------

  /** A record after its file has been renamed, or not. */
  function RenamedRow(r: Row, renamed: (string, string) -> bool): Row {
    r.(path := RenameByNumber(r.path, r.number, renamed))
  }

  /**
   * `registros_atualizados` after the second loop: one record out per
   * record in, in the same order, with the same number, date and text; the
   * path is the old one when the rename fails, and otherwise the slash-free
   * number plus ".pdf" in the old path's directory.
   */
  function Renamed(rows: seq<Row>, renamed: (string, string) -> bool): (r: seq<Row>)
    ensures |r| == |rows|
    ensures forall i | 0 <= i < |rows| ::
              && r[i].number == rows[i].number && r[i].date == rows[i].date && r[i].text == rows[i].text
              && (r[i].path == rows[i].path || Basename(r[i].path) == SlashFreeName(rows[i].number))
              && (renamed(rows[i].path, PathJoin(Dirname(rows[i].path), SlashFreeName(rows[i].number))) ==>
                    r[i].path == PathJoin(Dirname(rows[i].path), SlashFreeName(rows[i].number)))
              && (!renamed(rows[i].path, PathJoin(Dirname(rows[i].path), SlashFreeName(rows[i].number))) ==> r[i].path == rows[i].path)
  {
    seq(|rows|, i requires 0 <= i < |rows| => RenamedRow(rows[i], renamed))
  }

  /** The second loop. */
  method RenameRows(rows: seq<Row>, renamed: (string, string) -> bool) returns (updated: seq<Row>)
    ensures updated == Renamed(rows, renamed)
  {
    ghost var all := Renamed(rows, renamed);
    updated := [];
    for i := 0 to |rows|
      invariant updated == all[..i]
    {
      var r := rows[i];
      var target := PathJoin(Dirname(r.path), SlashFreeName(r.number));
      var path := if renamed(r.path, target) then target else r.path;
      var row := Row(path, r.number, r.date, r.text);
      assert all[i] == row;
      PrefixStep(all, i, row);
      updated := updated + [row];
    }
    assert all[..|rows|] == all;
  }

  // ---------------------------------------------------------------------
  // Rebuilding
  // ---------------------------------------------------------------------

  /** One record as the rebuild lays it out; the text line only when there is text. */
  function RowText(r: Row): string {
    Delimiter() + "\n" + Line0(r) + "\n" + Line1(r) + "\n" + Line2(r) + "\n" + (if r.text != "" then r.text + "\n" else "")
  }

  /** `novo_conteudo`: the records, then a closing delimiter line. */
  function Rebuilt(rows: seq<Row>): string {
    Concat(rows, RowText) + Delimiter() + "\n"
  }

  /** The third loop. */
  method Rebuild(rows: seq<Row>) returns (out: string)
    ensures out == Rebuilt(rows)
  {
    out := "";
    for i := 0 to |rows|
      invariant out == Concat(rows[..i], RowText)
    {
      assert rows[..i + 1][..i] == rows[..i];
      var r := rows[i];
      var record := Delimiter() + "\n";
      record := record + Line0(r) + "\n";
      record := record + Line1(r) + "\n";
      record := record + Line2(r) + "\n";
      if r.text != "" {
        record := record + r.text + "\n";
      }
      assert record == RowText(r);
      out := out + record;
    }
    assert rows[..|rows|] == rows;
    out := out + Delimiter() + "\n";
  }

  /** `atualizar_txt_com_novos_arquivos` from the old contents to the new; `renamed` stands for the file system. */
  method UpdateListing(content: string, renamed: (string, string) -> bool) returns (out: string)
    ensures out == Rebuilt(Renamed(Parse(content), renamed))
  {
    var rows := ReadRows(content);
    var updated := RenameRows(rows, renamed);
    out := Rebuild(updated);
  }

  // ---------------------------------------------------------------------
  // Round trips
  // ---------------------------------------------------------------------

  /**
   * A record the listing can carry unchanged: every field stripped and
   * free of '=', the three header fields on one line and free of their own
   * label, and the text on `\n`-separated lines. These conditions are
   * enough for the round trip; they are not all needed (a field holding a
   * shorter run of '=' survives too).
   */
  predicate Clean(r: Row) {
    && IsStripped(r.path) && IsStripped(r.number) && IsStripped(r.date) && IsStripped(r.text)
    && NoLineBreak(r.path) && NoLineBreak(r.number) && NoLineBreak(r.date) && NewlineText(r.text)
    && '=' !in r.path && '=' !in r.number && '=' !in r.date && '=' !in r.text
    && NoOcc(r.path, PathLabel) && NoOcc(r.number, NumberLabel) && NoOcc(r.date, DateLabel)
  }

  /**
   * A record whose date or text is not empty: its core ends in a field
   * and not in the space after the date label.
   */
  predicate Filled(r: Row) {
    r.date != "" || r.text != ""
  }

  /** What follows the date line: the text, on the next line or after a blank line, when there is text. */
  function Tail(r: Row, blank: bool): string {
    if r.text == "" then "" else if blank then "\n" + ("\n" + r.text) else "\n" + r.text
  }

  /** The three labelled lines and the text, as they stand in a block once it is stripped. */
  function Core(r: Row, blank: bool): string {
    Line0(r) + "\n" + Line1(r) + "\n" + Line2(r) + Tail(r, blank)
  }

  /** A delimiter followed by a block. */
  function Framed(b: string): string {
    Delimiter() + b
  }

  lemma NoLineBreakAppend(a: string, b: string)
    requires NoLineBreak(a) && NoLineBreak(b)
    ensures NoLineBreak(a + b)
  {
    forall k | 0 <= k < |a + b| ensures !IsLineBreak((a + b)[k]) {
      if k >= |a| {
        assert (a + b)[k] == b[k - |a|];
      }
    }
  }

  /** A labelled line gives back its field. */
  lemma LabelledField(tag: string, v: string)
    requires |tag| > 0 && tag[0] != ' ' && NoOcc(v, tag) && IsStripped(v)
    ensures Field(tag + " " + v, tag) == v
  {
    var line := tag + " " + v;
    assert OccursAt(line, 0, tag) by { assert line[0..|tag|] == tag; }
    assert line[|tag|..] == " " + v;
    assert !OccursAt(" " + v, 0, tag) by { assert (" " + v)[0] == ' '; }
    assert (" " + v)[1..] == v;
    RemoveAllAbsent(v, tag);
    assert RemoveAll(line, tag) == " " + v;
    assert " " + v + "" == " " + v;
    StripPadded(" ", v, "");
  }

  /** The lines after the date line. */
  function TextLines(r: Row, blank: bool): seq<string> {
    if r.text == "" then [] else if blank then [""] + SplitLines(r.text) else SplitLines(r.text)
  }

  lemma SplitLinesBlank(t: string)
    ensures SplitLines("\n" + t) == [""] + SplitLines(t)
  {
    assert "\n" + t == "" + "\n" + t;
    SplitLinesCons("", t);
  }

  /** Two one-line lines in front of the rest. */
  lemma SplitTwoLines(l0: string, l1: string, rest: string)
    requires NoLineBreak(l0) && NoLineBreak(l1)
    ensures SplitLines(l0 + "\n" + l1 + "\n" + rest) == [l0, l1] + SplitLines(rest)
  {
    AppendAssoc(l0 + "\n", l1 + "\n", rest);
    AppendAssoc(l0 + "\n", l1, "\n");
    SplitLinesCons(l0, l1 + "\n" + rest);
    SplitLinesCons(l1, rest);
    assert [l0] + ([l1] + SplitLines(rest)) == [l0, l1] + SplitLines(rest);
  }

  /** The date line and whatever follows it. */
  lemma SplitDateLine(l2: string, r: Row, blank: bool)
    requires NoLineBreak(l2) && l2 != []
    ensures SplitLines(l2 + Tail(r, blank)) == [l2] + TextLines(r, blank)
  {
    var t := r.text;
    if t == "" {
      assert l2 + Tail(r, blank) == l2;
      SplitLinesSingle(l2);
    } else if blank {
      AppendAssoc(l2, "\n", "\n" + t);
      SplitLinesCons(l2, "\n" + t);
      SplitLinesBlank(t);
    } else {
      AppendAssoc(l2, "\n", t);
      SplitLinesCons(l2, t);
    }
  }

  lemma CoreLines(r: Row, blank: bool)
    requires NoLineBreak(r.path) && NoLineBreak(r.number) && NoLineBreak(r.date)
    ensures SplitLines(Core(r, blank)) == [Line0(r), Line1(r), Line2(r)] + TextLines(r, blank)
  {
    var l0, l1, l2, tail := Line0(r), Line1(r), Line2(r), Tail(r, blank);
    assert NoLineBreak(l0) && NoLineBreak(l1) && NoLineBreak(l2) && l2 != [] by {
      LabelledLinesNoBreak(r);
    }
    assert SplitLines(Core(r, blank)) == [l0, l1] + SplitLines(l2 + tail) by {
      AppendAssoc(l0 + "\n" + l1 + "\n", l2, tail);
      SplitTwoLines(l0, l1, l2 + tail);
    }
    SplitDateLine(l2, r, blank);
    AppendAssoc([l0, l1], [l2], TextLines(r, blank));
  }

  /** The three labelled lines hold no line break when their values hold none. */
  lemma LabelledLinesNoBreak(r: Row)
    requires NoLineBreak(r.path) && NoLineBreak(r.number) && NoLineBreak(r.date)
    ensures NoLineBreak(Line0(r)) && NoLineBreak(Line1(r)) && NoLineBreak(Line2(r)) && Line2(r) != []
  {
    NoLineBreakAppend(PathLabel + " ", r.path);
    NoLineBreakAppend(NumberLabel + " ", r.number);
    NoLineBreakAppend(DateLabel + " ", r.date);
  }

  /** The text lines join back to the text. */
  lemma TextFromLines(r: Row, blank: bool)
    requires IsStripped(r.text) && NewlineText(r.text)
    ensures Strip(Join(TextLines(r, blank), "\n")) == r.text
  {
    var t := r.text;
    if t == "" {
      StripStripped("");
    } else {
      JoinSplitLines(t);
      var lines := SplitLines(t);
      assert lines != [] by { assert LineEnd(t, 0) >= 0; }
      if blank {
        assert Join([""] + lines, "\n") == "\n" + t;
        assert "\n" + t + "" == "\n" + t;
        StripPadded("\n", t, "");
      } else {
        StripStripped(t);
      }
    }
  }

  lemma CoreStripped(r: Row, blank: bool)
    requires Clean(r) && Filled(r)
    ensures IsStripped(Core(r, blank))
  {
    var c := Core(r, blank);
    assert c[0] == Line0(r)[0] == 'A';
    if r.text != "" {
      assert c[|c| - 1] == r.text[|r.text| - 1];
    } else {
      assert c[|c| - 1] == r.date[|r.date| - 1];
    }
  }

  /** The block of a record with neither date nor text ends at the date label. */
  function BareCore(r: Row): string {
    Line0(r) + "\n" + Line1(r) + "\n" + DateLabel
  }

  /** Stripping such a block drops the space after the date label. */
  lemma BareStrip(r: Row, blank: bool, lead: string, trail: string)
    requires !Filled(r) && AllSpace(lead) && AllSpace(trail)
    ensures Strip(lead + Core(r, blank) + trail) == BareCore(r)
  {
    var b := BareCore(r);
    assert Tail(r, blank) == "";
    assert Line2(r) == DateLabel + " ";
    assert Core(r, blank) == b + " ";
    assert lead + Core(r, blank) + trail == lead + b + (" " + trail);
    assert AllSpace(" " + trail) by {
      forall k | 0 <= k < |" " + trail| ensures IsSpace((" " + trail)[k]) {
        if k > 0 { assert (" " + trail)[k] == trail[k - 1]; }
      }
    }
    assert IsStripped(b) by {
      assert b[0] == Line0(r)[0] == 'A';
      assert b[|b| - 1] == ':';
    }
    StripPadded(lead, b, " " + trail);
  }

  /** The bare date label reads as an empty date. */
  lemma BareDate()
    ensures Field(DateLabel, DateLabel) == ""
  {
    assert OccursAt(DateLabel, 0, DateLabel) by { assert DateLabel[0..|DateLabel|] == DateLabel; }
    assert RemoveAll(DateLabel, DateLabel) == [];
    StripStripped([]);
  }

  /**
   * A record with neither date nor text reads back as itself, the bare
   * date label giving "".
   */
  lemma ParseBare(r: Row, blank: bool, lead: string, trail: string)
    requires Clean(r) && !Filled(r) && AllSpace(lead) && AllSpace(trail)
    ensures ParseBlock(lead + Core(r, blank) + trail) == Some(r)
  {
    BareStrip(r, blank, lead, trail);
    BareLines(r);
    ParseStripped(lead + Core(r, blank) + trail, BareCore(r), [Line0(r), Line1(r), DateLabel]);
    LabelledField(PathLabel, r.path);
    LabelledField(NumberLabel, r.number);
    BareDate();
    assert [Line0(r), Line1(r), DateLabel][3..] == [];
    StripStripped([]);
  }

  /** The bare block splits into the path line, the number line and the date label. */
  lemma BareLines(r: Row)
    requires NoLineBreak(r.path) && NoLineBreak(r.number)
    ensures SplitLines(BareCore(r)) == [Line0(r), Line1(r), DateLabel]
  {
    NoLineBreakAppend(PathLabel + " ", r.path);
    NoLineBreakAppend(NumberLabel + " ", r.number);
    assert NoLineBreak(DateLabel);
    SplitTwoLines(Line0(r), Line1(r), DateLabel);
    SplitLinesSingle(DateLabel);
  }

  /** A block that strips to `b` with these lines, at least three, reads as their fields. */
  lemma ParseStripped(block: string, b: string, lines: seq<string>)
    requires Strip(block) == b && b != [] && SplitLines(b) == lines && |lines| >= 3
    ensures ParseBlock(block) == Some(Row(Field(lines[0], PathLabel), Field(lines[1], NumberLabel),
                                          Field(lines[2], DateLabel), Strip(Join(lines[3..], "\n"))))
  {
  }

  /** A block that is a core with whitespace around it reads back as its record. */
  lemma ParseCore(r: Row, blank: bool, lead: string, trail: string)
    requires Clean(r) && AllSpace(lead) && AllSpace(trail)
    ensures ParseBlock(lead + Core(r, blank) + trail) == Some(r)
  {
    if !Filled(r) {
      ParseBare(r, blank, lead, trail);
      return;
    }
    var core := Core(r, blank);
    CoreStripped(r, blank);
    StripPadded(lead, core, trail);
    assert core != [];
    CoreLines(r, blank);
    var lines := SplitLines(core);
    assert lines[3..] == TextLines(r, blank);
    LabelledField(PathLabel, r.path);
    LabelledField(NumberLabel, r.number);
    LabelledField(DateLabel, r.date);
    TextFromLines(r, blank);
  }

  /** No '=' means no delimiter can start inside `x`. */
  lemma NoDelimiterBefore(x: string, y: string)
    requires '=' !in x
    ensures forall j | 0 <= j < |x| :: !OccursAt(x + Delimiter() + y, j, Delimiter())
  {
    var d := Delimiter();
    forall j | 0 <= j < |x| ensures !OccursAt(x + d + y, j, d) {
      var s := x + d + y;
      assert s[j] == x[j];
      var head := j + |d| <= |s| && s[j..j + |d|][0] == s[j];
    }
  }

  lemma NoDelimiterIn(x: string)
    requires '=' !in x
    ensures NoOcc(x, Delimiter())
  {
    var d := Delimiter();
    forall j | 0 <= j <= |x| ensures !OccursAt(x, j, d) {
      var head := j + |d| <= |x| && x[j..j + |d|][0] == x[j];
    }
  }

  /** Splitting a block followed by framed blocks gives the blocks back, none holding a '='. */
  lemma {:induction false} SplitFramed(b: string, rest: seq<string>)
    requires '=' !in b && forall i | 0 <= i < |rest| :: '=' !in rest[i]
    ensures SplitOn(b + Concat(rest, Framed), Delimiter()) == [b] + rest
    decreases |rest|
  {
    var d := Delimiter();
    if rest == [] {
      assert b + Concat(rest, Framed) == b;
      NoDelimiterIn(b);
      SplitOnNone(b, d);
    } else {
      var c, more := rest[0], rest[1..];
      assert rest == [c] + more;
      ConcatAppend([c], more, Framed);
      assert Concat([c], Framed) == Framed(c) by { assert [c][..0] == []; }
      AppendAssoc(b, d + c, Concat(more, Framed));
      AppendAssoc(b, d, c);
      AppendAssoc(b + d, c, Concat(more, Framed));
      NoDelimiterBefore(b, c + Concat(more, Framed));
      SplitOnFirst(b, d, c + Concat(more, Framed));
      SplitFramed(c, more);
    }
  }

  /** The regrouping behind `RowTextFramed`, over plain strings. */
  lemma RegroupRecord(d: string, a: string, b: string, c: string, t: string)
    ensures d + "\n" + a + "\n" + b + "\n" + c + "\n" + (t + "\n")
            == d + ("\n" + (a + "\n" + b + "\n" + c + ("\n" + t)) + "\n")
    ensures d + "\n" + a + "\n" + b + "\n" + c + "\n" + ""
            == d + ("\n" + (a + "\n" + b + "\n" + c + "") + "\n")
  {
  }

  /** A rebuilt record is a delimiter and a block holding its core between two line breaks. */
  lemma RowTextFramed(r: Row)
    ensures RowText(r) == Framed("\n" + Core(r, false) + "\n")
  {
    RegroupRecord(Delimiter(), Line0(r), Line1(r), Line2(r), r.text);
  }

  /** A record that can be carried unchanged holds no `=` in its core, so no delimiter either. */
  lemma CoreNoEquals(r: Row, blank: bool)
    requires Clean(r)
    ensures '=' !in Core(r, blank)
  {
    assert '=' !in PathLabel + " " && '=' !in NumberLabel + " " && '=' !in DateLabel + " ";
  }

  /** The blocks a rebuilt listing splits into, one per record. */
  function Bodies(rows: seq<Row>): (r: seq<string>)
    ensures |r| == |rows|
  {
    seq(|rows|, i requires 0 <= i < |rows| => "\n" + Core(rows[i], false) + "\n")
  }

  /**
   * The rebuilt listing as framed blocks: one block per record, then a
   * closing line break; no block is empty or holds an `=`.
   */
  lemma RebuiltFramed(rows: seq<Row>)
    requires forall i | 0 <= i < |rows| :: Clean(rows[i])
    ensures Rebuilt(rows) == Concat(Bodies(rows) + ["\n"], Framed)
    ensures forall i | 0 <= i < |rows| + 1 :: (Bodies(rows) + ["\n"])[i] != [] && '=' !in (Bodies(rows) + ["\n"])[i]
  {
    var d := Delimiter();
    var bodies := Bodies(rows);
    var all := bodies + ["\n"];
    forall i | 0 <= i < |rows| ensures RowText(rows[i]) == Framed(bodies[i]) && '=' !in bodies[i] {
      RowTextFramed(rows[i]);
      CoreNoEquals(rows[i], false);
    }
    ConcatPointwise(rows, RowText, bodies, Framed);
    ConcatAppend(bodies, ["\n"], Framed);
    assert Concat(["\n"], Framed) == d + "\n" by { assert ["\n"][..0] == []; }
    AppendAssoc(Concat(rows, RowText), d, "\n");
    forall i | 0 <= i < |all| ensures all[i] != [] && '=' !in all[i] {
      if i < |rows| {
        assert all[i] == bodies[i];
      }
    }
  }

  /** The blocks of the rebuilt listing: an empty head, one block per record, a closing line break. */
  lemma RebuiltBlocks(rows: seq<Row>)
    requires forall i | 0 <= i < |rows| :: Clean(rows[i])
    ensures Blocks(Rebuilt(rows)) == [""] + (Bodies(rows) + ["\n"])
  {
    RebuiltFramed(rows);
    assert Rebuilt(rows) == "" + Concat(Bodies(rows) + ["\n"], Framed);
    SplitFramed("", Bodies(rows) + ["\n"]);
  }

  /** Collecting over an empty head, the blocks and a closing line break, the first and last giving nothing. */
  lemma CollectedBetween<U>(bodies: seq<string>, f: string -> Option<U>, ys: seq<U>)
    requires f("").None? && f("\n").None?
    requires |ys| == |bodies| && forall i | 0 <= i < |bodies| :: f(bodies[i]) == Some(ys[i])
    ensures Collected([""] + (bodies + ["\n"]), f) == ys
  {
    CollectedAppend([""], bodies + ["\n"], f);
    CollectedAppend(bodies, ["\n"], f);
    assert Collected([""], f) == [] by { assert [""][..0] == []; }
    assert Collected(["\n"], f) == [] by { assert ["\n"][..0] == []; }
    CollectedAll(bodies, f, ys);
  }

  /** Each of those blocks reads back as its record. */
  lemma ParseBodies(rows: seq<Row>)
    requires forall i | 0 <= i < |rows| :: Clean(rows[i])
    ensures Collected([""] + (Bodies(rows) + ["\n"]), ParseBlock) == rows
  {
    var bodies := Bodies(rows);
    StripAllSpace("\n");
    forall i | 0 <= i < |rows| ensures ParseBlock(bodies[i]) == Some(rows[i]) {
      ParseCore(rows[i], false, "\n", "\n");
    }
    CollectedBetween(bodies, ParseBlock, rows);
  }

  /**
   * The rebuilt listing reads back as the records it was built from, when
   * each record can be carried unchanged: rebuilding what was read then
   * gives the same listing again.
   */
  lemma RebuildRoundTrip(rows: seq<Row>)
    requires forall i | 0 <= i < |rows| :: Clean(rows[i])
    ensures Parse(Rebuilt(rows)) == rows
  {
    RebuiltBlocks(rows);
    ParseBodies(rows);
  }

  /** Reading what was rebuilt and rebuilding it again changes nothing. */
  lemma RebuildIdempotent(rows: seq<Row>)
    requires forall i | 0 <= i < |rows| :: Clean(rows[i])
    ensures Rebuilt(Parse(Rebuilt(rows))) == Rebuilt(rows)
  {
    RebuildRoundTrip(rows);
  }

  /** Run on a listing it wrote itself, the update only moves the paths of the renamed files. */
  lemma UpdateRebuilt(rows: seq<Row>, renamed: (string, string) -> bool)
    requires forall i | 0 <= i < |rows| :: Clean(rows[i])
    ensures Rebuilt(Renamed(Parse(Rebuilt(rows)), renamed)) == Rebuilt(Renamed(rows, renamed))
  {
    RebuildRoundTrip(rows);
  }

  // ---------------------------------------------------------------------
  // Reading what main.py wrote
  // ---------------------------------------------------------------------

  /** The record muda_nome.py reads for one result main.py wrote. */
  function Listed(r: Ordinance.OcrResult): Row {
    Row(r.filename, Ordinance.Render(r.number), Ordinance.Render(r.date), r.excerpt)
  }

  /** The records for a whole list of results. */
  function Listing(rs: seq<Ordinance.OcrResult>): (r: seq<Row>)
    ensures |r| == |rs| && forall i | 0 <= i < |rs| :: r[i] == Listed(rs[i])
  {
    seq(|rs|, i requires 0 <= i < |rs| => Listed(rs[i]))
  }

  /** The regrouping behind `RecordTextFramed`, over plain strings. */
  lemma RegroupWritten(d: string, la: string, x: string, lb: string, y: string, lc: string, z: string, e: string)
    ensures d + "\n" + la + x + "\n" + lb + y + "\n" + lc + z + "\n" + "\n" + e + "\n\n"
            == d + ("\n" + (la + x + "\n" + (lb + y) + "\n" + (lc + z) + ("\n" + ("\n" + e))) + "\n\n")
    ensures d + "\n" + la + x + "\n" + lb + y + "\n" + lc + z + "\n" + "\n" + "" + "\n\n"
            == d + ("\n" + (la + x + "\n" + (lb + y) + "\n" + (lc + z) + "") + "\n\n\n\n")
  {
  }

  /** What follows the core of a record main.py wrote: only line breaks. */
  function WrittenTrail(r: Ordinance.OcrResult): (t: string)
    ensures AllSpace(t)
  {
    if r.excerpt != "" then "\n\n" else "\n\n\n\n"
  }

  /**
   * A record main.py wrote is a delimiter and a block holding the core of
   * its listed record, the text after a blank line, then line breaks.
   */
  lemma RecordTextFramed(r: Ordinance.OcrResult)
    ensures Ordinance.RecordText(r) == Framed("\n" + Core(Listed(r), true) + WrittenTrail(r))
  {
    assert "Arquivo: " == PathLabel + " ";
    assert Ordinance.OrdinanceNumberLabel == NumberLabel + " ";
    assert Ordinance.OrdinanceDateLabel == DateLabel + " ";
    RegroupWritten(Delimiter(), PathLabel + " ", r.filename, NumberLabel + " ", Ordinance.Render(r.number),
                   DateLabel + " ", Ordinance.Render(r.date), r.excerpt);
  }

  /** The blocks of a listing main.py wrote. */
  function WrittenBodies(rs: seq<Ordinance.OcrResult>): (r: seq<string>)
    ensures |r| == |rs|
  {
    seq(|rs|, i requires 0 <= i < |rs| => "\n" + Core(Listed(rs[i]), true) + WrittenTrail(rs[i]))
  }

  /** A listing main.py wrote splits into an empty head and one block per result. */
  lemma WrittenBlocks(rs: seq<Ordinance.OcrResult>)
    requires forall i | 0 <= i < |rs| :: Clean(Listed(rs[i]))
    ensures Blocks(Ordinance.RecordsText(rs)) == [""] + WrittenBodies(rs)
  {
    var bodies := WrittenBodies(rs);
    forall i | 0 <= i < |rs| ensures Ordinance.RecordText(rs[i]) == Framed(bodies[i]) && '=' !in bodies[i] {
      RecordTextFramed(rs[i]);
      CoreNoEquals(Listed(rs[i]), true);
    }
    ConcatPointwise(rs, Ordinance.RecordText, bodies, Framed);
    assert Ordinance.RecordsText(rs) == "" + Concat(bodies, Framed);
    SplitFramed("", bodies);
  }

  /**
   * What muda_nome.py reads from the listing main.py writes is one record
   * per result, in the same order, whenever each record can be carried
   * unchanged (no `=`, no stray labels, one-line fields).
   */
  lemma ReadWritten(rs: seq<Ordinance.OcrResult>)
    requires forall i | 0 <= i < |rs| :: Clean(Listed(rs[i]))
    ensures Parse(Ordinance.RecordsText(rs)) == Listing(rs)
  {
    var bodies := WrittenBodies(rs);
    var rows := Listing(rs);
    assert Blocks(Ordinance.RecordsText(rs)) == [""] + bodies by { WrittenBlocks(rs); }
    assert Collected(bodies, ParseBlock) == rows by {
      forall i | 0 <= i < |rs| ensures ParseBlock(bodies[i]) == Some(rows[i]) {
        ParseCore(Listed(rs[i]), true, "\n", WrittenTrail(rs[i]));
      }
      CollectedAll(bodies, ParseBlock, rows);
    }
    assert Collected([""] + bodies, ParseBlock) == rows by {
      CollectedAppend([""], bodies, ParseBlock);
      assert Collected([""], ParseBlock) == [] by { assert [""][..0] == []; }
    }
  }
}
