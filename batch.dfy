/**
 * What the decree and complementary-law pipelines share: the result of an
 * extraction, the 20-token excerpt, the acceptance rule that splits results
 * into valid and missing lists, the chunk ranges of `processar_em_blocos`,
 * the record writer and the mover that relocates renamed files.
 */
module Batch {
  import opened Text
  import opened Dates
  import opened FileNames

  /** What `extrair_informacoes` returns: number, normalised date, excerpt. */
  datatype Info = Info(number: Option<string>, date: IsoDate, excerpt: string)

  /** An OCR result after `ocr_result.update(...)`: the dictionary the writer and the mover see. */
  datatype Entry = Entry(filename: string, number: string, date: string, excerpt: string)

  // ---------------------------------------------------------------------
  // Excerpt
  // ---------------------------------------------------------------------

  const NoSummary: string := "Resumo não disponível"
  const ExcerptLength: nat := 20

  function Min(a: nat, b: nat): nat { if a <= b then a else b }

  /**
   * The excerpt after the header: the stripped rest of the text is
   * tokenised (`tokenize` stands for nltk's `word_tokenize`), and the first
   * twenty tokens are joined by single spaces.
   */
  function Excerpt(text: string, pos: nat, tokenize: string -> seq<string>): (r: string)
    requires pos <= |text|
    ensures tokenize(Strip(text[pos..])) == [] ==> r == NoSummary
  {
    var words := tokenize(Strip(text[pos..]));
    if words == [] then NoSummary else Join(words[..Min(ExcerptLength, |words|)], " ")
  }

  /**
   * Splitting a non-empty excerpt on single spaces gives back the first
   * twenty tokens (at most), provided tokens contain no space.
   */
  lemma ExcerptTokens(text: string, pos: nat, tokenize: string -> seq<string>)
    requires pos <= |text|
    requires var words := tokenize(Strip(text[pos..]));
             words != [] && forall k | 0 <= k < |words| :: ' ' !in words[k]
    ensures var words := tokenize(Strip(text[pos..]));
            && SplitOn(Excerpt(text, pos, tokenize), " ") == words[..Min(ExcerptLength, |words|)]
            && |SplitOn(Excerpt(text, pos, tokenize), " ")| <= ExcerptLength
  {
    var words := tokenize(Strip(text[pos..]));
    var first := words[..Min(ExcerptLength, |words|)];
    assert forall k | 0 <= k < |first| :: ' ' !in first[k] by {
      forall k | 0 <= k < |first| ensures ' ' !in first[k] { assert first[k] == words[k]; }
    }
    assert " " == [' '];
    SplitJoin(first, ' ');
  }

  // ---------------------------------------------------------------------
  // Acceptance and partition
  // ---------------------------------------------------------------------

  /** `int(data.split("-")[0]) if data != "0000-00-00" else 0`. */
  function ExtractedYear(date: IsoDate): nat
  {
    if date != Sentinel then YearOf(date) else 0
  }

  /** A result is valid when its number is truthy, its date known and its year in 2022..2025. */
  predicate Accepted(info: Info)
  {
    Truthy(info.number) && info.date != Sentinel && 2022 <= ExtractedYear(info.date) <= 2025
  }

  /** A valid result: the file is renamed after its number and date. */
  function ValidEntry(file: string, info: Info, renamed: (string, string) -> bool): Entry
    requires Truthy(info.number)
  {
    Entry(RenameByNumberAndDate(file, info.number, info.date, renamed), info.number.value, info.date, info.excerpt)
  }

  /** A missing result keeps its file and carries "N/A" for a missing number (`numero or "N/A"`). */
  function MissingEntry(file: string, info: Info): Entry {
    Entry(file, if Truthy(info.number) then info.number.value else "N/A", info.date, info.excerpt)
  }

  /** What one result adds to the valid list. */
  function ValidOne(file: string, info: Info, renamed: (string, string) -> bool): seq<Entry>
  {
    if Accepted(info) then [ValidEntry(file, info, renamed)] else []
  }

  /** What one result adds to the missing list. */
  function MissingOne(file: string, info: Info): seq<Entry>
  {
    if Accepted(info) then [] else [MissingEntry(file, info)]
  }

  /** The list a loop over the results builds by appending `one(files[k], infos[k])` for each k in order. */
  function Collect(files: seq<string>, infos: seq<Info>, one: (string, Info) -> seq<Entry>): seq<Entry>
    requires |files| == |infos|
    decreases |files|
  {
    if files == [] then []
    else
      var n := |files| - 1;
      Collect(files[..n], infos[..n], one) + one(files[n], infos[n])
  }

  /** The valid list after the loop has seen every result, in order. */
  function ValidEntries(files: seq<string>, infos: seq<Info>, renamed: (string, string) -> bool): seq<Entry>
    requires |files| == |infos|
  {
    Collect(files, infos, (f, i) => ValidOne(f, i, renamed))
  }

  /** The missing list after the loop has seen every result, in order. */
  function MissingEntries(files: seq<string>, infos: seq<Info>): seq<Entry>
    requires |files| == |infos|
  {
    Collect(files, infos, MissingOne)
  }

  /** The loop over OCR results that appends each to the valid or to the missing list. */
  method Partition(files: seq<string>, infos: seq<Info>, renamed: (string, string) -> bool)
    returns (valid: seq<Entry>, missing: seq<Entry>)
    requires |files| == |infos|
    ensures valid == ValidEntries(files, infos, renamed)
    ensures missing == MissingEntries(files, infos)
  {
    valid, missing := [], [];
    var i := 0;
    while i < |files|
      invariant 0 <= i <= |files|
      invariant valid == ValidEntries(files[..i], infos[..i], renamed)
      invariant missing == MissingEntries(files[..i], infos[..i])
    {
      assert files[..i + 1][..i] == files[..i] && infos[..i + 1][..i] == infos[..i];
      var info := infos[i];
      if !Truthy(info.number) || info.date == Sentinel || !(2022 <= ExtractedYear(info.date) <= 2025) {
        missing := missing + [MissingEntry(files[i], info)];
      } else {
        var path := RenameByNumberAndDate(files[i], info.number, info.date, renamed);
        valid := valid + [Entry(path, info.number.value, info.date, info.excerpt)];
      }
      i := i + 1;
    }
    assert files[..i] == files && infos[..i] == infos;
  }

  /** Every result lands in exactly one of the two lists. */
  lemma {:induction false} PartitionCounts(files: seq<string>, infos: seq<Info>, renamed: (string, string) -> bool)
    requires |files| == |infos|
    ensures |ValidEntries(files, infos, renamed)| + |MissingEntries(files, infos)| == |files|
    decreases |files|
  {
    if files != [] {
      var n := |files| - 1;
      PartitionCounts(files[..n], infos[..n], renamed);
    }
  }

  /** Every valid entry has a non-empty number and a known date of 2022..2025. */
  lemma {:induction false} ValidEntriesAccepted(files: seq<string>, infos: seq<Info>, renamed: (string, string) -> bool)
    requires |files| == |infos|
    ensures forall e | e in ValidEntries(files, infos, renamed) ::
              IsIsoShaped(e.date) && e.number != "" && e.date != Sentinel && 2022 <= YearOf(e.date) <= 2025
    decreases |files|
  {
    if files != [] {
      var n := |files| - 1;
      ValidEntriesAccepted(files[..n], infos[..n], renamed);
    }
  }

  /** Every valid entry keeps its file or moves it to the canonical name in the same directory. */
  lemma {:induction false} ValidEntriesRenamed(files: seq<string>, infos: seq<Info>, renamed: (string, string) -> bool)
    requires |files| == |infos|
    ensures forall e | e in ValidEntries(files, infos, renamed) ::
              e.filename in files || exists f | f in files :: e.filename == RenameTarget(f, e.number, e.date)
    decreases |files|
  {
    if files != [] {
      var n := |files| - 1;
      ValidEntriesRenamed(files[..n], infos[..n], renamed);
      assert forall f | f in files[..n] :: f in files;
      assert files[n] in files;
    }
  }

  /** Every missing entry has "N/A" for its number or a date outside what is accepted. */
  lemma {:induction false} MissingEntriesRejected(files: seq<string>, infos: seq<Info>)
    requires |files| == |infos|
    ensures forall e | e in MissingEntries(files, infos) ::
              IsIsoShaped(e.date) && (e.number == "N/A" || e.date == Sentinel || !(2022 <= YearOf(e.date) <= 2025))
    decreases |files|
  {
    if files != [] {
      var n := |files| - 1;
      MissingEntriesRejected(files[..n], infos[..n]);
    }
  }

  /**
   * Partitioning two lists one after the other gives the partition of the
   * whole list: processing in chunks yields the same valid and missing
   * entries, in the same order, as processing everything at once.
   */
  lemma PartitionAppend(f1: seq<string>, i1: seq<Info>, f2: seq<string>, i2: seq<Info>,
                        renamed: (string, string) -> bool)
    requires |f1| == |i1| && |f2| == |i2|
    ensures ValidEntries(f1 + f2, i1 + i2, renamed) == ValidEntries(f1, i1, renamed) + ValidEntries(f2, i2, renamed)
    ensures MissingEntries(f1 + f2, i1 + i2) == MissingEntries(f1, i1) + MissingEntries(f2, i2)
  {
    CollectAppend(f1, i1, f2, i2, (f, i) => ValidOne(f, i, renamed));
    CollectAppend(f1, i1, f2, i2, MissingOne);
  }

  /** Running the loop over two lists one after the other builds the list of their concatenation. */
  lemma {:induction false} CollectAppend(f1: seq<string>, i1: seq<Info>, f2: seq<string>, i2: seq<Info>,
                                         one: (string, Info) -> seq<Entry>)
    requires |f1| == |i1| && |f2| == |i2|
    ensures Collect(f1 + f2, i1 + i2, one) == Collect(f1, i1, one) + Collect(f2, i2, one)
    decreases |f2|
  {
    if f2 == [] {
      assert f1 + f2 == f1 && i1 + i2 == i1;
    } else {
      var n := |f2| - 1;
      var m := |f1| + n;
      var last := one(f2[n], i2[n]);
      assert Collect(f1 + f2, i1 + i2, one) == Collect(f1 + f2[..n], i1 + i2[..n], one) + last by {
        assert (f1 + f2)[..m] == f1 + f2[..n];
        assert (i1 + i2)[..m] == i1 + i2[..n];
        assert (f1 + f2)[m] == f2[n] && (i1 + i2)[m] == i2[n];
      }
      CollectAppend(f1, i1, f2[..n], i2[..n], one);
      AppendAssoc(Collect(f1, i1, one), Collect(f2[..n], i2[..n], one), last);
    }
  }

  // ---------------------------------------------------------------------
  // Chunks
  // ---------------------------------------------------------------------

  /** Ranges that tile 0..n in order: each non-empty and starting where the previous ended. */
  predicate Tiles(r: seq<(nat, nat)>, n: nat) {
    && (r == [] <==> n == 0)
    && (r != [] ==> r[0].0 == 0 && r[|r| - 1].1 == n)
    && (forall k | 0 <= k < |r| :: r[k].0 < r[k].1)
    && (forall k | 0 <= k < |r| - 1 :: r[k].1 == r[k + 1].0)
  }

  /** The k-th chunk of `range(0, n, size)`: `(inicio, min(inicio + size, n))` with `inicio == k * size`. */
  function ChunkBounds(k: nat, size: nat, n: nat): (nat, nat) {
    (k * size, Min(k * size + size, n))
  }

  /** `for inicio in range(0, n, size): fim = min(inicio + size, n)`. */
  method ChunkRanges(n: nat, size: nat) returns (r: seq<(nat, nat)>)
    requires size > 0
    ensures forall k | 0 <= k < |r| :: r[k] == ChunkBounds(k, size, n)
    ensures |r| * size >= n && (|r| == 0 || (|r| - 1) * size < n)
    ensures Tiles(r, n)
  {
    r := [];
    var start := 0;
    while start < n
      invariant start == |r| * size
      invariant |r| == 0 || (|r| - 1) * size < n
      invariant forall k | 0 <= k < |r| :: r[k] == ChunkBounds(k, size, n)
      invariant forall k | 0 <= k < |r| :: r[k].0 < r[k].1
      invariant r != [] ==> r[|r| - 1].1 == Min(start, n)
      invariant forall k | 0 <= k < |r| - 1 :: r[k].1 == r[k + 1].0
      invariant r == [] ==> start == 0
      invariant r != [] ==> r[0].0 == 0
    {
      ghost var count := |r|;
      var chunk := (start, Min(start + size, n));
      assert chunk == ChunkBounds(count, size, n);
      r := r + [chunk];
      assert (|r| - 1) * size == start by { assert |r| - 1 == count; }
      assert |r| * size == start + size by { assert |r| == count + 1; }
      start := start + size;
    }
  }

  /** In a tiling every index below n lies in exactly one range, and the ranges are in increasing order. */
  lemma {:induction false} TilesCover(r: seq<(nat, nat)>, n: nat, j: nat)
    requires Tiles(r, n) && j < n
    ensures exists k :: 0 <= k < |r| && r[k].0 <= j < r[k].1
    ensures forall k1, k2 | 0 <= k1 < k2 < |r| :: r[k1].1 <= r[k2].0
    decreases |r|
  {
    TilesOrdered(r, n);
    if j < r[0].1 {
      assert r[0].0 <= j < r[0].1;
    } else {
      var rest := r[1..];
      TilesCoverFrom(rest, r[0].1, n, j);
    }
  }

  /** The same property for a tiling of start..n. */
  lemma {:induction false} TilesCoverFrom(r: seq<(nat, nat)>, start: nat, n: nat, j: nat)
    requires r != [] && r[0].0 == start && r[|r| - 1].1 == n
    requires forall k | 0 <= k < |r| :: r[k].0 < r[k].1
    requires forall k | 0 <= k < |r| - 1 :: r[k].1 == r[k + 1].0
    requires start <= j < n
    ensures exists k :: 0 <= k < |r| && r[k].0 <= j < r[k].1
    decreases |r|
  {
    if j < r[0].1 {
      assert r[0].0 <= j < r[0].1;
    } else {
      assert |r| > 1;
      TilesCoverFrom(r[1..], r[0].1, n, j);
      var k :| 0 <= k < |r[1..]| && r[1..][k].0 <= j < r[1..][k].1;
      assert r[k + 1].0 <= j < r[k + 1].1;
    }
  }

  lemma TilesOrdered(r: seq<(nat, nat)>, n: nat)
    requires Tiles(r, n)
    ensures forall k1, k2 | 0 <= k1 < k2 < |r| :: r[k1].1 <= r[k2].0
  {
    forall k1, k2 | 0 <= k1 < k2 < |r| ensures r[k1].1 <= r[k2].0 {
      TilesStep(r, n, k1, k2);
    }
  }

  lemma {:induction false} TilesStep(r: seq<(nat, nat)>, n: nat, k1: nat, k2: nat)
    requires Tiles(r, n) && k1 < k2 < |r|
    ensures r[k1].1 <= r[k2].0
    decreases k2 - k1
  {
    if k2 > k1 + 1 {
      TilesStep(r, n, k1 + 1, k2);
    }
  }

  /** The names of the two files written per chunk: `resultado_ocr_{inicio+1}-{fim}.txt` and its missing twin. */
  function ChunkFileName(missing: bool, lo: nat, hi: nat): string {
    (if missing then "resultado_ocr_missing_" else "resultado_ocr_") + NatToString(lo + 1) + "-" + NatToString(hi) + ".txt"
  }

  // ---------------------------------------------------------------------
  // Writer
  // ---------------------------------------------------------------------

  /** The record delimiter: fifty '='. */
  function Delimiter(): (d: string)
    ensures |d| == 50 && forall k | 0 <= k < |d| :: d[k] == '='
  {
    seq(50, k => '=')
  }

  const DecreeNumberLabel: string := "Número do Decreto: "
  const LawNumberLabel: string := "Número da Lei: "

  /** One record as `salvar_resultados_em_txt` writes it, with the number label of the document type. */
  function EntryText(e: Entry, numberLabel: string): string {
    Delimiter() + "\n" + "Arquivo: " + e.filename + "\n" + numberLabel + e.number + "\n"
    + "Data: " + e.date + "\n" + "Trecho capturado: " + e.excerpt + "\n" + "\n"
  }

  function EntriesText(es: seq<Entry>, numberLabel: string): string
    decreases |es|
  {
    if es == [] then "" else EntriesText(es[..|es| - 1], numberLabel) + EntryText(es[|es| - 1], numberLabel)
  }

  /** The file contents `salvar_resultados_em_txt` writes, record by record in list order. */
  method WriteEntries(es: seq<Entry>, numberLabel: string) returns (out: string)
    ensures out == EntriesText(es, numberLabel)
  {
    out := "";
    var i := 0;
    while i < |es|
      invariant 0 <= i <= |es|
      invariant out == EntriesText(es[..i], numberLabel)
    {
      assert es[..i + 1][..i] == es[..i];
      out := out + EntryText(es[i], numberLabel);
      i := i + 1;
    }
    assert es[..i] == es;
  }

  // ---------------------------------------------------------------------
  // Mover
  // ---------------------------------------------------------------------

  /** The entry after one step of `mover_arquivos_para_pasta`. */
  function MovedEntry(e: Entry, dest: string, moved: (string, string) -> bool): Entry {
    var target := PathJoin(dest, Basename(e.filename));
    if moved(e.filename, target) then e.(filename := target) else e
  }

  /**
   * `mover_arquivos_para_pasta`: each file is moved into `dest` under its
   * base name, and its entry's filename is updated only when the move
   * succeeds.
   */
  method MoveAll(a: array<Entry>, dest: string, moved: (string, string) -> bool)
    modifies a
    ensures forall k | 0 <= k < a.Length :: a[k] == MovedEntry(old(a[k]), dest, moved)
  {
    var i := 0;
    while i < a.Length
      invariant 0 <= i <= a.Length
      invariant forall k | 0 <= k < i :: a[k] == MovedEntry(old(a[k]), dest, moved)
      invariant forall k | i <= k < a.Length :: a[k] == old(a[k])
    {
      var current := a[i].filename;
      var target := PathJoin(dest, Basename(current));
      if moved(current, target) {
        a[i] := a[i].(filename := target);
      }
      i := i + 1;
    }
  }

  /** The entries after `mover_arquivos_para_pasta`, each moved or left as it was. */
  function MovedEntries(es: seq<Entry>, dest: string, moved: (string, string) -> bool): (r: seq<Entry>)
    ensures |r| == |es|
  {
    seq(|es|, k requires 0 <= k < |es| => MovedEntry(es[k], dest, moved))
  }

  /** Moving a list that is built from two parts moves each part. */
  lemma MovedEntriesAppend(e1: seq<Entry>, e2: seq<Entry>, dest: string, moved: (string, string) -> bool)
    ensures MovedEntries(e1 + e2, dest, moved) == MovedEntries(e1, dest, moved) + MovedEntries(e2, dest, moved)
  {
  }

  /** `mover_arquivos_para_pasta` on a list: the dictionaries go into an array the mover updates in place. */
  method MoveList(es: seq<Entry>, dest: string, moved: (string, string) -> bool) returns (r: seq<Entry>)
    ensures r == MovedEntries(es, dest, moved)
  {
    var a := new Entry[|es|](k requires 0 <= k < |es| => es[k]);
    MoveAll(a, dest, moved);
    r := a[..];
  }

  /** One file written by a pipeline: its name and its contents. */
  datatype Written = Written(name: string, contents: string)

  /** Moving keeps the base name, the number, the date and the excerpt; the file ends up in `dest` or stays. */
  lemma MovedEntryKeeps(e: Entry, dest: string, moved: (string, string) -> bool)
    ensures var m := MovedEntry(e, dest, moved);
            && Basename(m.filename) == Basename(e.filename)
            && m.number == e.number && m.date == e.date && m.excerpt == e.excerpt
            && (m.filename == e.filename || m.filename == PathJoin(dest, Basename(e.filename)))
  {
    BasenamePathJoin(dest, Basename(e.filename));
  }
}
