/**
 * The driver loops of decreto.py (`processar_em_blocos`) and of
 * lei_complementar.py (its `__main__` block). Both are written here over
 * an arbitrary extraction: `extract` stands for the OCR of a file followed
 * by the script's `extrair_informacoes`, whatever the document type.
 */
module Pipeline {
  import opened Dates
  import opened Batch

  /** The extraction of each file, in order. */
  function InfosOf(files: seq<string>, extract: string -> Info): (r: seq<Info>)
    ensures |r| == |files|
  {
    seq(|files|, k requires 0 <= k < |files| => extract(files[k]))
  }

  /** The valid entries of `files` once the mover has run over them. */
  function Placed(files: seq<string>, extract: string -> Info, renamed: (string, string) -> bool,
                  dest: string, moved: (string, string) -> bool): seq<Entry>
  {
    MovedEntries(ValidEntries(files, InfosOf(files, extract), renamed), dest, moved)
  }

  /** Placing two lists one after the other places their concatenation. */
  lemma PlacedAppend(f1: seq<string>, f2: seq<string>, extract: string -> Info, renamed: (string, string) -> bool,
                     dest: string, moved: (string, string) -> bool)
    ensures Placed(f1 + f2, extract, renamed, dest, moved)
            == Placed(f1, extract, renamed, dest, moved) + Placed(f2, extract, renamed, dest, moved)
  {
    var i1, i2 := InfosOf(f1, extract), InfosOf(f2, extract);
    assert InfosOf(f1 + f2, extract) == i1 + i2;
    PartitionAppend(f1, i1, f2, i2, renamed);
    MovedEntriesAppend(ValidEntries(f1, i1, renamed), ValidEntries(f2, i2, renamed), dest, moved);
  }

  // ---------------------------------------------------------------------
  // processar_em_blocos (decreto.py)
  // ---------------------------------------------------------------------

  /** The two files written for the chunk lo..hi, before the mover runs. */
  function ChunkOutput(files: seq<string>, lo: nat, hi: nat, extract: string -> Info, numberLabel: string,
                       renamed: (string, string) -> bool): seq<Written>
    requires lo <= hi <= |files|
  {
    var chunk := files[lo..hi];
    var infos := InfosOf(chunk, extract);
    [Written(ChunkFileName(false, lo, hi), EntriesText(ValidEntries(chunk, infos, renamed), numberLabel)),
     Written(ChunkFileName(true, lo, hi), EntriesText(MissingEntries(chunk, infos), numberLabel))]
  }

  /** One pass of the chunk loop: extract, partition, write both lists, move the valid files. */
  method ProcessChunk(files: seq<string>, lo: nat, hi: nat, extract: string -> Info, numberLabel: string,
                      dest: string, renamed: (string, string) -> bool, moved: (string, string) -> bool)
    returns (out: seq<Written>, movedValid: seq<Entry>)
    requires lo <= hi <= |files|
    ensures out == ChunkOutput(files, lo, hi, extract, numberLabel, renamed)
    ensures movedValid == Placed(files[lo..hi], extract, renamed, dest, moved)
  {
    var chunk := files[lo..hi];
    var infos := InfosOf(chunk, extract);
    var valid, missing := Partition(chunk, infos, renamed);
    var validText := WriteEntries(valid, numberLabel);
    var missingText := WriteEntries(missing, numberLabel);
    out := [Written(ChunkFileName(false, lo, hi), validText), Written(ChunkFileName(true, lo, hi), missingText)];
    movedValid := MoveList(valid, dest, moved);
  }

  /** The files written for each of the chunks `rs`, in order. */
  ghost function ChunkOutputs(files: seq<string>, rs: seq<(nat, nat)>, extract: string -> Info, numberLabel: string,
                              renamed: (string, string) -> bool): (r: seq<seq<Written>>)
    requires forall k | 0 <= k < |rs| :: rs[k].0 <= rs[k].1 <= |files|
    ensures |r| == |rs|
  {
    seq(|rs|, k requires 0 <= k < |rs| => ChunkOutput(files, rs[k].0, rs[k].1, extract, numberLabel, renamed))
  }

  /**
   * The chunk loop over any tiling of 0..|files|: the files written are the
   * outputs of the chunks in order, and the entries moved are those of
   * placing all files at once.
   */
  method RunChunks(files: seq<string>, ranges: seq<(nat, nat)>, extract: string -> Info, numberLabel: string,
                   dest: string, renamed: (string, string) -> bool, moved: (string, string) -> bool)
    returns (written: seq<seq<Written>>, placed: seq<Entry>)
    requires Tiles(ranges, |files|)
    requires forall k | 0 <= k < |ranges| :: ranges[k].1 <= |files|
    ensures written == ChunkOutputs(files, ranges, extract, numberLabel, renamed)
    ensures placed == Placed(files, extract, renamed, dest, moved)
  {
    written, placed := [], [];
    var done := 0;
    var c := 0;
    while c < |ranges|
      invariant 0 <= c <= |ranges|
      invariant done == (if c == 0 then 0 else ranges[c - 1].1) && done <= |files|
      invariant written == ChunkOutputs(files, ranges[..c], extract, numberLabel, renamed)
      invariant placed == Placed(files[..done], extract, renamed, dest, moved)
    {
      var lo, hi := ranges[c].0, ranges[c].1;
      var out, movedValid := ProcessChunk(files, lo, hi, extract, numberLabel, dest, renamed, moved);
      OutputsStep(files, ranges, c, extract, numberLabel, renamed);
      written := written + [out];
      PlacedStep(files, lo, hi, extract, renamed, dest, moved);
      placed := placed + movedValid;
      done, c := hi, c + 1;
    }
    assert files[..done] == files;
    assert ranges[..c] == ranges;
  }

  /** One more chunk appends its output. */
  lemma OutputsStep(files: seq<string>, rs: seq<(nat, nat)>, c: nat, extract: string -> Info, numberLabel: string,
                    renamed: (string, string) -> bool)
    requires c < |rs|
    requires forall k | 0 <= k < |rs| :: rs[k].0 <= rs[k].1 <= |files|
    ensures ChunkOutputs(files, rs[..c + 1], extract, numberLabel, renamed)
            == ChunkOutputs(files, rs[..c], extract, numberLabel, renamed) + [ChunkOutput(files, rs[c].0, rs[c].1, extract, numberLabel, renamed)]
  {
    var a := ChunkOutputs(files, rs[..c + 1], extract, numberLabel, renamed);
    var b := ChunkOutputs(files, rs[..c], extract, numberLabel, renamed);
    forall k | 0 <= k < c ensures a[k] == b[k] {
      assert rs[..c + 1][k] == rs[..c][k];
    }
    assert a == b + [a[c]];
  }

  /** Placing the files up to `hi` is placing those up to `lo`, then the chunk lo..hi. */
  lemma PlacedStep(files: seq<string>, lo: nat, hi: nat, extract: string -> Info, renamed: (string, string) -> bool,
                   dest: string, moved: (string, string) -> bool)
    requires lo <= hi <= |files|
    ensures Placed(files[..hi], extract, renamed, dest, moved)
            == Placed(files[..lo], extract, renamed, dest, moved) + Placed(files[lo..hi], extract, renamed, dest, moved)
  {
    assert files[..hi] == files[..lo] + files[lo..hi];
    PlacedAppend(files[..lo], files[lo..hi], extract, renamed, dest, moved);
  }

  /**
   * `processar_em_blocos`: chunk by chunk of `size` files, extract,
   * partition, write the valid and the missing records, then move the valid
   * files into `dest`. There are ceil(|files| / size) chunks; the files
   * written for chunk k are the outputs of files[k * size..min(k * size +
   * size, |files|)], and the moved entries are exactly those of processing
   * all files as one list.
   */
  method ProcessInChunks(files: seq<string>, size: nat, extract: string -> Info, numberLabel: string,
                         dest: string, renamed: (string, string) -> bool, moved: (string, string) -> bool)
    returns (written: seq<seq<Written>>, placed: seq<Entry>)
    requires size > 0
    ensures |written| * size >= |files| && (|written| == 0 || (|written| - 1) * size < |files|)
    ensures forall k | 0 <= k < |written| ::
              var (lo, hi) := ChunkBounds(k, size, |files|);
              lo < hi <= |files| && written[k] == ChunkOutput(files, lo, hi, extract, numberLabel, renamed)
    ensures placed == Placed(files, extract, renamed, dest, moved)
  {
    var ranges := ChunkRanges(|files|, size);
    written, placed := RunChunks(files, ranges, extract, numberLabel, dest, renamed, moved);
  }

  // ---------------------------------------------------------------------
  // The __main__ block of lei_complementar.py
  // ---------------------------------------------------------------------

  const ValidFile: string := "resultado_ocr.txt"
  const MissingFile: string := "resultado_ocr_missing.txt"

  /**
   * Extract every file, split the results into valid and missing, write
   * both lists, then move the valid files into `dest`.
   */
  method ProcessAll(files: seq<string>, extract: string -> Info, numberLabel: string,
                    dest: string, renamed: (string, string) -> bool, moved: (string, string) -> bool)
    returns (written: seq<Written>, placed: seq<Entry>)
    ensures var infos := InfosOf(files, extract);
            written == [Written(ValidFile, EntriesText(ValidEntries(files, infos, renamed), numberLabel)),
                        Written(MissingFile, EntriesText(MissingEntries(files, infos), numberLabel))]
    ensures placed == Placed(files, extract, renamed, dest, moved)
  {
    var infos := InfosOf(files, extract);
    var valid, missing := Partition(files, infos, renamed);
    var validText := WriteEntries(valid, numberLabel);
    var missingText := WriteEntries(missing, numberLabel);
    written := [Written(ValidFile, validText), Written(MissingFile, missingText)];
    placed := MoveList(valid, dest, moved);
  }
}
