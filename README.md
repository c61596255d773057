# Resumo: the record-extraction core, modelled in Dafny

Resumo turns OCR text of municipal acts into structured records. The acts are
decrees, complementary laws and ordinances of Aracaju. For each act it extracts
the number, the date and a short excerpt, and derives a canonical file name. It
writes the records to a flat text file whose records are separated by a line of
50 `=` characters. Later scripts re-read that file, rename the PDFs and publish
the records.

This project models the deterministic string-processing core of those scripts
and proves what it promises.

- **Date normaliser** (`formatar_data`, module `Dates`). It scans for
  `\d{1,2}\s+de\s+\w+\s+de\s+\d{4}` (case-insensitive) and builds
  `yyyy-mm-dd` from the 12-entry month table. An unknown month becomes `00`,
  the day is zero-filled to two places, and a text with no date gives
  `0000-00-00`.
- **Header scanners**, one per document type:
  - decrees (`Decree`): number, an optional date clause, and the
    `Aracaju,` fallback;
  - complementary laws (`Law`);
  - ordinances (`Ordinance`): number line, first date, and the excerpt up to
    the first period.
  - The shared pieces (the `N.º` lead, number runs, the `DE` separator) are
    in `Headers`, and the `label:\s*(.+)` capture is in `Capture`.
- **Excerpts**. `Batch.Excerpt` takes the first 20 tokens after the header.
  The tokenizer is a function parameter.
- **Acceptance and batch driver**. `Batch` holds the valid/missing
  partition, the chunk ranges, the record writer and the mover. `Pipeline`
  holds the chunked decree loop and the single-pass law loop.
- **Canonical file names** (`FileNames`):
  - the number reduced to ASCII letters and digits, then `-date.pdf`;
  - the number with `/` removed, then `.pdf`.
  - The rename itself is an oracle parameter that answers whether the rename
    succeeded.
- **Duplicate-number resolver** of `main.py` (`Ordinance.Annotate`). It is an
  array loop that rewrites the first occurrence retroactively. It is proved
  against the declarative `Resolved`. The stable sort by effective number
  follows (`SortByKey`).
- **Listing rewriter** of `muda_nome.py` (`Renamer`): the positional block
  parser, rename-or-keep, and the rebuild loop.
  - Proved: rebuild, then parse, gives back the rows.
  - Proved: `main.py`'s writer output parses into its records.
- **Listing reader** of `postar.py` (`Poster`): the split on runs of `=`,
  the labelled fields, the date tuple and the text lines.
  - Proved: a rebuilt listing reads back with its paths, numbers and texts.
- **Element reader and payload** of `cadastrar.py` (`Register`):
  - the split on newline-framed `=` lines;
  - the three-label filter and the date split;
  - the payload dictionary;
  - a proof that none of the other writers' listings yields an element.

Each regex is a hand-written scanner. For each scanner, a "shape" predicate
states what the pattern matches. A soundness lemma proves that every match the
scanner returns has that shape. A completeness lemma proves that the scanner
finds every occurrence of the shape. A search over a table of match attempts
gives the leftmost match, as `re.search` does.

The character classes are restricted to what the inputs use:

- `\d` is ASCII digits;
- `\w` is ASCII letters and digits, `_` and the Latin-1 letters;
- `\s` is Python's `str.isspace` set;
- case-insensitive matching folds ASCII and Latin-1 letters.

## Model

| member | source | states |
|---|---|---|
| Dates.MonthTableBijective | decreto.py:53-57 | the twelve month names map to 1..12 in order, and a name that maps is the table's name for that month |
| Dates.MonthCode | decreto.py:66 | the month code is always two digits, and it is `00` exactly when the name is not in the table |
| Dates.ZFill2 | decreto.py:67 | the day is padded to exactly two characters: the input is kept as the suffix, a one-digit day gets a leading `0`, and digits stay digits |
| Dates.ZFill2OfNat | decreto.py:67 | zero-filling the decimal form of a day below 100 gives its two-digit form |
| Dates.DayMonthAt | decreto.py:63 | a day-and-month match returned at a position has the pattern's shape (1-2 digits, spaces, `de`, spaces, a word run) |
| Dates.DayMonthComplete | decreto.py:63 | every occurrence of the day-and-month shape at a position is the match found there |
| Dates.YearTailComplete | decreto.py:63 | every `\s+de\s+\d{4}` tail after the month is recognised |
| Dates.DateAt | decreto.py:63 | a date match has the full `d de w de yyyy` shape and ends inside the text |
| Dates.DateComplete | decreto.py:63 | every position where the full date shape occurs yields that match |
| Dates.SearchDate | decreto.py:63 | the search returns the leftmost date match, and none is found only when no position matches |
| Dates.FormatDate | decreto.py:52-68 | the result is always `yyyy-mm-dd` shaped, and it is the sentinel `0000-00-00` when no date occurs (the empty text included) |
| Dates.SearchFindsFirst | decreto.py:63-65 | the search finds the first position at which a date occurs |
| Dates.FormatDateFirst | decreto.py:63-67 | the normalised date is built from the first date in the text |
| Dates.FormatPhrase | decreto.py:63-67 | a phrase `d de m de y` normalises to `y` + `-` + month code of the lower-cased month + `-` + the zero-filled day, whatever the case of `de` |
| Dates.FormatCalendarDate | decreto.py:53-67 | `d de <name of month m> de y` normalises to `y-mm-dd`, with two-digit month and day |
| Dates.NoDateInDayMonth | decreto.py:63 | a clause holding only a day and a month contains no full date anywhere |
| Dates.FormatDayMonthOnly | decreto.py:59-68 | a year-less `d de m` clause normalises to the sentinel |
| Dates.FormatPhraseText | lei_complementar.py:77-78 | normalising the captured date phrase by itself gives the date the match denotes |
| Dates.IsoOfParts | lei_complementar.py:63-65 | the normalised date depends only on the day, month and year texts of the match |
| Headers.LeadAfterNSound | decreto.py:74 | the `\.?\s*[º°o]?\s*` lead after `N` that the scanner accepts has the pattern's shape |
| Headers.LeadAfterNComplete | decreto.py:74 | every lead of that shape is accepted, and the same lead is chosen when the optional dot is present |
| Headers.NumberEndRun | decreto.py:74 | the number run `[\d.,]+` (digits only for laws) is maximal |
| Headers.NumberEndUnique | lei_complementar.py:72 | any maximal number run starting at a position ends where the scanner says |
| Headers.DeSeparator | decreto.py:74 | the `\s*DE\s+` separator found is spaces, `de` in any case, and at least one space |
| Headers.DeSeparatorComplete | decreto.py:74 | every such separator is recognised, with its end at the first non-space |
| Decree.ClauseAt | decreto.py:74 | the optional date clause after the number is a day-and-month match, with a year tail exactly when one follows |
| Decree.NumberAtSound | decreto.py:74 | a decree header match is `decreto`, spaces, `N`, a lead and a non-empty number run |
| Decree.NumberAtComplete | decreto.py:74 | every occurrence of that header shape is matched at its position |
| Decree.SearchNumberLeftmost | decreto.py:75 | the header found is the leftmost one, and none is found only when no position matches |
| Decree.HasDeYear | decreto.py:81 | the year check holds exactly when a case-sensitive `de\s+\d{4}` occurs in the clause |
| Decree.SearchAracaju | decreto.py:82 | the fallback is the leftmost `Aracaju,` followed by spaces and a full date |
| Decree.HeaderDate | decreto.py:79-85 | the header's date is always `yyyy-mm-dd` shaped |
| Decree.ExtractDecree | decreto.py:71-97 | with no header the date is the sentinel and the excerpt starts at offset 0; a found number is non-empty |
| Decree.DecreeAbsent | decreto.py:87-90 | the number is absent exactly when no position of the text matches the header |
| Decree.DecreeFound | decreto.py:77-95 | with a header, the result is the number run of the leftmost match, its date, and the excerpt after the match end |
| Decree.NoClauseSentinel | decreto.py:79-85 | without a date clause the date is the sentinel and the excerpt starts after the number |
| Decree.ClauseWithYear | decreto.py:81-85 | a clause with a lower-case `de yyyy` is normalised as it stands |
| Decree.ClauseReplacedByAracaju | decreto.py:81-85 | a clause without it is replaced by the first `Aracaju,` date when there is one |
| Decree.AracajuDate | decreto.py:82-85 | the replaced date is the normalisation of the fallback date |
| Decree.ClauseWithoutYear | decreto.py:81-85 | a year-less clause with no `Aracaju,` date gives the sentinel |
| Decree.ClauseKeptWithoutAracaju | decreto.py:81-85 | a clause without a lower-case `de yyyy` and no `Aracaju,` date in the text is normalised as it stands |
| Decree.ClauseDate | decreto.py:74-85 | a clause carrying its year, kept as it stands, gives the clause's own day, month and year, whatever the case of `DE` |
| Law.LawNumberAtSound | lei_complementar.py:72 | a law number match is `lei`, spaces, `complementar`, spaces, `N`, a lead and a digit run |
| Law.LawNumberAtComplete | lei_complementar.py:72 | every occurrence of that shape is the match at its position |
| Law.LawHeaderAtSound | lei_complementar.py:72 | a full law header adds spaces, `de`, spaces and a full date after the number |
| Law.LawHeaderAtComplete | lei_complementar.py:72 | every occurrence of the full header shape is matched |
| Law.SearchLawHeaderLeftmost | lei_complementar.py:73 | the header found is the leftmost, and none is found only when no position matches |
| Law.ExtractLaw | lei_complementar.py:69-90 | with no header the date is the sentinel and the excerpt starts at 0; a found number is non-empty |
| Law.LawAbsent | lei_complementar.py:80-83 | the number is absent exactly when no position matches the header |
| Law.LawFound | lei_complementar.py:75-88 | with a header, the result is its digit run, the normalised date and the excerpt after the match end |
| Batch.Excerpt | decreto.py:93-95 | no tokens after the header gives exactly `Resumo não disponível` |
| Batch.ExcerptTokens | decreto.py:93-95 | otherwise the excerpt splits on single spaces into the first at most 20 tokens, in order |
| Batch.Partition | decreto.py:155-175 | the loop builds exactly the valid and the missing lists of the acceptance rule |
| Batch.PartitionCounts | lei_complementar.py:148-164 | every result lands in exactly one of the two lists |
| Batch.ValidEntriesAccepted | decreto.py:159-160 | a valid entry has a non-empty number and a non-sentinel date whose year is in 2022..2025 |
| Batch.ValidEntriesRenamed | decreto.py:168-170 | a valid entry's file is the original or its rename target |
| Batch.MissingEntriesRejected | decreto.py:160-163 | a missing entry has number `N/A`, the sentinel date, or a year outside 2022..2025 |
| Batch.PartitionAppend | decreto.py:146-175 | partitioning chunk by chunk gives the same lists, concatenated, as partitioning all files at once |
| Batch.ChunkRanges | decreto.py:146-147 | the chunks are `[k*size, min(k*size+size, n))`, just enough of them to reach `n`, and they tile `[0, n)` |
| Batch.TilesCover | decreto.py:146-147 | every file index falls in some chunk |
| Batch.TilesOrdered | decreto.py:146-147 | chunks are in order and do not overlap |
| Batch.Delimiter | decreto.py:121 | the delimiter is 50 `=` characters |
| Batch.WriteEntries | decreto.py:118-126 | the writer loop emits, record by record, the delimiter line, the four labelled lines and a blank line |
| Batch.MoveAll | lei_complementar.py:123-134 | each entry's file becomes the destination joined with its base name when the move succeeds, and is kept otherwise |
| Batch.MoveList | decreto.py:130-141 | the list form of the mover moves every entry in order |
| Batch.MovedEntryKeeps | lei_complementar.py:126-132 | a move keeps the base name, number, date and excerpt, and the file is either unchanged or the destination path |
| Batch.MovedEntriesAppend | decreto.py:182 | moving chunk by chunk moves the same entries as one pass |
| Pipeline.ProcessChunk | decreto.py:151-182 | one chunk writes its valid and missing listings and moves its valid entries |
| Pipeline.RunChunks | decreto.py:146-182 | over tiling ranges, each chunk's outputs are written and all valid entries of the run are moved |
| Pipeline.ProcessInChunks | decreto.py:144-184 | with chunk size `size`, output `k` covers the files of chunk `k` and every valid file is placed |
| Pipeline.ProcessAll | lei_complementar.py:143-170 | the law run writes the valid and the missing listing of all files and moves the valid ones |
| Pipeline.PlacedAppend | decreto.py:182 | extract-partition-move over two file lists is the concatenation of the two runs |
| FileNames.CanonicalName | decreto.py:103-104 | the new name contains no `/` when the date has none |
| FileNames.CanonicalNameParts | decreto.py:103-104 | the name is the number kept to `[0-9A-Za-z]`, `-`, the ten-character date and `.pdf` |
| FileNames.RenameByNumberAndDate | decreto.py:100-115 | a rename is attempted only with a truthy number and a non-sentinel date; on failure the original path comes back |
| FileNames.RenamedBaseName | lei_complementar.py:93-108 | a changed path is the canonical name joined to the original directory, and so has the canonical name as its base name |
| FileNames.SlashFreeName | muda_nome.py:37-38 | the name has no `/`, and is the number plus `.pdf` when the number had none |
| FileNames.RenameByNumber | muda_nome.py:37-50 | a successful rename gives `number without / .pdf` joined to the original directory; a failed one keeps the original path |
| Text.KeepAlnumIdempotent | decreto.py:103 | filtering to `[0-9A-Za-z]` twice is filtering once |
| Text.FindFrom | main.py:66 | the first occurrence at or after a position, or -1 when there is none |
| Text.ParseNatToString | cadastrar.py:50 | reading back the decimal form of a number gives the number |
| Capture.CaptureSound | postar.py:132 | `label:\s*(.+)` captures from the first non-space after the label to the end of its line, and no later start is valid |
| Capture.SearchCaptureLeftmost | postar.py:132 | the capture is taken at the leftmost label occurrence that has a capture |
| Capture.CapturedField | postar.py:132-133 | a field line `label value` with no earlier label yields the value |
| Ordinance.SignAtSound | main.py:52 | `portaria`, spaces, `N`, an optional dot and `º` or `°`, in any case |
| Ordinance.SignAtComplete | main.py:52 | every occurrence of that sign is recognised |
| Ordinance.NumberAbsent | main.py:56-57 | the number is None exactly when no position matches |
| Ordinance.NumberFound | main.py:52-57 | the number is the stripped text from the first non-space character after the leftmost sign, possibly on a later line, to the end of that line |
| Ordinance.NumberOnNextLine | main.py:51-57 | a sign that ends its line takes its number from the next line |
| Ordinance.NumberOneLine | main.py:52 | the number contains neither `\r` nor `\n` |
| Ordinance.DateMatchGap | main.py:54 | an optional `De` prefix only moves the match start; no date starts inside it |
| Ordinance.SearchDateMatchSame | main.py:54 | the date pattern with the optional prefix finds the same date as the bare phrase pattern |
| Ordinance.OrdinanceDateIsPhrase | main.py:59-60 | the date is the first date phrase, un-normalised, or None; normalised, it equals the normalised text |
| Ordinance.UpToPeriodFacts | main.py:65-68 | the text after the date, stripped, is cut just after its first `.`, or kept whole when it has none |
| Ordinance.PeriodCutFacts | main.py:66-68 | cutting a stripped text after its first `.` gives a stripped prefix ending in that period with no earlier one, or the whole text when it has no period |
| Ordinance.OrdinanceExcerpt | main.py:62-68 | with no date the excerpt is empty |
| Ordinance.ExtractExcerpt | main.py:63-68 | with a date the excerpt is the period cut after the date's end |
| Ordinance.Resolved | main.py:101-116 | the resolved numbers keep the length of the batch |
| Ordinance.RankBounds | main.py:101-111 | an occurrence's rank is between 1 and the count of its number |
| Ordinance.RankIncreasing | main.py:111 | later occurrences of a number get larger suffixes |
| Ordinance.ResolvedDistinct | main.py:105-111 | two occurrences of a repeated number get `n-rank` suffixes and end up different |
| Ordinance.ResolvedStep | main.py:101-114 | adding one result: a new number stays bare, the k-th becomes `n-k`, and the first becomes `n-1` exactly when the count reaches 2 |
| Ordinance.TurnUpdate | main.py:101-118 | one loop turn writes the current record and, at the second occurrence only, rewrites the first |
| Ordinance.TakeTurn | main.py:99-118 | the array after a turn is the turn's specification, and the maps still hold counts and first indices |
| Ordinance.Annotate | main.py:98-118 | the array after the loop holds each record with its resolved number, date and excerpt |
| Ordinance.InsertPermutes | main.py:121 | inserting adds exactly that record |
| Ordinance.InsertSorted | main.py:121 | inserting into a sorted list keeps it sorted |
| Ordinance.InsertWithKey | main.py:121 | an inserted record goes after every record with the same key |
| Ordinance.SortByKeyFacts | main.py:121 | the sort is ordered by key (None as ``), a permutation, and stable for every key |
| Ordinance.WriteRecords | main.py:74-82 | the writer loop emits per record the delimiter, three labelled lines, a blank line, the text and a blank line |
| Ordinance.ProcessOrdinances | main.py:98-124 | the driver annotates in place and writes the stably sorted records |
| Renamer.Field | muda_nome.py:25-27 | a field is the stripped line with the label removed |
| Renamer.LabelledField | muda_nome.py:25-27 | `label value` reads back as the value |
| Renamer.ParseBlock | muda_nome.py:17-28 | a blank block gives no row; a row's four fields are stripped |
| Renamer.ParseCore | muda_nome.py:17-28 | a written record core, padded by any spaces, parses back to its row |
| Renamer.ParseBare | muda_nome.py:17-28 | a record with empty date and text parses back although the strip drops the space after the date label |
| Renamer.CoreLines | muda_nome.py:20 | a record core splits into its three labelled lines followed by its text lines |
| Renamer.Parse | muda_nome.py:16-30 | at most one row per block |
| Renamer.ReadRows | muda_nome.py:16-30 | the parse loop builds the rows of the non-blank blocks of at least three lines, in order |
| Renamer.Renamed | muda_nome.py:33-53 | one row per row, same number, date and text; the path becomes the `/`-free name in the same directory when the rename succeeds, and is kept when it fails |
| Renamer.RenameRows | muda_nome.py:33-53 | the rename loop produces exactly those rows |
| Renamer.Rebuild | muda_nome.py:56-65 | the rebuild loop emits per row the delimiter, three labelled lines, the text line only when non-empty, then a closing delimiter |
| Renamer.UpdateListing | muda_nome.py:4-69 | the rewritten listing is parse, rename, rebuild of the old one |
| Renamer.RebuiltBlocks | muda_nome.py:10 | splitting a rebuilt listing on the delimiter gives the row bodies between an empty head and a final newline |
| Renamer.RebuildRoundTrip | muda_nome.py:10-30 | parsing a rebuilt listing gives back its rows |
| Renamer.RebuildIdempotent | muda_nome.py:56-65 | rebuilding a re-parsed rebuilt listing changes nothing |
| Renamer.UpdateRebuilt | muda_nome.py:4-65 | updating a rebuilt listing equals renaming its rows and rebuilding |
| Renamer.WrittenBlocks | main.py:77-82 | the ordinance listing splits into one block per record |
| Renamer.ReadWritten | main.py:74-82 | the position parser reads the ordinance writer's listing back as its file, number, date and text |
| Poster.SplitRuns | postar.py:127 | the split on `={3,}` gives at least one piece |
| Poster.PiecesFramed | postar.py:127 | a text of delimiter-framed `=`-free pieces splits back into those pieces |
| Poster.Records | postar.py:128 | at most one record per piece; blank pieces are dropped and the others stripped |
| Poster.FieldValue | postar.py:133 | a missing field reads as empty |
| Poster.FileField | postar.py:132-133 | the file field is stripped |
| Poster.NumberField | postar.py:136-137 | the number field is stripped |
| Poster.MonthMapBijective | postar.py:5-18 | the twelve names map to 1..12, and two names with the same month are the same name |
| Poster.HeadComplete | postar.py:141 | every occurrence of `Data da Portaria:\s*\d{1,2}\s*de\s*` is recognised, with maximal day digits |
| Poster.TailComplete | postar.py:141 | every `[a-zç]+\s*de\s*\d{4}` tail is recognised, the month giving back its last letters when needed |
| Poster.DateSpanComplete | postar.py:141 | every occurrence of the full date pattern is the match at its position |
| Poster.SearchDateSpan | postar.py:141 | the date match taken is the leftmost, and none exists only when no position matches |
| Poster.DateFrom | postar.py:142-147 | day below 100, year below 10000, and the month in 1..12 when the name is known |
| Poster.DateOf | postar.py:141-149 | the date is None exactly when the pattern occurs nowhere |
| Poster.DateOfFirst | postar.py:141-149 | when the pattern occurs, the tuple is the one read from its leftmost match |
| Poster.HeadOfDateLine | postar.py:141 | `Data da Portaria: d de ` at the start of a record is the head of the pattern, with the day as its first group |
| Poster.TailOfDateLine | postar.py:141 | a month name, ` de ` and four digits are the tail of the pattern, with the name and the year as its groups |
| Poster.DateLineSpan | postar.py:141 | a record opening with the date line matches at 0, its groups being the day, the month name and the year |
| Poster.DateOfLine | postar.py:141-149 | a record opening with `Data da Portaria: d de m de y` reads back as `(int(d), MONTH_MAP.get(m.lower()), int(y))` |
| Poster.DateOfNamedMonth | postar.py:141-149 | a named month reads back as its number 1..12 |
| Poster.DateOfUnknownMonth | postar.py:141-149 | a month name `MONTH_MAP` lacks, in any case, reads back as None |
| Poster.MonthNameLetters | postar.py:5-18 | every `MONTH_MAP` name is a run of the `[a-zç]` class |
| Poster.TextLine | postar.py:155-157 | a line is skipped exactly when it starts with one of the three labels; kept lines are stripped |
| Poster.TextOf | postar.py:152-158 | the text is stripped |
| Poster.CollectText | postar.py:152-158 | the line loop builds exactly that text |
| Poster.Posts | postar.py:130-160 | one post per non-blank record, in order |
| Poster.ReadRecord | postar.py:131-160 | reading a record gives its file, number, date and text |
| Poster.ParseOrdinances | postar.py:108-162 | the record loop builds exactly the posts of the listing |
| Poster.UploadName | postar.py:82 | the upload name contains no `/` |
| Poster.RecordsRebuilt | postar.py:127-128 | a listing rebuilt by the rename script splits into its record cores |
| Poster.FileOfCore | postar.py:132-133 | the file field of a record core is the row's path |
| Poster.NumberOfCore | postar.py:136-137 | the number field of a record core is the row's number |
| Poster.TextOfCore | postar.py:152-158 | the text of a record core is the text of the row's text lines |
| Poster.PostRebuilt | postar.py:108-162 | a rebuilt listing reads back with one post per row, with that row's path, number and text; the upload name matches the renamed file |
| Register.DelimiterLen | cadastrar.py:28 | a separator found is `\n`, one or more `=`, `\n` |
| Register.DelimiterComplete | cadastrar.py:28 | every such separator is recognised with its length |
| Register.SplitBlocks | cadastrar.py:28 | the split gives at least one block |
| Register.SplitJoined | cadastrar.py:28 | joining `=`-free blocks with separators and splitting gives the blocks back |
| Register.IsoAt | cadastrar.py:39 | a date match is `Data:`, spaces, and ten characters shaped `dddd-dd-dd` |
| Register.IsoComplete | cadastrar.py:39 | every such occurrence is matched |
| Register.IsoSearch | cadastrar.py:39 | the date is found exactly when some position matches, and it is ISO shaped |
| Register.IsoSearchLeftmost | cadastrar.py:39 | the leftmost occurrence is taken |
| Register.IsoSplit | cadastrar.py:48 | splitting the date on `-` gives year, month and day |
| Register.DayDigits | cadastrar.py:50 | `str(int(dia))` drops a leading zero and nothing else |
| Register.PartsOf | cadastrar.py:48-50 | year and month are kept as written, the day loses its leading zero and keeps its value |
| Register.ReadDate | cadastrar.py:48-50 | the date split agrees with `PartsOf` and has the expected widths |
| Register.DateIn | cadastrar.py:39 | a block's date is read exactly when the date pattern occurs in it |
| Register.ElementOf | cadastrar.py:33-53 | an element comes only from a non-blank block; its number and excerpt are stripped |
| Register.ElementOfFound | cadastrar.py:38-53 | with all three fields present, the element is the number, the split date and the excerpt |
| Register.ReadsLayout | cadastrar.py:38-53 | a block laid out as the three labelled lines reads back as its element |
| Register.Elements | cadastrar.py:28-55 | at most one element per block |
| Register.ExtractElements | cadastrar.py:22-55 | the block loop builds exactly the elements of the file |
| Register.ElementsJoined | cadastrar.py:28-53 | the elements of a joined file are those of its blocks, in order |
| Register.PayloadOf | cadastrar.py:6-13 | type `PORTARIA`, the number verbatim, title `PORTARIA Nº ` + number, the date joined by `-`, the excerpt as description, empty url |
| Register.PayloadDateSplit | cadastrar.py:11 | the payload date splits back into year, month and day |
| Register.PayloadDateIso | cadastrar.py:11 | the payload date equals the original ISO date exactly when the day had no leading zero |
| Register.NoLabelNoElement | cadastrar.py:38-42 | a block without `Número documento:` yields no element |
| Register.ElementsNeedLabel | cadastrar.py:38-42 | a file without that label yields no elements |
| Register.WriterLabelsGuarded | decreto.py:123 | in the number labels of the decree, law and ordinance writers, every `ú` is followed by a space eight places on, so no label contains `Número documento:` |
| Register.BatchListingUnread | cadastrar.py:38 | a decree or law listing yields no element |
| Register.OrdinanceListingUnread | cadastrar.py:38 | an ordinance listing yields no element |

## Left out

- OCR and PDF rasterisation (`convert_from_path`, `pytesseract`), the `TESSDATA` probe and the file listing (`listar_arquivos_pdf`) are foreign libraries and I/O. The OCR text is an input, and a batch is a sequence of file names.
- nltk's `word_tokenize` is a function parameter. Only the take-20, join and marker logic is modelled.
- File reads and writes and `os.makedirs` are left out. A listing is a string in and a string out, and a written file is a (name, contents) pair.
- `os.rename` and `os.path.exists` are one oracle `(old, new) -> bool` that answers whether the rename succeeded. Only the keep-the-original-on-failure logic is modelled.
- The browser automation in `postar`, the recursive `run()` retry, the `postados`/`errados` lists and the log files are UI plumbing with unbounded recursion. Only the upload name at `postar.py:82` is kept.
- `requests.post` is network I/O. Only the payload dictionary is modelled.
- `print` is left out.
- Regular expressions in general are left out. Each pattern is a scanner of its own.
- Unicode case folding is limited to ASCII and Latin-1 letters, `\d` to ASCII digits, and `\w` to ASCII letters and digits, `_` and the Latin-1 letters. Python's `\w` also matches other letters and characters such as `¹²³¼½¾`, so a month word holding one of them gives Python the `00` month code and the model no match.
- Poster.PostRebuilt: does not state the date tuple read back. The listing's date field is the free-form phrase `main.py` stored, and the date line is the third line of the record. `Poster.DateOfLine` gives the tuple only for a record that opens with the date line. For a whole record, the path and number lines would also have to be shown free of a match.
- Register.BatchListingUnread: proved only for records whose fields contain no `ú`. Such a field could carry the text `Número documento:` and be read.
- Register.OrdinanceListingUnread: proved only for records whose fields contain no `ú`, for the same reason.
- Renamer.RebuildRoundTrip: proved for rows meeting these conditions:
  - every field is stripped and free of `=`;
  - the path, number and date are on one line and do not contain their own label;
  - the text breaks lines only with `\n`.

  The conditions are sufficient, not necessary. A field holding a run of fewer than fifty `=` also survives, and that case is not proved.
- Poster.PostRebuilt: also requires the date or the text of each row to be non-empty.

## Where the code departs from the intended design

The model follows the code in each case.

- In `decreto.py:81` the check for a year in the date clause, `de\s+\d{4}`, is case-sensitive. So a clause written `04 DE JANEIRO DE 2022` counts as year-less, and the first `Aracaju,` date replaces it when there is one. When there is none, the clause itself is still normalised, case-insensitively, to its real date (`Decree.ClauseKeptWithoutAracaju`, `Decree.ClauseDate`). The intended design applies the fallback only to a clause without a year. `Decree.HasDeYear` and `Decree.ClauseReplacedByAracaju` model the code.
- The comment at `main.py:51` says the ordinance number is everything up to the line break after the sign. The pattern's `\s*` crosses line breaks, though, so a sign that ends its line takes the next non-blank line as its number (`Ordinance.NumberOnNextLine`, with the general statement in `Ordinance.NumberFound`).
- The intended design has every schema's listing parse back to its records. `cadastrar.py` reads the label `Número documento:`, and no writer in the repository emits it. Its reader therefore yields nothing from any of the listings (`Register.BatchListingUnread`, `Register.OrdinanceListingUnread`).
