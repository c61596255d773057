/**
 * File names derived from extracted fields, and the rename decisions built
 * on them. The file system is an oracle: `renamed(from, to)` says whether
 * `os.path.exists(from)` held and `os.rename(from, to)` returned without
 * raising.
 */
module FileNames {
  import opened Text
  import opened Dates

  /** `re.sub(r'[^0-9A-Za-z]', '', n) + "-" + date + ".pdf"`. */
  function CanonicalName(number: string, date: string): (r: string)
    ensures '/' !in date ==> '/' !in r
  {
    var r := KeepAlnum(number) + "-" + date + ".pdf";
    assert forall k | 0 <= k < |KeepAlnum(number)| :: KeepAlnum(number)[k] != '/';
    r
  }

  /** A number worth renaming by: present and not empty (Python truthiness). */
  predicate Truthy(number: Option<string>) {
    number.Some? && number.value != ""
  }

  /** Where `renomear_arquivo` would move `orig`. */
  function RenameTarget(orig: string, number: string, date: string): string {
    PathJoin(Dirname(orig), CanonicalName(number, date))
  }

  /**
   * `renomear_arquivo`: rename to the canonical name in the same directory
   * when the number is truthy and the date is known; otherwise, or when the
   * file is missing or the rename fails, keep the original path.
   */
  function RenameByNumberAndDate(orig: string, number: Option<string>, date: string,
                                 renamed: (string, string) -> bool): (r: string)
    ensures !Truthy(number) || date == Sentinel ==> r == orig
    ensures Truthy(number) && date != Sentinel ==>
              r == (if renamed(orig, RenameTarget(orig, number.value, date)) then RenameTarget(orig, number.value, date) else orig)
  {
    if Truthy(number) && date != Sentinel then
      var target := RenameTarget(orig, number.value, date);
      if renamed(orig, target) then target else orig
    else orig
  }

  /** A renamed file keeps its directory and takes the canonical base name. */
  lemma RenamedBaseName(orig: string, number: Option<string>, date: string, renamed: (string, string) -> bool)
    requires '/' !in date
    requires RenameByNumberAndDate(orig, number, date, renamed) != orig
    ensures Truthy(number) && date != Sentinel
    ensures RenameByNumberAndDate(orig, number, date, renamed) == RenameTarget(orig, number.value, date)
    ensures Basename(RenameByNumberAndDate(orig, number, date, renamed)) == CanonicalName(number.value, date)
  {
    BasenamePathJoin(Dirname(orig), CanonicalName(number.value, date));
  }

  /** The canonical name of a normalised date starts with the number's letters and digits and ends with the date. */
  lemma CanonicalNameParts(number: string, date: string)
    requires IsIsoShaped(date)
    ensures var r := CanonicalName(number, date);
            var k := |KeepAlnum(number)|;
            && |r| == k + 15
            && r[..k] == KeepAlnum(number) && r[k] == '-' && r[k + 1..k + 11] == date && r[k + 11..] == ".pdf"
  {
  }

  /** `numero.replace("/", "") + ".pdf"`: the name the ordinance renamer gives a file and the name the poster uploads. */
  function SlashFreeName(number: string): (r: string)
    ensures '/' !in r
    ensures '/' !in number ==> r == number + ".pdf"
  {
    RemoveCharGone(number, '/');
    RemoveAll(number, "/") + ".pdf"
  }

  /**
   * The rename step of `atualizar_txt_com_novos_arquivos`: the slash-free
   * name in the old path's directory, or the old path when the rename
   * raises.
   */
  function RenameByNumber(orig: string, number: string, renamed: (string, string) -> bool): (r: string)
    ensures renamed(orig, PathJoin(Dirname(orig), SlashFreeName(number))) ==> r == PathJoin(Dirname(orig), SlashFreeName(number))
    ensures renamed(orig, PathJoin(Dirname(orig), SlashFreeName(number))) ==> Basename(r) == SlashFreeName(number)
    ensures !renamed(orig, PathJoin(Dirname(orig), SlashFreeName(number))) ==> r == orig
  {
    var target := PathJoin(Dirname(orig), SlashFreeName(number));
    BasenamePathJoin(Dirname(orig), SlashFreeName(number));
    if renamed(orig, target) then target else orig
  }
}
