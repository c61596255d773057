/**
 * The part the decree and complementary-law header patterns share:
 * `N\.?\s*[º°o]?\s*` followed by the first character of the number, matched
 * without regard to case. The decree number is `[\d.,]+`, the law number
 * `\d+`; `decimal` selects between the two classes.
 */
module Headers {
  import opened Text
  import opened Dates

  /** The lower-case literal `lit` occurs at `i`, ignoring case. */
  predicate CiAt(s: string, i: nat, lit: string) {
    i + |lit| <= |s| && forall k | 0 <= k < |lit| :: Lower(s[i + k]) == lit[k]
  }

  /** The class `[º°o]` under `re.IGNORECASE`. */
  predicate IsOrdinal(c: char) {
    c == 'º' || c == '°' || c == 'o' || c == 'O'
  }

  /** `[\d.,]` when `decimal`, `\d` otherwise. */
  predicate IsNumChar(c: char, decimal: bool) {
    IsDigit(c) || (decimal && (c == '.' || c == ','))
  }

  /** One way `\.?\s*[º°o]?\s*` can lead from `p` to a number starting at `start`. */
  datatype Lead = Lead(dot: bool, ordinal: Option<nat>, start: nat)

  ghost predicate LeadPath(s: string, p: nat, l: Lead, decimal: bool) {
    var q := if l.dot then p + 1 else p;
    && (l.dot ==> p < |s| && s[p] == '.')
    && q <= |s|
    && (match l.ordinal
        case None => SpacesIn(s, q, l.start)
        case Some(o) => SpacesIn(s, q, o) && o < |s| && IsOrdinal(s[o]) && SpacesIn(s, o + 1, l.start))
    && l.start < |s| && IsNumChar(s[l.start], decimal)
  }

  /** `\s*[º°o]?\s*` from `q`, then the first number character, as the regex engine tries it. */
  function LeadFrom(s: string, q: nat, dot: bool, decimal: bool): (r: Option<Lead>)
    requires q <= |s|
  {
    var o := SkipSpaces(s, q);
    if o < |s| && IsOrdinal(s[o]) then
      var t := SkipSpaces(s, o + 1);
      if t < |s| && IsNumChar(s[t], decimal) then Some(Lead(dot, Some(o), t)) else None
    else if o < |s| && IsNumChar(s[o], decimal) then Some(Lead(dot, None, o))
    else None
  }

  /**
   * After the `N` at `p - 1`: the engine first lets `\.?` take a dot, and
   * only when nothing matches that way does it try again without it.
   */
  function LeadAfterN(s: string, p: nat, decimal: bool): (r: Option<Lead>)
    requires p <= |s|
    ensures r.Some? ==> p <= r.value.start < |s|
  {
    var first := if p < |s| && s[p] == '.' then LeadFrom(s, p + 1, true, decimal) else None;
    if first.Some? then first else LeadFrom(s, p, false, decimal)
  }

  /** What `LeadAfterN` finds is a way to reach the number. */
  lemma LeadAfterNSound(s: string, p: nat, decimal: bool)
    requires p <= |s| && LeadAfterN(s, p, decimal).Some?
    ensures LeadPath(s, p, LeadAfterN(s, p, decimal).value, decimal)
  {
  }

  /**
   * Whenever some lead matches, one is found, and it takes the dot whenever
   * a lead with the dot matches.
   */
  lemma LeadAfterNComplete(s: string, p: nat, l: Lead, decimal: bool)
    requires p <= |s| && LeadPath(s, p, l, decimal)
    ensures LeadAfterN(s, p, decimal).Some?
    ensures l.dot ==> LeadAfterN(s, p, decimal) == Some(l)
    ensures !LeadAfterN(s, p, decimal).value.dot ==> LeadAfterN(s, p, decimal) == Some(l)
  {
    LeadFromComplete(s, p, l, decimal);
    var r := LeadAfterN(s, p, decimal).value;
    if r.dot == l.dot {
      LeadAfterNSound(s, p, decimal);
      LeadUnique(s, p, r, l, decimal);
    }
  }

  /** A lead that matches is the one `LeadFrom` finds for its choice of dot. */
  lemma LeadFromComplete(s: string, p: nat, l: Lead, decimal: bool)
    requires LeadPath(s, p, l, decimal)
    ensures LeadFrom(s, if l.dot then p + 1 else p, l.dot, decimal) == Some(l)
  {
    var q := if l.dot then p + 1 else p;
    match l.ordinal {
      case None =>
        SkipSpacesUnique(s, q, l.start);
        assert !IsOrdinal(s[l.start]) by { assert IsNumChar(s[l.start], decimal); }
      case Some(o) =>
        assert !IsSpace(s[o]);
        SkipSpacesUnique(s, q, o);
        assert !IsSpace(s[l.start]);
        SkipSpacesUnique(s, o + 1, l.start);
    }
  }

  /** For a fixed choice of dot there is only one way to reach the number. */
  lemma LeadUnique(s: string, p: nat, l1: Lead, l2: Lead, decimal: bool)
    requires LeadPath(s, p, l1, decimal) && LeadPath(s, p, l2, decimal) && l1.dot == l2.dot
    ensures l1 == l2
  {
    LeadFromComplete(s, p, l1, decimal);
    LeadFromComplete(s, p, l2, decimal);
  }

  /** The end of the greedy number run from `i`. */
  function NumberEnd(s: string, i: nat, decimal: bool): (j: nat)
    requires i <= |s|
    ensures i <= j <= |s|
    decreases |s| - i
  {
    if i < |s| && IsNumChar(s[i], decimal) then NumberEnd(s, i + 1, decimal) else i
  }

  /** s[i..j] is a maximal run of number characters. */
  predicate NumRun(s: string, i: nat, j: nat, decimal: bool) {
    && i <= j <= |s|
    && (forall k {:trigger IsNumChar(s[k], decimal)} | i <= k < j :: IsNumChar(s[k], decimal))
    && (j == |s| || !IsNumChar(s[j], decimal))
  }

  /** The run ends at the first character outside the class. */
  lemma {:induction false} NumberEndRun(s: string, i: nat, decimal: bool)
    requires i <= |s|
    ensures NumRun(s, i, NumberEnd(s, i, decimal), decimal)
    decreases |s| - i
  {
    if i < |s| && IsNumChar(s[i], decimal) {
      NumberEndRun(s, i + 1, decimal);
    }
  }

  /** `\s*DE\s+` (or `\s+DE\s+` when `spaceFirst`) from `j`: the index after it, where the date clause starts. */
  function DeSeparator(s: string, j: nat, spaceFirst: bool): (r: Option<nat>)
    requires j <= |s|
    ensures r.Some? ==> j < r.value <= |s| && SpacesIn(s, j, SkipSpaces(s, j)) && DeAt(s, SkipSpaces(s, j))
    ensures r.Some? ==> (var u := SkipSpaces(s, j);
                         u + 2 < r.value && SpacesIn(s, u + 2, r.value) && (r.value == |s| || !IsSpace(s[r.value])))
    ensures r.Some? && spaceFirst ==> SkipSpaces(s, j) > j
  {
    var u := SkipSpaces(s, j);
    if (spaceFirst && u == j) || !DeAt(s, u) then None
    else
      var v := SkipSpaces(s, u + 2);
      if v == u + 2 then None else Some(v)
  }

  /** A lead without the dot cannot start at a dot when the number has no dots. */
  lemma NoDotLeadAtDot(s: string, p: nat, l: Lead)
    requires LeadPath(s, p, l, false) && !l.dot
    ensures !(p < |s| && s[p] == '.')
  {
    var classes := p < |s| && (IsSpace(s[p]) || IsOrdinal(s[p]) || IsNumChar(s[p], false));
  }

  /** With a digits-only number the lead is unique, and `LeadAfterN` finds it. */
  lemma DigitLeadUnique(s: string, p: nat, l: Lead)
    requires p <= |s| && LeadPath(s, p, l, false)
    ensures LeadAfterN(s, p, false) == Some(l)
  {
    LeadAfterNComplete(s, p, l, false);
    if !l.dot {
      NoDotLeadAtDot(s, p, l);
      LeadFromComplete(s, p, l, false);
    }
  }

  /** The greedy number run ends at the first character outside the class. */
  lemma {:induction false} NumberEndUnique(s: string, i: nat, j: nat, decimal: bool)
    requires NumRun(s, i, j, decimal)
    ensures NumberEnd(s, i, decimal) == j
    decreases j - i
  {
    if i < j {
      NumberEndUnique(s, i + 1, j, decimal);
    }
  }

  /** Whitespace, "DE", whitespace and then a non-space character: `DeSeparator` finds exactly that. */
  lemma DeSeparatorComplete(s: string, j: nat, u: nat, v: nat, spaceFirst: bool)
    requires j <= u && SpacesIn(s, j, u) && DeAt(s, u) && (spaceFirst ==> j < u)
    requires u + 2 < v && SpacesIn(s, u + 2, v) && (v == |s| || !IsSpace(s[v]))
    ensures DeSeparator(s, j, spaceFirst) == Some(v)
  {
    DeNotSpace(s, u);
    SkipSpacesUnique(s, j, u);
    SkipSpacesUnique(s, u + 2, v);
  }
}
