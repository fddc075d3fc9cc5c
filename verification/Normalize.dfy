/**
 * Cleaning of single spreadsheet cells: `banear_nan_completamente` for text
 * cells and `limpiar_numero` for amounts (main.py).
 */
module Normalize {
  import opened Wrappers
  import opened Text

  /** The missing-value spellings, lower-case, in the order the source lists them. */
  const Sentinels: seq<string> := ["nan", "none", "null", "na", "<na>", "n/a"]

  /** `s.lower() in Sentinels`. */
  predicate IsSentinel(s: string)
    ensures IsSentinel(s) ==> 2 <= |s| <= 4
  {
    Lower(s) in Sentinels
  }

  /**
   * A cell as read from the spreadsheet. `Missing` is a cell `pd.isna` reports
   * (None, NaN, NaT, pd.NA). A present cell carries `str(value)` and the
   * outcome of `float(value)`: `None` when that raises ValueError or TypeError.
   */
  datatype RawField = Missing | Present(text: string, number: Option<real>)

  /**
   * `banear_nan_completamente`: the trimmed text of the cell, or `''` when the
   * cell is missing, blank, or a missing-value spelling in any letter case.
   */
  function NormalizeText(f: RawField): (r: string)
    ensures r == "" <==> f.Missing? || Trim(f.text) == "" || IsSentinel(Trim(f.text))
    ensures r != "" ==> r == Trim(f.text)
    ensures Trimmed(r) && !IsSentinel(r)
  {
    match f
    case Missing => ""
    case Present(text, _) =>
      var t := Trim(text);
      if IsSentinel(t) then ""
      else if t == "" then ""
      else t
  }

  /**
   * Normalising an already normalised value changes nothing, whatever
   * `float()` makes of it.
   */
  lemma NormalizeTextIdempotent(f: RawField, number: Option<real>)
    ensures NormalizeText(Present(NormalizeText(f), number)) == NormalizeText(f)
  {
    TrimOfTrimmed(NormalizeText(f));
  }

  /** The spellings are compared with the lower-cased text, so "NaN" and "N/A" are blanked too. */
  lemma NormalizeBlanksAnyCase(number: Option<real>)
    ensures NormalizeText(Present("NaN", number)) == ""
    ensures NormalizeText(Present("N/A", number)) == ""
  {
    TrimOfTrimmed("NaN");
    assert Lower("NaN") == "nan";
    TrimOfTrimmed("N/A");
    assert Lower("N/A") == "n/a";
  }

  /**
   * `limpiar_numero`: the parsed amount, or `None` when the cell is missing,
   * does not parse, or parses to zero.
   */
  function CleanAmount(f: RawField): (r: Option<real>)
    ensures r.Some? <==> f.Present? && f.number.Some? && f.number.value != 0.0
    ensures r.Some? ==> r.value == f.number.value && r.value != 0.0
  {
    match f
    case Missing => None
    case Present(_, None) => None
    case Present(_, Some(v)) => if v != 0.0 then Some(v) else None
  }

  /**
   * Feeding a cleaned amount back in (None as a missing cell, a number as a
   * cell whose `float()` is that number) gives the same amount.
   */
  lemma CleanAmountIdempotent(f: RawField, text: string)
    ensures var a := CleanAmount(f);
            CleanAmount(if a.None? then Missing else Present(text, a)) == a
  {
  }
}
