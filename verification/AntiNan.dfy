/**
 * `BanamexPDF.filtro_anti_nan` (main.py): the last filter every cell passes
 * through before it is drawn. A whole-value missing-value spelling becomes
 * `''`; otherwise every occurrence of each spelling, in its lower-case,
 * UPPER-CASE and Capitalised forms, is deleted and the result stripped.
 */
module AntiNan {
  import opened Text
  import opened Normalize

  predicate NonEmptyTokens(tokens: seq<string>) {
    forall i :: 0 <= i < |tokens| ==> tokens[i] != []
  }

  /** One turn of the loop: `replace` of the lower, UPPER and Capitalised form. */
  function RemoveForms(s: string, token: string): (r: string)
    requires token != []
    ensures |r| <= |s|
  {
    RemoveAll(RemoveAll(RemoveAll(s, token), Upper(token)), Capitalize(token))
  }

  /** The whole loop: the tokens removed in list order. */
  function RemoveTokens(s: string, tokens: seq<string>): (r: string)
    requires NonEmptyTokens(tokens)
    ensures |r| <= |s|
  {
    if tokens == [] then s
    else RemoveForms(RemoveTokens(s, tokens[..|tokens| - 1]), tokens[|tokens| - 1])
  }

  /** No form of `token` occurs in `s`. */
  predicate MentionsNoForm(s: string, token: string) {
    !Contains(s, token) && !Contains(s, Upper(token)) && !Contains(s, Capitalize(token))
  }

  /**
   * The value `filtro_anti_nan` returns for a string argument: blank for an
   * empty or whole-value missing-value input; otherwise a stripped string no
   * longer than the stripped input.
   */
  function Filtered(text: string): (r: string)
    ensures text == "" || IsSentinel(Trim(text)) ==> r == ""
    ensures Trimmed(r) && |r| <= |Trim(text)|
  {
    if text == "" then ""
    else
      var t := Trim(text);
      if IsSentinel(t) then "" else Trim(RemoveTokens(t, Sentinels))
  }

  /** `filtro_anti_nan`: the loop over the prohibited spellings, as written. */
  method AntiNanFilter(text: string) returns (r: string)
    ensures r == Filtered(text)
  {
    if text == "" {
      return "";
    }
    var t := Trim(text);
    if IsSentinel(t) {
      return "";
    }
    ghost var stripped := t;
    var prohibited := Sentinels;
    assert NonEmptyTokens(prohibited);
    var i := 0;
    while i < |prohibited|
      invariant 0 <= i <= |prohibited|
      invariant t == RemoveTokens(stripped, prohibited[..i])
    {
      var token := prohibited[i];
      RemoveTokensStep(stripped, prohibited, i);
      t := RemoveAll(t, token);
      t := RemoveAll(t, Upper(token));
      t := RemoveAll(t, Capitalize(token));
      i := i + 1;
    }
    assert prohibited[..i] == prohibited;
    r := Trim(t);
  }

  lemma RemoveTokensStep(s: string, tokens: seq<string>, i: nat)
    requires NonEmptyTokens(tokens) && i < |tokens|
    ensures RemoveTokens(s, tokens[..i + 1]) == RemoveForms(RemoveTokens(s, tokens[..i]), tokens[i])
  {
    assert tokens[..i + 1][..i] == tokens[..i];
  }

  /** Removing tokens none of whose forms occur changes nothing. */
  lemma {:induction false} RemoveTokensAbsent(s: string, tokens: seq<string>)
    requires NonEmptyTokens(tokens)
    requires forall i :: 0 <= i < |tokens| ==> MentionsNoForm(s, tokens[i])
    ensures RemoveTokens(s, tokens) == s
  {
    if tokens != [] {
      var last := tokens[|tokens| - 1];
      RemoveTokensAbsent(s, tokens[..|tokens| - 1]);
      RemoveAllAbsent(s, last);
      RemoveAllAbsent(s, Upper(last));
      RemoveAllAbsent(s, Capitalize(last));
    }
  }

  /**
   * Only the listed forms are touched: a text that is not a whole-value
   * spelling and holds none of the eighteen forms comes back stripped and
   * otherwise unchanged (mixed-case forms such as "nAn" survive).
   */
  lemma FilteredUntouched(text: string)
    requires !IsSentinel(Trim(text))
    requires forall i :: 0 <= i < |Sentinels| ==> MentionsNoForm(Trim(text), Sentinels[i])
    ensures Filtered(text) == Trim(text)
  {
    var t := Trim(text);
    RemoveTokensAbsent(t, Sentinels);
    assert RemoveTokens(t, Sentinels) == t;
    TrimOfTrimmed(t);
  }

  /** The loop removes the six tokens in the order they are listed. */
  lemma InListOrder(s: string)
    ensures RemoveTokens(s, Sentinels)
         == RemoveForms(RemoveForms(RemoveForms(RemoveForms(RemoveForms(RemoveForms(
              s, "nan"), "none"), "null"), "na"), "<na>"), "n/a")
  {
    RemoveSixTokens(s, Sentinels);
  }

  lemma RemoveSixTokens(s: string, tokens: seq<string>)
    requires NonEmptyTokens(tokens) && |tokens| == 6
    ensures RemoveTokens(s, tokens)
         == RemoveForms(RemoveForms(RemoveForms(RemoveForms(RemoveForms(RemoveForms(
              s, tokens[0]), tokens[1]), tokens[2]), tokens[3]), tokens[4]), tokens[5])
  {
    assert tokens[..0] == [];
    RemoveTokensStep(s, tokens, 0);
    RemoveTokensStep(s, tokens, 1);
    RemoveTokensStep(s, tokens, 2);
    RemoveTokensStep(s, tokens, 3);
    RemoveTokensStep(s, tokens, 4);
    RemoveTokensStep(s, tokens, 5);
    assert tokens[..6] == tokens;
  }

  /** The UPPER and Capitalised spellings of "nan". */
  lemma SpelledNan()
    ensures Upper("nan") == "NAN" && Capitalize("nan") == "Nan"
  {
  }

  /** The UPPER and Capitalised spellings of "none". */
  lemma SpelledNone()
    ensures Upper("none") == "NONE" && Capitalize("none") == "None"
  {
  }

  /** The UPPER and Capitalised spellings of "null". */
  lemma SpelledNull()
    ensures Upper("null") == "NULL" && Capitalize("null") == "Null"
  {
  }

  /** The UPPER and Capitalised spellings of "na". */
  lemma SpelledNa()
    ensures Upper("na") == "NA" && Capitalize("na") == "Na"
  {
  }

  /** The UPPER and Capitalised spellings of "<na>". */
  lemma SpelledAngleNa()
    ensures Upper("<na>") == "<NA>" && Capitalize("<na>") == "<na>"
  {
  }

  /** The UPPER and Capitalised spellings of "n/a". */
  lemma SpelledNSlashA()
    ensures Upper("n/a") == "N/A" && Capitalize("n/a") == "N/a"
  {
  }

  /** A form occurs in `s` only if each of its characters does. */
  lemma {:induction false} ContainsOnlyIfChars(s: string, p: string, i: nat)
    requires Contains(s, p) && i < |p|
    ensures p[i] in s
    decreases |s|
  {
    if StartsWith(s, p) {
      StartsWithSlice(s, p);
      assert s[i] == p[i];
    } else {
      ContainsOnlyIfChars(s[1..], p, i);
    }
  }

  /** A form with a character that `s` lacks is not removed from `s`. */
  lemma RemoveAbsent(s: string, p: string, i: nat)
    requires i < |p| && p[i] !in s
    ensures RemoveAll(s, p) == s
  {
    if Contains(s, p) {
      ContainsOnlyIfChars(s, p, i);
    }
    RemoveAllAbsent(s, p);
  }

  /** Each form lacks a character of `s`, at positions i, j and k of the three forms. */
  lemma KeepsWithout(s: string, token: string, i: nat, j: nat, k: nat)
    requires token != []
    requires i < |token| && token[i] !in s
    requires j < |token| && Upper(token)[j] !in s
    requires k < |token| && Capitalize(token)[k] !in s
    ensures RemoveForms(s, token) == s
  {
    RemoveAbsent(s, token, i);
    RemoveAbsent(s, Upper(token), j);
    RemoveAbsent(s, Capitalize(token), k);
  }

  /** A stripped whole-value spelling, in any letter case, is blanked. */
  lemma WholeSpellingBlanked(text: string)
    requires Trimmed(text) && IsSentinel(text)
    ensures Filtered(text) == ""
  {
    TrimOfTrimmed(text);
  }

  /** A non-blank, stripped, non-sentinel text goes through the removal loop only. */
  lemma FilteredOfClean(text: string)
    requires text != "" && Trimmed(text) && !IsSentinel(text)
    ensures Filtered(text) == Trim(RemoveTokens(text, Sentinels))
  {
    TrimOfTrimmed(text);
  }
}
