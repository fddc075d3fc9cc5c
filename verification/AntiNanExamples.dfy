/**
 * Worked inputs of `filtro_anti_nan`, each proved from the definitions one
 * token at a time: the UPPER and Capitalised spellings are computed, and a
 * form is shown absent either by a character it has and the text lacks or by
 * unfolding the substring test.
 */
module AntiNanExamples {
  import opened Text
  import opened Normalize
  import opened AntiNan

  // "Canada": only the embedded "na" matches.

  lemma CanadaNan()
    ensures RemoveForms("Canada", "nan") == "Canada"
  {
    SpelledNan();
    assert !Contains("Canada", "nan");
    RemoveAllAbsent("Canada", "nan");
    RemoveAbsent("Canada", "NAN", 0);
    RemoveAbsent("Canada", "Nan", 0);
  }

  lemma CanadaNone()
    ensures RemoveForms("Canada", "none") == "Canada"
  {
    SpelledNone();
    KeepsWithout("Canada", "none", 1, 0, 0);
  }

  lemma CanadaNull()
    ensures RemoveForms("Canada", "null") == "Canada"
  {
    SpelledNull();
    KeepsWithout("Canada", "null", 1, 0, 0);
  }

  lemma CanadaNa()
    ensures RemoveForms("Canada", "na") == "Cada"
  {
    SpelledNa();
    assert RemoveAll("Canada", "na") == "Cada";
    RemoveAbsent("Cada", "NA", 0);
    RemoveAbsent("Cada", "Na", 0);
  }

  lemma CanadaAngleNa()
    ensures RemoveForms("Cada", "<na>") == "Cada"
  {
    SpelledAngleNa();
    KeepsWithout("Cada", "<na>", 0, 0, 0);
  }

  lemma CanadaNSlashA()
    ensures RemoveForms("Cada", "n/a") == "Cada"
  {
    SpelledNSlashA();
    KeepsWithout("Cada", "n/a", 0, 0, 0);
  }

  lemma CanadaRemoval()
    ensures RemoveTokens("Canada", Sentinels) == "Cada"
  {
    InListOrder("Canada");
    CanadaNan();
    CanadaNone();
    CanadaNull();
    CanadaNa();
    CanadaAngleNa();
    CanadaNSlashA();
  }

  /** A legitimate word loses an embedded token: "Canada" is drawn as "Cada". */
  lemma FilterCanada()
    ensures Filtered("Canada") == "Cada"
  {
    CanadaRemoval();
    FilteredOfClean("Canada");
    TrimOfTrimmed("Cada");
  }

  // "nAnA": a mixed-case spelling matches none of the eighteen forms.

  lemma MixedCaseNan()
    ensures RemoveForms("nAnA", "nan") == "nAnA"
  {
    SpelledNan();
    KeepsWithout("nAnA", "nan", 1, 0, 0);
  }

  lemma MixedCaseNone()
    ensures RemoveForms("nAnA", "none") == "nAnA"
  {
    SpelledNone();
    KeepsWithout("nAnA", "none", 1, 0, 0);
  }

  lemma MixedCaseNull()
    ensures RemoveForms("nAnA", "null") == "nAnA"
  {
    SpelledNull();
    KeepsWithout("nAnA", "null", 1, 0, 0);
  }

  lemma MixedCaseNa()
    ensures RemoveForms("nAnA", "na") == "nAnA"
  {
    SpelledNa();
    KeepsWithout("nAnA", "na", 1, 0, 0);
  }

  lemma MixedCaseAngleNa()
    ensures RemoveForms("nAnA", "<na>") == "nAnA"
  {
    SpelledAngleNa();
    KeepsWithout("nAnA", "<na>", 0, 0, 0);
  }

  lemma MixedCaseNSlashA()
    ensures RemoveForms("nAnA", "n/a") == "nAnA"
  {
    SpelledNSlashA();
    KeepsWithout("nAnA", "n/a", 1, 0, 0);
  }

  lemma MixedCaseRemoval()
    ensures RemoveTokens("nAnA", Sentinels) == "nAnA"
  {
    InListOrder("nAnA");
    MixedCaseNan();
    MixedCaseNone();
    MixedCaseNull();
    MixedCaseNa();
    MixedCaseAngleNa();
    MixedCaseNSlashA();
  }

  /** Mixed case is not one of the removed forms: "nAnA" is drawn unchanged. */
  lemma FilterKeepsMixedCase()
    ensures Filtered("nAnA") == "nAnA"
  {
    MixedCaseRemoval();
    assert Lower("nAnA") == "nana";
    FilteredOfClean("nAnA");
    TrimOfTrimmed("nAnA");
  }

  /** The same letters as a whole value are a missing-value spelling: blanked. */
  lemma FilterBlanksWholeMixedCase()
    ensures Filtered("nAn") == ""
  {
    assert Lower("nAn") == "nan";
    WholeSpellingBlanked("nAn");
  }

  // "nnaa": deleting the inner "na" brings a new "na" together.

  lemma DoubledNan()
    ensures RemoveForms("nnaa", "nan") == "nnaa"
  {
    SpelledNan();
    assert !Contains("nnaa", "nan");
    RemoveAllAbsent("nnaa", "nan");
    RemoveAbsent("nnaa", "NAN", 0);
    RemoveAbsent("nnaa", "Nan", 0);
  }

  lemma DoubledNone()
    ensures RemoveForms("nnaa", "none") == "nnaa"
  {
    SpelledNone();
    KeepsWithout("nnaa", "none", 1, 0, 0);
  }

  lemma DoubledNull()
    ensures RemoveForms("nnaa", "null") == "nnaa"
  {
    SpelledNull();
    KeepsWithout("nnaa", "null", 1, 0, 0);
  }

  lemma DoubledNa()
    ensures RemoveForms("nnaa", "na") == "na"
  {
    SpelledNa();
    assert RemoveAll("nnaa", "na") == "na";
    RemoveAbsent("na", "NA", 0);
    RemoveAbsent("na", "Na", 0);
  }

  lemma DoubledAngleNa()
    ensures RemoveForms("na", "<na>") == "na"
  {
    SpelledAngleNa();
    KeepsWithout("na", "<na>", 0, 0, 0);
  }

  lemma DoubledNSlashA()
    ensures RemoveForms("na", "n/a") == "na"
  {
    SpelledNSlashA();
    KeepsWithout("na", "n/a", 1, 0, 0);
  }

  lemma DoubledRemoval()
    ensures RemoveTokens("nnaa", Sentinels) == "na"
  {
    InListOrder("nnaa");
    DoubledNan();
    DoubledNone();
    DoubledNull();
    DoubledNa();
    DoubledAngleNa();
    DoubledNSlashA();
  }

  /**
   * One pass can leave a missing-value spelling behind: "nnaa" becomes "na",
   * which the second pass blanks. Every cell is filtered twice before it is
   * drawn, and the second pass is not redundant.
   */
  lemma SecondPassNotRedundant()
    ensures Filtered("nnaa") == "na"
    ensures Filtered(Filtered("nnaa")) == ""
  {
    DoubledRemoval();
    assert Lower("nnaa") == "nnaa";
    FilteredOfClean("nnaa");
    TrimOfTrimmed("na");
    assert Lower("na") == "na";
  }

  // "nnnaaa": one pass leaves "nnaa", the second leaves "na".

  lemma TripledNan()
    ensures RemoveForms("nnnaaa", "nan") == "nnnaaa"
  {
    SpelledNan();
    assert !Contains("nnnaaa", "nan");
    RemoveAllAbsent("nnnaaa", "nan");
    RemoveAbsent("nnnaaa", "NAN", 0);
    RemoveAbsent("nnnaaa", "Nan", 0);
  }

  lemma TripledNone()
    ensures RemoveForms("nnnaaa", "none") == "nnnaaa"
  {
    SpelledNone();
    KeepsWithout("nnnaaa", "none", 1, 0, 0);
  }

  lemma TripledNull()
    ensures RemoveForms("nnnaaa", "null") == "nnnaaa"
  {
    SpelledNull();
    KeepsWithout("nnnaaa", "null", 1, 0, 0);
  }

  lemma TripledNa()
    ensures RemoveForms("nnnaaa", "na") == "nnaa"
  {
    SpelledNa();
    assert RemoveAll("nnnaaa", "na") == "nnaa";
    RemoveAbsent("nnaa", "NA", 0);
    RemoveAbsent("nnaa", "Na", 0);
  }

  lemma TripledAngleNa()
    ensures RemoveForms("nnaa", "<na>") == "nnaa"
  {
    SpelledAngleNa();
    KeepsWithout("nnaa", "<na>", 0, 0, 0);
  }

  lemma TripledNSlashA()
    ensures RemoveForms("nnaa", "n/a") == "nnaa"
  {
    SpelledNSlashA();
    KeepsWithout("nnaa", "n/a", 1, 0, 0);
  }

  lemma TripledRemoval()
    ensures RemoveTokens("nnnaaa", Sentinels) == "nnaa"
  {
    InListOrder("nnnaaa");
    TripledNan();
    TripledNone();
    TripledNull();
    TripledNa();
    TripledAngleNa();
    TripledNSlashA();
  }

  /**
   * Two passes are not always enough: "nnnaaa" is drawn as "na", a
   * missing-value spelling, because each pass brings a new "na" together.
   */
  lemma TwoPassesCanLeaveSpelling()
    ensures Filtered("nnnaaa") == "nnaa"
    ensures Filtered(Filtered("nnnaaa")) == "na" && IsSentinel("na")
  {
    TripledRemoval();
    FilteredOfClean("nnnaaa");
    TrimOfTrimmed("nnaa");
    SecondPassNotRedundant();
    assert Lower("na") == "na";
  }
}
