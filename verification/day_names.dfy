/**
 The weekday stage of `formatarFrequencia`: what the full-name and three-letter rules
 make of one weekday name, and how they treat a list of names.
 */
module DayNames {
  import opened Text
  import opened Rewrite
  import opened Schedule

  /** The abbreviations, in the order of the three-letter rules that produce them. */
  const Abbreviations: seq<String> := ["Seg", "Ter", "Qua", "Qui", "Sex", "Sáb", "Dom"]

  // ---------------------------------------------------------------------------
  // Facts about the rule lists
  // ---------------------------------------------------------------------------

  /** Every full-name rule is a literal of at least six characters. */
  lemma FullDayLengths()
    ensures AltsLongerThan(FullDayRules, 5)
  {
  }

  /** Every full-name rule is longer than `n` when `n` is at most five. */
  lemma FullDayBound(n: nat)
    requires n <= 5
    ensures AltsLongerThan(FullDayRules, n)
  {
    FullDayLengths();
    AltsLongerThanMono(FullDayRules, 5, n);
  }

  /** So are the full-name rules from position `lo` on, against texts of at most five
      characters. */
  lemma FullDayLongerThan(lo: nat, n: nat)
    requires lo <= |FullDayRules| && n <= 5
    ensures AltsLongerThan(FullDayRules[lo..], n)
  {
    FullDayLengths();
    AltsLongerThanSlice(FullDayRules, 5, lo, |FullDayRules|);
    AltsLongerThanMono(FullDayRules[lo..], 5, n);
  }

  /** Every full-name rule is one ignore-case literal whose replacement is an
      abbreviation. */
  lemma FullDayFacts()
    ensures forall k :: 0 <= k < |FullDayRules| ==>
              && FullDayRules[k].pattern.ci && |FullDayRules[k].pattern.alts| == 1
              && FullDayRules[k].repl in Abbreviations
  {
  }

  /** Every three-letter rule is one ignore-case literal of three characters, and its
      replacement is the abbreviation of the same position. */
  lemma ShortDayFacts()
    ensures SingleAlts(ShortDayRules, 3)
    ensures |ShortDayRules| == |Abbreviations|
    ensures forall k :: 0 <= k < |ShortDayRules| ==>
              ShortDayRules[k].pattern.ci && ShortDayRules[k].repl == Abbreviations[k]
  {
  }

  /** Every abbreviation has three characters. */
  lemma AbbreviationLengths()
    ensures forall k :: 0 <= k < |Abbreviations| ==> |Abbreviations[k]| == 3
  {
  }

  /** The weekday stage is the full-name rules followed by the three-letter rules. */
  lemma AbbreviateDaysSteps(s: String)
    ensures AbbreviateDays(s) == Apply(Apply(s, FullDayRules), ShortDayRules)
  {
    ApplyConcat(s, FullDayRules, ShortDayRules);
  }

  /** `Seg` is matched by no other three-letter rule. */
  lemma SegFacts()
    ensures forall j :: 0 <= j < |ShortDayRules| && j != 0 ==> !StartsWith(Abbreviations[0], Alt(ShortDayRules, j), true)
  {
    MismatchAt("Seg", "TER", true, 0);
    MismatchAt("Seg", "QUA", true, 0);
    MismatchAt("Seg", "QUI", true, 0);
    MismatchAt("Seg", "SEX", true, 2);
    MismatchAt("Seg", "SAB", true, 1);
    MismatchAt("Seg", "DOM", true, 0);
  }

  /** `TER` is matched by no earlier three-letter rule, and `Ter` by no other. */
  lemma TerFacts()
    ensures forall j :: 0 <= j < 1 ==> !StartsWith(Alt(ShortDayRules, 1), Alt(ShortDayRules, j), true)
    ensures forall j :: 0 <= j < |ShortDayRules| && j != 1 ==> !StartsWith(Abbreviations[1], Alt(ShortDayRules, j), true)
  {
    MismatchAt("TER", "SEG", true, 0);
    MismatchAt("Ter", "SEG", true, 0);
    MismatchAt("Ter", "QUA", true, 0);
    MismatchAt("Ter", "QUI", true, 0);
    MismatchAt("Ter", "SEX", true, 0);
    MismatchAt("Ter", "SAB", true, 0);
    MismatchAt("Ter", "DOM", true, 0);
  }

  /** `QUA` is matched by no earlier three-letter rule, and `Qua` by no other. */
  lemma QuaFacts()
    ensures forall j :: 0 <= j < 2 ==> !StartsWith(Alt(ShortDayRules, 2), Alt(ShortDayRules, j), true)
    ensures forall j :: 0 <= j < |ShortDayRules| && j != 2 ==> !StartsWith(Abbreviations[2], Alt(ShortDayRules, j), true)
  {
    MismatchAt("QUA", "SEG", true, 0);
    MismatchAt("QUA", "TER", true, 0);
    MismatchAt("Qua", "SEG", true, 0);
    MismatchAt("Qua", "TER", true, 0);
    MismatchAt("Qua", "QUI", true, 2);
    MismatchAt("Qua", "SEX", true, 0);
    MismatchAt("Qua", "SAB", true, 0);
    MismatchAt("Qua", "DOM", true, 0);
  }

  /** `QUI` is matched by no earlier three-letter rule, and `Qui` by no other. */
  lemma QuiFacts()
    ensures forall j :: 0 <= j < 3 ==> !StartsWith(Alt(ShortDayRules, 3), Alt(ShortDayRules, j), true)
    ensures forall j :: 0 <= j < |ShortDayRules| && j != 3 ==> !StartsWith(Abbreviations[3], Alt(ShortDayRules, j), true)
  {
    MismatchAt("QUI", "SEG", true, 0);
    MismatchAt("QUI", "TER", true, 0);
    MismatchAt("QUI", "QUA", true, 2);
    MismatchAt("Qui", "SEG", true, 0);
    MismatchAt("Qui", "TER", true, 0);
    MismatchAt("Qui", "QUA", true, 2);
    MismatchAt("Qui", "SEX", true, 0);
    MismatchAt("Qui", "SAB", true, 0);
    MismatchAt("Qui", "DOM", true, 0);
  }

  /** `SEX` is matched by no earlier three-letter rule, and `Sex` by no other. */
  lemma SexFacts()
    ensures forall j :: 0 <= j < 4 ==> !StartsWith(Alt(ShortDayRules, 4), Alt(ShortDayRules, j), true)
    ensures forall j :: 0 <= j < |ShortDayRules| && j != 4 ==> !StartsWith(Abbreviations[4], Alt(ShortDayRules, j), true)
  {
    MismatchAt("SEX", "SEG", true, 2);
    MismatchAt("SEX", "TER", true, 0);
    MismatchAt("SEX", "QUA", true, 0);
    MismatchAt("SEX", "QUI", true, 0);
    MismatchAt("Sex", "SEG", true, 2);
    MismatchAt("Sex", "TER", true, 0);
    MismatchAt("Sex", "QUA", true, 0);
    MismatchAt("Sex", "QUI", true, 0);
    MismatchAt("Sex", "SAB", true, 1);
    MismatchAt("Sex", "DOM", true, 0);
  }

  /** `SAB` is matched by no earlier three-letter rule, and `Sáb` by no other. */
  lemma SabFacts()
    ensures forall j :: 0 <= j < 5 ==> !StartsWith(Alt(ShortDayRules, 5), Alt(ShortDayRules, j), true)
    ensures forall j :: 0 <= j < |ShortDayRules| && j != 5 ==> !StartsWith(Abbreviations[5], Alt(ShortDayRules, j), true)
  {
    MismatchAt("SAB", "SEG", true, 1);
    MismatchAt("SAB", "TER", true, 0);
    MismatchAt("SAB", "QUA", true, 0);
    MismatchAt("SAB", "QUI", true, 0);
    MismatchAt("SAB", "SEX", true, 1);
    MismatchAt("Sáb", "SEG", true, 1);
    MismatchAt("Sáb", "TER", true, 0);
    MismatchAt("Sáb", "QUA", true, 0);
    MismatchAt("Sáb", "QUI", true, 0);
    MismatchAt("Sáb", "SEX", true, 1);
    MismatchAt("Sáb", "DOM", true, 0);
  }

  /** `DOM` is matched by no earlier three-letter rule, and `Dom` by no other. */
  lemma DomFacts()
    ensures forall j :: 0 <= j < 6 ==> !StartsWith(Alt(ShortDayRules, 6), Alt(ShortDayRules, j), true)
    ensures forall j :: 0 <= j < |ShortDayRules| && j != 6 ==> !StartsWith(Abbreviations[6], Alt(ShortDayRules, j), true)
  {
    MismatchAt("DOM", "SEG", true, 0);
    MismatchAt("DOM", "TER", true, 0);
    MismatchAt("DOM", "QUA", true, 0);
    MismatchAt("DOM", "QUI", true, 0);
    MismatchAt("DOM", "SEX", true, 0);
    MismatchAt("DOM", "SAB", true, 0);
    MismatchAt("Dom", "SEG", true, 0);
    MismatchAt("Dom", "TER", true, 0);
    MismatchAt("Dom", "QUA", true, 0);
    MismatchAt("Dom", "QUI", true, 0);
    MismatchAt("Dom", "SEX", true, 0);
    MismatchAt("Dom", "SAB", true, 0);
  }

  /** The facts above, by position. */
  lemma ShortNameFacts(k: nat)
    requires k < |ShortDayRules|
    ensures forall j :: 0 <= j < k ==> !StartsWith(Alt(ShortDayRules, k), Alt(ShortDayRules, j), true)
    ensures forall j :: 0 <= j < |ShortDayRules| && j != k ==> !StartsWith(Abbreviations[k], Alt(ShortDayRules, j), true)
  {
    if k == 0 { SegFacts(); }
    else if k == 1 { TerFacts(); }
    else if k == 2 { QuaFacts(); }
    else if k == 3 { QuiFacts(); }
    else if k == 4 { SexFacts(); }
    else if k == 5 { SabFacts(); }
    else { DomFacts(); }
  }

  // ---------------------------------------------------------------------------
  // No full name holds an earlier one
  // ---------------------------------------------------------------------------

  /** A literal longer than the text matches nowhere in it. */
  lemma TooLongAbsent(s: String, w: String)
    requires |w| > |s|
    ensures NoMatchIn(s, LitCI(w))
  {
    LiteralAbsent(s, w);
  }

  lemma TercaAlone(s: String)
    requires s == "TERCA-FEIRA"
    ensures forall j :: 0 <= j < 2 ==> NoMatchIn(s, FullDayRules[j].pattern)
  {
    TooLongAbsent(s, "SEGUNDA-FEIRA");
    assert s[0..] == s;
    MismatchAt(s, "TERÇA-FEIRA", true, 3);
    LiteralAbsent(s, "TERÇA-FEIRA");
  }

  /** Neither spelling of Tuesday matches in a twelve-character text whose first two
      characters are not `T`, ignoring case. */
  lemma TuesdayAbsent(s: String)
    requires |s| == 12 && !SameChar(s[0], 'T', true) && !SameChar(s[1], 'T', true)
    ensures NoMatchIn(s, LitCI("TERÇA-FEIRA")) && NoMatchIn(s, LitCI("TERCA-FEIRA"))
  {
    assert s[0..] == s && s[1..][0] == s[1];
    MismatchAt(s, "TERÇA-FEIRA", true, 0);
    MismatchAt(s[1..], "TERÇA-FEIRA", true, 0);
    LiteralAbsent(s, "TERÇA-FEIRA");
    MismatchAt(s, "TERCA-FEIRA", true, 0);
    MismatchAt(s[1..], "TERCA-FEIRA", true, 0);
    LiteralAbsent(s, "TERCA-FEIRA");
  }

  lemma QuartaAlone(s: String)
    requires s == "QUARTA-FEIRA"
    ensures forall j :: 0 <= j < 3 ==> NoMatchIn(s, FullDayRules[j].pattern)
  {
    TooLongAbsent(s, "SEGUNDA-FEIRA");
    TuesdayAbsent(s);
  }

  lemma QuintaAlone(s: String)
    requires s == "QUINTA-FEIRA"
    ensures forall j :: 0 <= j < 4 ==> NoMatchIn(s, FullDayRules[j].pattern)
  {
    TooLongAbsent(s, "SEGUNDA-FEIRA");
    TuesdayAbsent(s);
    assert s[0..] == s;
    MismatchAt(s, "QUARTA-FEIRA", true, 2);
    LiteralAbsent(s, "QUARTA-FEIRA");
  }

  lemma SextaAlone(s: String)
    requires s == "SEXTA-FEIRA"
    ensures forall j :: 0 <= j < 5 ==> NoMatchIn(s, FullDayRules[j].pattern)
  {
    TooLongAbsent(s, "SEGUNDA-FEIRA");
    assert s[0..] == s;
    MismatchAt(s, "TERÇA-FEIRA", true, 0);
    LiteralAbsent(s, "TERÇA-FEIRA");
    MismatchAt(s, "TERCA-FEIRA", true, 0);
    LiteralAbsent(s, "TERCA-FEIRA");
    TooLongAbsent(s, "QUARTA-FEIRA");
    TooLongAbsent(s, "QUINTA-FEIRA");
  }

  /** `SÁBADO` is not `SABADO` ignoring case: `Á` does not fold to `A`. */
  lemma SabadoAccentAlone(s: String)
    requires s == "SÁBADO"
    ensures forall j :: 0 <= j < 7 ==> NoMatchIn(s, FullDayRules[j].pattern)
  {
    WorkdayNamesTooLong(s);
    assert s[0..] == s;
    MismatchAt(s, "SABADO", true, 1);
    LiteralAbsent(s, "SABADO");
  }

  lemma DomingoAlone(s: String)
    requires s == "DOMINGO"
    ensures forall j :: 0 <= j < 8 ==> NoMatchIn(s, FullDayRules[j].pattern)
  {
    WorkdayNamesTooLong(s);
    assert s[0..] == s && s[1..][0] == s[1];
    MismatchAt(s, "SABADO", true, 0);
    MismatchAt(s[1..], "SABADO", true, 0);
    LiteralAbsent(s, "SABADO");
    MismatchAt(s, "SÁBADO", true, 0);
    MismatchAt(s[1..], "SÁBADO", true, 0);
    LiteralAbsent(s, "SÁBADO");
  }

  /** The names from Monday to Friday match nowhere in a text of at most ten
      characters. */
  lemma WorkdayNamesTooLong(s: String)
    requires |s| <= 10
    ensures forall j :: 0 <= j < 6 ==> NoMatchIn(s, FullDayRules[j].pattern)
  {
    TooLongAbsent(s, "SEGUNDA-FEIRA");
    TooLongAbsent(s, "TERÇA-FEIRA");
    TooLongAbsent(s, "TERCA-FEIRA");
    TooLongAbsent(s, "QUARTA-FEIRA");
    TooLongAbsent(s, "QUINTA-FEIRA");
    TooLongAbsent(s, "SEXTA-FEIRA");
  }

  /** No full-name rule matches anywhere inside a later full name. */
  lemma EarlierRulesMiss(k: nat)
    requires k < |FullDayRules| && FullDayRules[k].pattern.Literals? && |FullDayRules[k].pattern.alts| == 1
    ensures forall j :: 0 <= j < k ==> NoMatchIn(Alt(FullDayRules, k), FullDayRules[j].pattern)
  {
    var s := Alt(FullDayRules, k);
    if k == 1 {
      TooLongAbsent(s, "SEGUNDA-FEIRA");
    } else if k == 2 {
      TercaAlone(s);
    } else if k == 3 {
      QuartaAlone(s);
    } else if k == 4 {
      QuintaAlone(s);
    } else if k == 5 {
      SextaAlone(s);
    } else if k == 6 {
      WorkdayNamesTooLong(s);
    } else if k == 7 {
      SabadoAccentAlone(s);
    } else if k == 8 {
      DomingoAlone(s);
    }
  }

  // ---------------------------------------------------------------------------
  // One weekday name
  // ---------------------------------------------------------------------------

  /** The abbreviations pass the three-letter rules unchanged. */
  lemma ShortRulesKeepAbbreviation(k: nat)
    requires k < |Abbreviations|
    ensures Apply(Abbreviations[k], ShortDayRules) == Abbreviations[k]
  {
    ShortDayFacts();
    ShortNameFacts(k);
    ApplySameLengthFixed(Abbreviations[k], ShortDayRules);
  }

  /** The full-name rules leave alone a text shorter than all of them. */
  lemma FullRulesKeepShorter(t: String)
    requires AltsLongerThan(FullDayRules, |t|)
    ensures Apply(t, FullDayRules) == t
  {
    ApplyShort(t, FullDayRules);
  }

  /** Texts of at most five characters pass the full-name rules unchanged. */
  lemma FullRulesKeepShortText(t: String)
    requires |t| <= 5
    ensures Apply(t, FullDayRules) == t
  {
    FullDayBound(|t|);
    FullRulesKeepShorter(t);
  }

  /** The three-letter rules turn a three-letter name, in any letter case, into its
      abbreviation. */
  lemma ShortRulesAbbreviate(t: String, k: nat)
    requires k < |ShortDayRules| && |t| == 3 && StartsWith(t, Alt(ShortDayRules, k), true)
    ensures Apply(t, ShortDayRules) == Abbreviations[k]
  {
    ShortDayFacts();
    ShortNameFacts(k);
    forall j | 0 <= j < k
      ensures !StartsWith(t, Alt(ShortDayRules, j), true)
    {
      StartsWithTransfer(t, Alt(ShortDayRules, k), Alt(ShortDayRules, j));
    }
    ApplyFirstHit(t, ShortDayRules, k);
  }

  /** Every full-name rule is one ignore-case literal replaced by three characters. */
  lemma FullRuleShape(k: nat)
    requires k < |FullDayRules|
    ensures FullDayRules[k].pattern.Literals? && FullDayRules[k].pattern.ci
    ensures |FullDayRules[k].pattern.alts| == 1 && |FullDayRules[k].repl| == 3
  {
  }

  /** No earlier full-name rule matches in a full name written in any letter case. */
  lemma EarlierRulesMissAnyCase(t: String, k: nat)
    requires k < |FullDayRules| && FullDayRules[k].pattern.Literals? && |FullDayRules[k].pattern.alts| == 1
    requires |t| == |Alt(FullDayRules, k)| && StartsWith(t, Alt(FullDayRules, k), true)
    ensures forall j :: 0 <= j < k ==> NoMatchIn(t, FullDayRules[j].pattern)
  {
    EarlierRulesMiss(k);
    forall j | 0 <= j < k
      ensures NoMatchIn(t, FullDayRules[j].pattern)
    {
      FullRuleShape(j);
      CaseVariantNoMatch(t, Alt(FullDayRules, k), FullDayRules[j].pattern);
    }
  }

  /** The full-name rules turn a full name, in any letter case, into its abbreviation. */
  lemma FullRulesAbbreviate(t: String, k: nat)
    requires k < |FullDayRules| && FullDayRules[k].pattern.Literals? && |FullDayRules[k].pattern.alts| == 1
    requires |t| == |Alt(FullDayRules, k)| && StartsWith(t, Alt(FullDayRules, k), true)
    ensures Apply(t, FullDayRules) == FullDayRules[k].repl
  {
    EarlierRulesMissAnyCase(t, k);
    FullRuleShape(k);
    FullDayLongerThan(k + 1, 3);
    ApplyLongHit(t, FullDayRules, k);
  }

  /** An abbreviation is a fixed point of the weekday stage: formatting an already
      formatted day list does not change its days. */
  lemma AbbreviationStable(a: String)
    requires a in Abbreviations
    ensures AbbreviateDays(a) == a
  {
    var k :| 0 <= k < |Abbreviations| && Abbreviations[k] == a;
    AbbreviationLengths();
    AbbreviateDaysSteps(a);
    FullRulesKeepShortText(a);
    ShortRulesKeepAbbreviation(k);
  }

  /** A three-letter weekday name, in any letter case, becomes its abbreviation. */
  lemma ShortNameAbbreviated(t: String, k: nat)
    requires k < |ShortDayRules| && |t| == 3 && StartsWith(t, Alt(ShortDayRules, k), true)
    ensures AbbreviateDays(t) == Abbreviations[k]
  {
    AbbreviateDaysSteps(t);
    FullRulesKeepShortText(t);
    ShortRulesAbbreviate(t, k);
  }

  /** A full weekday name, in any letter case, becomes its abbreviation. */
  lemma FullNameAbbreviated(t: String, k: nat)
    requires k < |FullDayRules| && FullDayRules[k].pattern.Literals? && |FullDayRules[k].pattern.alts| == 1
    requires |t| == |Alt(FullDayRules, k)| && StartsWith(t, Alt(FullDayRules, k), true)
    ensures AbbreviateDays(t) == FullDayRules[k].repl
  {
    AbbreviateDaysSteps(t);
    FullRulesAbbreviate(t, k);
    FullDayFacts();
    var j :| 0 <= j < |Abbreviations| && Abbreviations[j] == FullDayRules[k].repl;
    ShortRulesKeepAbbreviation(j);
  }

  /** Each of the nine full names, as the rules spell it, becomes its abbreviation. */
  lemma FullNamesAbbreviated()
    ensures forall k :: 0 <= k < |FullDayRules| ==>
              FullDayRules[k].pattern.Literals? && |FullDayRules[k].pattern.alts| == 1
              && AbbreviateDays(Alt(FullDayRules, k)) == FullDayRules[k].repl
  {
    forall k | 0 <= k < |FullDayRules|
      ensures FullDayRules[k].pattern.Literals? && |FullDayRules[k].pattern.alts| == 1
      ensures AbbreviateDays(Alt(FullDayRules, k)) == FullDayRules[k].repl
    {
      FullRuleShape(k);
      var w := Alt(FullDayRules, k);
      StartsWithSelf(w, [], true);
      assert w + [] == w;
      FullNameAbbreviated(w, k);
    }
  }
}
