/**
 `formatarFrequencia` of `js/app.js`: the collection frequency of an area, rewritten in
 four stages (drop the shift, abbreviate weekday names, replace ordinal weekdays,
 normalise separators), and the shift alternation `extrairTurno` searches for.
 */
module Schedule {
  import opened Wrappers
  import opened Text
  import opened Rewrite

  /** The shift names, in the order the alternations list them. */
  const ShiftNames: seq<String> := ["DIURNO", "NOTURNO", "VESPERTINO"]

  /** `/(DIURNO|NOTURNO|VESPERTINO)/i` */
  const ShiftPattern: Pattern := Literals(ShiftNames, true)

  /** `/ - (DIURNO|NOTURNO|VESPERTINO)/gi` then `/ (DIURNO|NOTURNO|VESPERTINO)/gi`, both
      replaced by nothing. */
  const StripShiftRules: seq<Rule> := [Rule(DashShiftPattern, ""), Rule(SpaceShiftPattern, "")]

  const DashShiftPattern: Pattern := Literals([" - DIURNO", " - NOTURNO", " - VESPERTINO"], true)

  const SpaceShiftPattern: Pattern := Literals([" DIURNO", " NOTURNO", " VESPERTINO"], true)

  /** Full weekday names, ignoring case. */
  const FullDayRules: seq<Rule> := [
    Rule(LitCI("SEGUNDA-FEIRA"), "Seg"),
    Rule(LitCI("TERÇA-FEIRA"), "Ter"),
    Rule(LitCI("TERCA-FEIRA"), "Ter"),
    Rule(LitCI("QUARTA-FEIRA"), "Qua"),
    Rule(LitCI("QUINTA-FEIRA"), "Qui"),
    Rule(LitCI("SEXTA-FEIRA"), "Sex"),
    Rule(LitCI("SABADO"), "Sáb"),
    Rule(LitCI("SÁBADO"), "Sáb"),
    Rule(LitCI("DOMINGO"), "Dom")
  ]

  /** Three-letter weekday names, ignoring case. */
  const ShortDayRules: seq<Rule> := [
    Rule(LitCI("SEG"), "Seg"),
    Rule(LitCI("TER"), "Ter"),
    Rule(LitCI("QUA"), "Qua"),
    Rule(LitCI("QUI"), "Qui"),
    Rule(LitCI("SEX"), "Sex"),
    Rule(LitCI("SAB"), "Sáb"),
    Rule(LitCI("DOM"), "Dom")
  ]

  /** The weekday rules in source order: full names first, then three-letter names. */
  const DayNameRules: seq<Rule> := FullDayRules + ShortDayRules

  /** Ordinal weekdays `2ª`..`6ª`, case-sensitive. */
  const OrdinalRules: seq<Rule> := [
    Rule(Lit("2ª"), "Seg"),
    Rule(Lit("3ª"), "Ter"),
    Rule(Lit("4ª"), "Qua"),
    Rule(Lit("5ª"), "Qui"),
    Rule(Lit("6ª"), "Sex")
  ]

  /** `/\//g` and `/ e /gi` become `, `, `/,\s*,/g` becomes `,`, `/\s+/g` becomes a space. */
  const SeparatorRules: seq<Rule> := [
    Rule(Lit("/"), ", "),
    Rule(LitCI(" e "), ", "),
    Rule(CommaRun, ","),
    Rule(SpaceRun, " ")
  ]

  const OrdinalDigits: set<char> := {'2', '3', '4', '5', '6'}

  /** The ordinal indicator `ª`. */
  const Ordinal: char := '\U{00AA}'

  // ---------------------------------------------------------------------------
  // formatarFrequencia
  // ---------------------------------------------------------------------------

  /** Stage 1: the shift is stripped and the rest trimmed. */
  function StripShift(s: String): String {
    Trim(Apply(s, StripShiftRules))
  }

  /** Stage 2: full and three-letter weekday names become abbreviations. */
  function AbbreviateDays(s: String): String {
    Apply(s, DayNameRules)
  }

  /** Stage 3: ordinal weekdays become abbreviations; none is left. */
  function ReplaceOrdinals(s: String): (r: String)
    ensures NoPair(r, OrdinalDigits, Ordinal)
  {
    OrdinalsRemoved(s);
    Apply(s, OrdinalRules)
  }

  /** Stage 4: separators are normalised and the result trimmed. */
  function NormalizeSeparators(s: String): (r: String)
    ensures NoPair(s, OrdinalDigits, Ordinal) ==> Clean(r)
  {
    if NoPair(s, OrdinalDigits, Ordinal) then SeparatorsClean(s); Trim(Apply(s, SeparatorRules))
    else Trim(Apply(s, SeparatorRules))
  }

  /** What the output of `formatarFrequencia` promises for a present value: no
      surrounding whitespace, no two adjacent whitespace characters, no `/` and no
      ordinal weekday. */
  predicate Clean(r: String) {
    && (|r| > 0 ==> !IsSpace(r[0]) && !IsSpace(r[|r| - 1]))
    && NoDoubleSpace(r)
    && '/' !in r
    && NoPair(r, OrdinalDigits, Ordinal)
  }

  /** `formatarFrequencia(valor)`: `-` for an absent or empty value; otherwise the four
      stages in order, whose output is clean. */
  function FormatarFrequencia(v: Option<String>): (r: String)
    ensures v.None? || v.value == [] ==> r == "-"
    ensures v.Some? && v.value != [] ==> Clean(r)
  {
    if v.None? || v.value == [] then "-"
    else NormalizeSeparators(ReplaceOrdinals(AbbreviateDays(StripShift(v.value))))
  }

  /** The ordinal rules leave no digit 2 to 6 directly followed by `ª`. */
  lemma {:induction false} OrdinalsRemoved(s: String)
    ensures NoPair(Apply(s, OrdinalRules), OrdinalDigits, Ordinal)
  {
    var o1 := ReplaceAll(s, Lit("2ª"), "Seg");
    var o2 := ReplaceAll(o1, Lit("3ª"), "Ter");
    var o3 := ReplaceAll(o2, Lit("4ª"), "Qua");
    var o4 := ReplaceAll(o3, Lit("5ª"), "Qui");
    var o5 := ReplaceAll(o4, Lit("6ª"), "Sex");
    assert OrdinalRules == [OrdinalRules[0]] + ([OrdinalRules[1]] + ([OrdinalRules[2]]
                            + ([OrdinalRules[3]] + [OrdinalRules[4]])));
    ApplyCons(s, OrdinalRules[0], [OrdinalRules[1]] + ([OrdinalRules[2]] + ([OrdinalRules[3]] + [OrdinalRules[4]])));
    ApplyCons(o1, OrdinalRules[1], [OrdinalRules[2]] + ([OrdinalRules[3]] + [OrdinalRules[4]]));
    ApplyCons(o2, OrdinalRules[2], [OrdinalRules[3]] + [OrdinalRules[4]]);
    ApplyCons(o3, OrdinalRules[3], [OrdinalRules[4]]);
    ApplyCons(o4, OrdinalRules[4], []);
    assert Apply(s, OrdinalRules) == o5;
    OrdinalStep(s, '2', {}, "Seg");
    OrdinalStep(o1, '3', {'2'}, "Ter");
    OrdinalStep(o2, '4', {'2', '3'}, "Qua");
    OrdinalStep(o3, '5', {'2', '3', '4'}, "Qui");
    OrdinalStep(o4, '6', {'2', '3', '4', '5'}, "Sex");
  }

  /** Replacing `dª` by a weekday abbreviation removes that ordinal and creates none. */
  lemma OrdinalStep(s: String, d: char, done: set<char>, word: String)
    requires done + {d} <= OrdinalDigits
    requires NoPair(s, done, Ordinal)
    requires |word| == 3 && 'A' <= word[0] <= 'Z' && 'a' <= word[2] <= 'z' && 'a' <= word[1] <= 'z'
    ensures NoPair(ReplaceAll(s, Lit([d, Ordinal]), word), done + {d}, Ordinal)
  {
    var p := Lit([d, Ordinal]);
    forall i | 0 <= i < |s| - 1 && s[i] in done + {d} && s[i + 1] == Ordinal
      ensures MatchLen(p, s[i..]).Some?
    {
      assert StartsWith(s[i..], [d, Ordinal], false);
    }
    ReplaceAllNoPair(s, p, word, done + {d}, Ordinal);
  }

  /** The separator rules, one `replace` after another. */
  lemma SeparatorSteps(days: String)
    ensures Apply(days, SeparatorRules)
            == ReplaceAll(ReplaceAll(ReplaceAll(ReplaceAll(days, Lit("/"), ", "), LitCI(" e "), ", "), CommaRun, ","), SpaceRun, " ")
  {
    var s1 := ReplaceAll(days, Lit("/"), ", ");
    var s2 := ReplaceAll(s1, LitCI(" e "), ", ");
    var s3 := ReplaceAll(s2, CommaRun, ",");
    var sr := SeparatorRules;
    assert sr == [sr[0]] + ([sr[1]] + ([sr[2]] + [sr[3]]));
    ApplyCons(days, sr[0], [sr[1]] + ([sr[2]] + [sr[3]]));
    ApplyCons(s1, sr[1], [sr[2]] + [sr[3]]);
    ApplyCons(s2, sr[2], [sr[3]]);
    ApplyCons(s3, sr[3], []);
  }

  /** After `/` has become `, `, no later separator rule brings a `/` back. */
  lemma SlashRemoved(days: String)
    ensures '/' !in Apply(days, SeparatorRules)
  {
    var s1 := ReplaceAll(days, Lit("/"), ", ");
    var s2 := ReplaceAll(s1, LitCI(" e "), ", ");
    var s3 := ReplaceAll(s2, CommaRun, ",");
    var s4 := ReplaceAll(s3, SpaceRun, " ");
    SeparatorSteps(days);
    forall i | 0 <= i < |days| && days[i] == '/'
      ensures MatchLen(Lit("/"), days[i..]).Some?
    {
      assert StartsWith(days[i..], "/", false);
    }
    ReplaceAllRemovesChar(days, Lit("/"), ", ", '/');
    ReplaceAllKeepsCharOut(s1, LitCI(" e "), ", ", '/');
    ReplaceAllKeepsCharOut(s2, CommaRun, ",", '/');
    ReplaceAllKeepsCharOut(s3, SpaceRun, " ", '/');
  }

  /** The separator rules keep a text free of ordinal weekdays free of them. */
  lemma SeparatorsKeepOrdinalsOut(days: String)
    requires NoPair(days, OrdinalDigits, Ordinal)
    ensures NoPair(Apply(days, SeparatorRules), OrdinalDigits, Ordinal)
  {
    var s1 := ReplaceAll(days, Lit("/"), ", ");
    var s2 := ReplaceAll(s1, LitCI(" e "), ", ");
    var s3 := ReplaceAll(s2, CommaRun, ",");
    SeparatorSteps(days);
    ReplaceAllNoPair(days, Lit("/"), ", ", OrdinalDigits, Ordinal);
    ReplaceAllNoPair(s1, LitCI(" e "), ", ", OrdinalDigits, Ordinal);
    ReplaceAllNoPair(s2, CommaRun, ",", OrdinalDigits, Ordinal);
    ReplaceAllNoPair(s3, SpaceRun, " ", OrdinalDigits, Ordinal);
  }

  /** Trimming a text free of doubled whitespace, `/` and ordinal weekdays makes it clean. */
  lemma TrimClean(s: String)
    requires NoDoubleSpace(s) && '/' !in s && NoPair(s, OrdinalDigits, Ordinal)
    ensures Clean(Trim(s))
  {
    var r := Trim(s);
    var lo := LeadingSpaces(s);
    NoDoubleSpaceSlice(s, lo, lo + |r|);
    NoPairSlice(s, lo, lo + |r|, OrdinalDigits, Ordinal);
  }

  /** The separator rules and the final trim produce a clean string from any text free of
      ordinal weekdays. */
  lemma SeparatorsClean(days: String)
    requires NoPair(days, OrdinalDigits, Ordinal)
    ensures Clean(Trim(Apply(days, SeparatorRules)))
  {
    var s3 := ReplaceAll(ReplaceAll(ReplaceAll(days, Lit("/"), ", "), LitCI(" e "), ", "), CommaRun, ",");
    SeparatorSteps(days);
    SlashRemoved(days);
    SeparatorsKeepOrdinalsOut(days);
    CollapseNoDoubleSpace(s3);
    TrimClean(Apply(days, SeparatorRules));
  }

  // ---------------------------------------------------------------------------
  // What each stage does to particular texts
  // ---------------------------------------------------------------------------

  /** Every shift alternative begins with a space. */
  lemma ShiftPatternsStartWithSpace(c: char)
    requires !SameChar(c, ' ', true)
    ensures !CanStart(DashShiftPattern, c) && !CanStart(SpaceShiftPattern, c)
  {
    assert forall a :: a in DashShiftPattern.alts ==> a[0] == ' ';
    assert forall a :: a in SpaceShiftPattern.alts ==> a[0] == ' ';
  }

  /** A text with no whitespace offers no starting point to the shift alternatives. */
  lemma ShiftPatternsNeedSpace(s: String)
    requires forall c :: c in s ==> !IsSpace(c)
    ensures NoneStart(s, DashShiftPattern) && NoneStart(s, SpaceShiftPattern)
  {
    forall c | c in s
      ensures !CanStart(DashShiftPattern, c) && !CanStart(SpaceShiftPattern, c)
    {
      FoldOnlyItself(c, ' ');
      ShiftPatternsStartWithSpace(c);
    }
  }

  lemma DashShiftDiurno()
    ensures MatchLen(DashShiftPattern, " - DIURNO") == Some(9)
  {
    StartsWithSelf(" - DIURNO", [], true);
    assert " - DIURNO" + [] == " - DIURNO";
  }

  lemma DashShiftNoturno()
    ensures MatchLen(DashShiftPattern, " - NOTURNO") == Some(10)
  {
    StartsWithSelf(" - NOTURNO", [], true);
    assert " - NOTURNO" + [] == " - NOTURNO";
    MismatchAt(" - NOTURNO", " - DIURNO", true, 3);
  }

  lemma DashShiftVespertino()
    ensures MatchLen(DashShiftPattern, " - VESPERTINO") == Some(13)
  {
    StartsWithSelf(" - VESPERTINO", [], true);
    assert " - VESPERTINO" + [] == " - VESPERTINO";
    MismatchAt(" - VESPERTINO", " - DIURNO", true, 3);
    MismatchAt(" - VESPERTINO", " - NOTURNO", true, 3);
  }

  lemma SpaceShiftDiurno()
    ensures MatchLen(SpaceShiftPattern, " DIURNO") == Some(7)
  {
    StartsWithSelf(" DIURNO", [], true);
    assert " DIURNO" + [] == " DIURNO";
  }

  lemma SpaceShiftNoturno()
    ensures MatchLen(SpaceShiftPattern, " NOTURNO") == Some(8)
  {
    StartsWithSelf(" NOTURNO", [], true);
    assert " NOTURNO" + [] == " NOTURNO";
    MismatchAt(" NOTURNO", " DIURNO", true, 1);
  }

  lemma SpaceShiftVespertino()
    ensures MatchLen(SpaceShiftPattern, " VESPERTINO") == Some(11)
  {
    StartsWithSelf(" VESPERTINO", [], true);
    assert " VESPERTINO" + [] == " VESPERTINO";
    MismatchAt(" VESPERTINO", " DIURNO", true, 1);
    MismatchAt(" VESPERTINO", " NOTURNO", true, 1);
  }

  /** A space followed by a shift name is not a dash alternative. */
  lemma DashShiftNeedsDash(shift: String)
    requires shift in ShiftNames
    ensures MatchLen(DashShiftPattern, " " + shift).None?
  {
    var alts := DashShiftPattern.alts;
    var s := " " + shift;
    FoldOnlyItself(s[1], '-');
    MismatchAt(s, alts[0], true, 1);
    MismatchAt(s, alts[1], true, 1);
    MismatchAt(s, alts[2], true, 1);
  }

  /** The dash alternatives match all of ` - ` followed by `DIURNO`. */
  lemma DashShiftDiurnoSuffix(shift: String)
    requires shift == "DIURNO"
    ensures MatchLen(DashShiftPattern, " - " + shift) == Some(3 + |shift|)
  {
    assert " - " + shift == " - DIURNO";
    DashShiftDiurno();
  }

  /** The dash alternatives match all of ` - ` followed by `NOTURNO`. */
  lemma DashShiftNoturnoSuffix(shift: String)
    requires shift == "NOTURNO"
    ensures MatchLen(DashShiftPattern, " - " + shift) == Some(3 + |shift|)
  {
    assert " - " + shift == " - NOTURNO";
    DashShiftNoturno();
  }

  /** The dash alternatives match all of ` - ` followed by `VESPERTINO`. */
  lemma DashShiftVespertinoSuffix(shift: String)
    requires shift == "VESPERTINO"
    ensures MatchLen(DashShiftPattern, " - " + shift) == Some(3 + |shift|)
  {
    assert " - " + shift == " - VESPERTINO";
    DashShiftVespertino();
  }

  /** The space alternatives match all of a space followed by `DIURNO`. */
  lemma SpaceShiftDiurnoSuffix(shift: String)
    requires shift == "DIURNO"
    ensures MatchLen(SpaceShiftPattern, " " + shift) == Some(1 + |shift|)
  {
    assert " " + shift == " DIURNO";
    SpaceShiftDiurno();
  }

  /** The space alternatives match all of a space followed by `NOTURNO`. */
  lemma SpaceShiftNoturnoSuffix(shift: String)
    requires shift == "NOTURNO"
    ensures MatchLen(SpaceShiftPattern, " " + shift) == Some(1 + |shift|)
  {
    assert " " + shift == " NOTURNO";
    SpaceShiftNoturno();
  }

  /** The space alternatives match all of a space followed by `VESPERTINO`. */
  lemma SpaceShiftVespertinoSuffix(shift: String)
    requires shift == "VESPERTINO"
    ensures MatchLen(SpaceShiftPattern, " " + shift) == Some(1 + |shift|)
  {
    assert " " + shift == " VESPERTINO";
    SpaceShiftVespertino();
  }

  /** The dash alternatives match ` - ` and a shift name, the space alternatives a space
      and a shift name, each all of it. */
  lemma ShiftSuffixMatches(shift: String)
    requires shift in ShiftNames
    ensures MatchLen(DashShiftPattern, " - " + shift) == Some(3 + |shift|)
    ensures MatchLen(SpaceShiftPattern, " " + shift) == Some(1 + |shift|)
  {
    if shift == "DIURNO" {
      DashShiftDiurnoSuffix(shift);
      SpaceShiftDiurnoSuffix(shift);
    } else if shift == "NOTURNO" {
      DashShiftNoturnoSuffix(shift);
      SpaceShiftNoturnoSuffix(shift);
    } else {
      DashShiftVespertinoSuffix(shift);
      SpaceShiftVespertinoSuffix(shift);
    }
  }

  /** Shift names hold no whitespace. */
  lemma ShiftNamesHaveNoSpace(shift: String)
    requires shift in ShiftNames
    ensures forall c :: c in shift ==> !IsSpace(c)
  {
  }

  /** The two shift rules, one after the other. */
  lemma StripShiftSteps(s: String)
    ensures StripShift(s) == Trim(ReplaceAll(ReplaceAll(s, DashShiftPattern, ""), SpaceShiftPattern, ""))
  {
    var rs := StripShiftRules;
    assert rs == [rs[0]] + [rs[1]];
    ApplyCons(s, rs[0], [rs[1]]);
    ApplyCons(ReplaceAll(s, DashShiftPattern, ""), rs[1], []);
  }

  /** The dash rule deletes a trailing ` - ` and shift name, and the space rule then finds
      nothing. */
  lemma StripDashShift(days: String, shift: String)
    requires shift in ShiftNames
    requires forall c :: c in days ==> !IsSpace(c)
    ensures ReplaceAll(ReplaceAll(days + (" - " + shift), DashShiftPattern, ""), SpaceShiftPattern, "") == days
  {
    var tail := " - " + shift;
    ShiftSuffixMatches(shift);
    ShiftPatternsNeedSpace(days);
    ReplaceAllSkip(days, tail, DashShiftPattern, "");
    ReplaceAllHit(tail, |tail|, DashShiftPattern, "");
    assert tail[|tail|..] == [];
    assert days + "" == days;
    ReplaceAllUntouched(days, SpaceShiftPattern, "");
  }

  /** The dash rule passes over a trailing space and shift name, and the space rule then
      deletes them. */
  lemma StripSpaceShift(days: String, shift: String)
    requires shift in ShiftNames
    requires forall c :: c in days ==> !IsSpace(c)
    ensures ReplaceAll(ReplaceAll(days + (" " + shift), DashShiftPattern, ""), SpaceShiftPattern, "") == days
  {
    var tail := " " + shift;
    DashShiftNeedsDash(shift);
    ShiftNamesHaveNoSpace(shift);
    ShiftPatternsNeedSpace(days);
    ShiftPatternsNeedSpace(shift);
    ReplaceAllSkip(days, tail, DashShiftPattern, "");
    ReplaceAllMiss(tail, DashShiftPattern, "");
    assert tail[1..] == shift && tail[..1] == " ";
    ReplaceAllUntouched(shift, DashShiftPattern, "");
    StripSpaceShiftFinal(days, shift);
  }

  /** The space rule deletes a trailing space and shift name. */
  lemma StripSpaceShiftFinal(days: String, shift: String)
    requires shift in ShiftNames
    requires NoneStart(days, SpaceShiftPattern)
    ensures ReplaceAll(days + (" " + shift), SpaceShiftPattern, "") == days
  {
    var tail := " " + shift;
    ShiftSuffixMatches(shift);
    ReplaceAllSkip(days, tail, SpaceShiftPattern, "");
    ReplaceAllHit(tail, |tail|, SpaceShiftPattern, "");
    assert tail[|tail|..] == [];
    assert days + "" == days;
  }

  /** The first stage removes a shift name that ends the text after a space or after
      ` - `, and keeps the words before it. */
  lemma StripShiftRemovesShift(days: String, sep: String, shift: String)
    requires shift in ShiftNames && (sep == " " || sep == " - ")
    requires forall c :: c in days ==> !IsSpace(c)
    ensures StripShift(days + sep + shift) == days
  {
    assert days + sep + shift == days + (sep + shift);
    StripShiftSteps(days + (sep + shift));
    if sep == " - " {
      StripDashShift(days, shift);
    } else {
      StripSpaceShift(days, shift);
    }
    if |days| > 0 {
      assert days[0] in days && days[|days| - 1] in days;
    }
    TrimUnchanged(days);
  }
}
