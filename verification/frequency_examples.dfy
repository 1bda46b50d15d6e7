/**
 The frequency values documented beside `formatarFrequencia` in `js/app.js`, and what the
 function makes of them. Each value is taken apart by lemmas about its pieces, so that
 the verifier never evaluates the chain of replacements on a whole literal.
 */
module FrequencyExamples {
  import opened Wrappers
  import opened Text
  import opened Rewrite
  import opened Schedule
  import opened DayNames
  import opened DayLists
  import opened OrdinalDays

  /** `FormatsDayListWithShift` with the value and the result named. */
  lemma FormatsAs(v: String, parts: seq<String>, sep: String, shift: String, r: String)
    requires DayWords(parts)
    requires shift in ShiftNames && (sep == " " || sep == " - ")
    requires v == Join(parts, "/") + sep + shift && r == Join(AbbreviateEach(parts), ", ")
    ensures FormatarFrequencia(Some(v)) == r
  {
    FormatsDayListWithShift(parts, sep, shift);
  }

  /** A one-word list. */
  lemma OneDay(t: String, k: nat)
    requires k < |Abbreviations| && Word(t) && AbbreviateDays(t) == Abbreviations[k]
    ensures DayWords([t])
    ensures AbbreviateEach([t]) == [Abbreviations[k]]
  {
  }

  /** A three-word list. */
  lemma ThreeDays(a: String, b: String, c: String, ka: nat, kb: nat, kc: nat)
    requires ka < |Abbreviations| && Word(a) && AbbreviateDays(a) == Abbreviations[ka]
    requires kb < |Abbreviations| && Word(b) && AbbreviateDays(b) == Abbreviations[kb]
    requires kc < |Abbreviations| && Word(c) && AbbreviateDays(c) == Abbreviations[kc]
    ensures DayWords([a, b, c])
    ensures AbbreviateEach([a, b, c]) == [Abbreviations[ka], Abbreviations[kb], Abbreviations[kc]]
  {
  }

  // ---------------------------------------------------------------------------
  // The names
  // ---------------------------------------------------------------------------

  /** A three-letter name written as its rule's pattern is a word with that rule's
      abbreviation. */
  lemma ShortName(t: String, k: nat)
    requires k < |ShortDayRules| && t == Alt(ShortDayRules, k)
    ensures AbbreviateDays(t) == Abbreviations[k]
  {
    ShortDayFacts();
    StartsWithSelf(t, [], true);
    assert t + [] == t;
    ShortNameAbbreviated(t, k);
  }

  lemma ShortWords(a: String, b: String, c: String)
    requires a == "SEG" && b == "QUA" && c == "SEX"
    ensures Word(a) && Word(b) && Word(c)
  {
  }

  /** A full name in lower case is abbreviated like its upper-case rule. */
  lemma LowerCaseThursday(t: String)
    requires t == "quinta-feira"
    ensures AbbreviateDays(t) == "Qui"
  {
    StartsWithByChars(t, Alt(FullDayRules, 4), true);
    FullNameAbbreviated(t, 4);
  }

  // ---------------------------------------------------------------------------
  // The documented values
  // ---------------------------------------------------------------------------

  lemma MondayList(t: String)
    requires t == "SEGUNDA-FEIRA"
    ensures DayWords([t]) && Join(AbbreviateEach([t]), ", ") == "Seg"
  {
    StartsWithSelf(t, [], true);
    assert t + [] == t;
    FullNameIsDayWord(t, 0);
  }

  lemma SaturdayList(t: String)
    requires t == "SABADO"
    ensures DayWords([t]) && Join(AbbreviateEach([t]), ", ") == "Sáb"
  {
    StartsWithSelf(t, [], true);
    assert t + [] == t;
    FullNameIsDayWord(t, 6);
  }

  lemma ShortAbbreviated(a: String, b: String, c: String)
    requires a == "SEG" && b == "QUA" && c == "SEX"
    ensures AbbreviateDays(a) == Abbreviations[0]
    ensures AbbreviateDays(b) == Abbreviations[2]
    ensures AbbreviateDays(c) == Abbreviations[4]
  {
    ShortName(a, 0);
    ShortName(b, 2);
    ShortName(c, 4);
  }

  lemma ShortResult()
    ensures Join([Abbreviations[0], Abbreviations[2], Abbreviations[4]], ", ") == "Seg, Qua, Sex"
  {
    Join3(Abbreviations[0], Abbreviations[2], Abbreviations[4], ", ");
  }

  lemma ShortList(a: String, b: String, c: String)
    requires a == "SEG" && b == "QUA" && c == "SEX"
    ensures DayWords([a, b, c]) && Join(AbbreviateEach([a, b, c]), ", ") == "Seg, Qua, Sex"
  {
    ShortWords(a, b, c);
    ShortAbbreviated(a, b, c);
    ThreeDays(a, b, c, 0, 2, 4);
    ShortResult();
  }

  /** A three-piece join spelled out. */
  lemma Join3(x: String, y: String, z: String, sep: String)
    ensures Join([x, y, z], sep) == x + sep + y + sep + z
  {
    assert [x, y, z][1..] == [y, z];
    assert [y, z][1..] == [z];
    assert Join([y, z], sep) == y + sep + z;
    assert Join([x, y, z], sep) == x + sep + (y + sep + z);
  }

  lemma MondayValue(v: String, t: String)
    requires v == "SEGUNDA-FEIRA DIURNO" && t == "SEGUNDA-FEIRA"
    ensures v == Join([t], "/") + " " + "DIURNO"
  {
  }

  lemma SaturdayValue(v: String, t: String)
    requires v == "SABADO DIURNO" && t == "SABADO"
    ensures v == Join([t], "/") + " " + "DIURNO"
  {
  }

  lemma ShortValue(v: String, a: String, b: String, c: String)
    requires v == "SEG/QUA/SEX - NOTURNO" && a == "SEG" && b == "QUA" && c == "SEX"
    ensures v == Join([a, b, c], "/") + " - " + "NOTURNO"
  {
    Join3(a, b, c, "/");
  }

  /** `SEGUNDA-FEIRA DIURNO` becomes `Seg`. */
  lemma MondayWithShift()
    ensures FormatarFrequencia(Some("SEGUNDA-FEIRA DIURNO")) == "Seg"
  {
    MondayList("SEGUNDA-FEIRA");
    MondayValue("SEGUNDA-FEIRA DIURNO", "SEGUNDA-FEIRA");
    FormatsAs("SEGUNDA-FEIRA DIURNO", ["SEGUNDA-FEIRA"], " ", "DIURNO", "Seg");
  }

  /** `SEG/QUA/SEX - NOTURNO` becomes `Seg, Qua, Sex`. */
  lemma ThreeDaysWithShift()
    ensures FormatarFrequencia(Some("SEG/QUA/SEX - NOTURNO")) == "Seg, Qua, Sex"
  {
    ShortList("SEG", "QUA", "SEX");
    ShortValue("SEG/QUA/SEX - NOTURNO", "SEG", "QUA", "SEX");
    FormatsAs("SEG/QUA/SEX - NOTURNO", ["SEG", "QUA", "SEX"], " - ", "NOTURNO", "Seg, Qua, Sex");
  }

  /** `SABADO DIURNO` becomes `Sáb`. */
  lemma SaturdayWithShift()
    ensures FormatarFrequencia(Some("SABADO DIURNO")) == "Sáb"
  {
    SaturdayList("SABADO");
    SaturdayValue("SABADO DIURNO", "SABADO");
    FormatsAs("SABADO DIURNO", ["SABADO"], " ", "DIURNO", "Sáb");
  }

  // ---------------------------------------------------------------------------
  // An ordinal weekday and a conjunction
  // ---------------------------------------------------------------------------

  lemma OrdinalPieces(a: String, b: String, c: String)
    requires a == "3ª" && b == "e" && c == "Sáb."
    ensures Unspaced([a, b, c]) && !ShiftLead(b[0]) && !ShiftLead(c[0])
    ensures a == ['3', Ordinal] && c == Abbreviations[5] + "."
    ensures forall x :: x in b ==> !('0' <= x <= '9')
    ensures forall x :: x in c ==> !('0' <= x <= '9')
    ensures Word(Abbreviations[1]) && Word(c)
  {
  }

  lemma OrdinalValue(v: String, a: String, b: String, c: String)
    requires v == "3ª e Sáb." && a == "3ª" && b == "e" && c == "Sáb."
    ensures v == Join([a, b, c], " ")
  {
    Join3(a, b, c, " ");
  }

  /** Every piece of `3ª e Sáb.` passes the weekday stage unchanged. */
  lemma OrdinalPiecesKept(a: String, b: String, c: String)
    requires a == "3ª" && b == "e" && c == "Sáb."
    ensures AbbreviateEach([a, b, c]) == [a, b, c]
  {
    OrdinalPieces(a, b, c);
    TinyTextKept(a);
    TinyTextKept(b);
    AbbreviationWithStopKept(Abbreviations[5]);
  }

  /** The ordinal stage on a three-piece list, piece by piece. */
  lemma OrdinalsEach3(a: String, b: String, c: String)
    ensures ReplaceOrdinalsEach([a, b, c]) == [ReplaceOrdinals(a), ReplaceOrdinals(b), ReplaceOrdinals(c)]
  {
  }

  /** In `3ª e Sáb.` only `3ª` changes in the ordinal stage, into `Ter`. */
  lemma OrdinalPiecesReplaced(a: String, b: String, c: String)
    requires a == "3ª" && b == "e" && c == "Sáb."
    ensures ReplaceOrdinalsEach([a, b, c]) == [Abbreviations[1], b, c]
  {
    OrdinalPieces(a, b, c);
    OrdinalBecomesDay(1);
    assert ('2' as int + 1) as char == '3';
    OrdinalsAbsent(b);
    OrdinalsAbsent(c);
    OrdinalsEach3(a, b, c);
  }

  /** `Ter e Sáb.` is a list of two words joined by ` e `. */
  lemma ConjunctionValue(a: String, b: String, c: String)
    requires a == Abbreviations[1] && b == "e" && c == "Sáb."
    ensures Join([a, b, c], " ") == Join([a, c], " e ")
    ensures Join([a, c], ", ") == "Ter, Sáb."
  {
    Join3(a, b, c, " ");
    assert [a, c][1..] == [c];
  }

  /** The first two stages leave three space-separated words alone when none begins a
      shift and each passes the weekday stage unchanged. */
  lemma FirstStagesKeep(v: String, a: String, b: String, c: String)
    requires v == Join([a, b, c], " ") && Unspaced([a, b, c])
    requires |b| > 0 && |c| > 0 && !ShiftLead(b[0]) && !ShiftLead(c[0])
    requires AbbreviateEach([a, b, c]) == [a, b, c]
    ensures v != [] && FormatarFrequencia(Some(v)) == NormalizeSeparators(ReplaceOrdinals(v))
  {
    JoinHead([a, b, c], " ");
    StripShiftKeepsWords([a, b, c], v);
    DaysOfList([a, b, c], ' ');
  }

  /** The ordinal stage on three space-separated words, piece by piece. */
  lemma OrdinalStageOnWords(v: String, a: String, b: String, c: String, ter: String)
    requires v == Join([a, b, c], " ")
    requires ReplaceOrdinalsEach([a, b, c]) == [ter, b, c]
    ensures ReplaceOrdinals(v) == Join([ter, b, c], " ")
  {
    OrdinalsOfList([a, b, c], ' ');
  }

  /** The separator stage on `ter e c`. */
  lemma SeparatorStageOnPair(w: String, ter: String, c: String)
    requires w == Join([ter, c], " e ") && Word(ter) && Word(c)
    ensures NormalizeSeparators(w) == Join([ter, c], ", ")
  {
    SeparatorsOnConjunctionList([ter, c]);
  }

  /** `3ª e Sáb.` becomes `Ter, Sáb.`. */
  lemma OrdinalAndSaturday()
    ensures FormatarFrequencia(Some("3ª e Sáb.")) == "Ter, Sáb."
  {
    var v, a, b, c := "3ª e Sáb.", "3ª", "e", "Sáb.";
    OrdinalPieces(a, b, c);
    OrdinalValue(v, a, b, c);
    OrdinalPiecesKept(a, b, c);
    OrdinalPiecesReplaced(a, b, c);
    ConjunctionValue(Abbreviations[1], b, c);
    FirstStagesKeep(v, a, b, c);
    OrdinalStageOnWords(v, a, b, c, Abbreviations[1]);
    SeparatorStageOnPair(Join([Abbreviations[1], c], " e "), Abbreviations[1], c);
  }

  /** The comma step scans once from left to right, so a run of three commas keeps two:
      runs of commas are shortened, not collapsed to one. */
  lemma CommaRunSinglePass()
    ensures ReplaceAll(",,,", CommaRun, ",") == ",,"
  {
  }
}
