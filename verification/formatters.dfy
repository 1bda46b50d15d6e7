/**
 The smaller schedule formatters of `js/app.js`: `extrairTurno` finds the shift named in a
 frequency text, `formatarTurno` labels a shift, and `formatarHorario` fixes the letter
 case of the two phrases that introduce a time.
 */
module Formatters {
  import opened Wrappers
  import opened Text
  import opened Schedule

  /** The labels shown for the shifts, at the positions of `ShiftNames`. */
  const ShiftLabels: seq<String> := ["Diurno (manhã)", "Noturno", "Vespertino (tarde)"]

  /** Some shift name, in any letter case, begins at no position of `s`. */
  predicate NoShiftIn(s: String) {
    forall i :: 0 <= i < |s| ==> MatchLen(ShiftPattern, s[i..]).None?
  }

  /** The shift name `w` begins at position `i` of `s`, ignoring case, and is what the
      alternation matches there. */
  predicate ShiftAt(s: String, i: nat, w: String) {
    && i < |s|
    && StartsWith(s[i..], w, true)
    && MatchLen(ShiftPattern, s[i..]) == Some(|w|)
  }

  /** Every shift name is upper-case ASCII. */
  lemma ShiftNamesUpper()
    ensures forall k, i :: 0 <= k < |ShiftNames| && 0 <= i < |ShiftNames[k]| ==> 'A' <= ShiftNames[k][i] <= 'Z'
  {
  }

  /** Where the alternation matches, the matched text upper-cases to the shift name that
      matched. */
  lemma ShiftMatchToken(t: String)
    requires MatchLen(ShiftPattern, t).Some?
    ensures var n := MatchLen(ShiftPattern, t).value;
            n <= |t| && Upper(t[..n]) in ShiftNames && StartsWith(t, Upper(t[..n]), true)
            && |Upper(t[..n])| == n
  {
    var k := FirstAlt(t, ShiftNames, true).value;
    var w := ShiftNames[k];
    StartsWithPrefix(t, w, true);
    ShiftNamesUpper();
    UpperOfMatch(t[..|w|], w);
  }

  /** The token `extrairTurno` takes from the leftmost match at `i`. */
  lemma TokenAt(s: String, i: nat)
    requires i < |s| && MatchLen(ShiftPattern, s[i..]).Some?
    ensures var n := MatchLen(ShiftPattern, s[i..]).value;
            i + n <= |s| && Upper(s[i..i + n]) in ShiftNames && ShiftAt(s, i, Upper(s[i..i + n]))
  {
    var n := MatchLen(ShiftPattern, s[i..]).value;
    ShiftMatchToken(s[i..]);
    assert s[i..i + n] == s[i..][..n];
  }

  /** `extrairTurno(frequencia)`: `None` for an absent or empty text and for a text that
      names no shift; otherwise the shift name found at the leftmost position where one
      begins, in upper case. */
  function ExtrairTurno(v: Option<String>): (r: Option<String>)
    ensures v.None? || v.value == [] ==> r.None?
    ensures v.Some? ==> (r.None? <==> NoShiftIn(v.value))
    ensures r.Some? ==> r.value in ShiftNames
    ensures r.Some? ==> exists i :: ShiftAt(v.value, i, r.value) && forall j :: 0 <= j < i ==> MatchLen(ShiftPattern, v.value[j..]).None?
  {
    if v.None? || v.value == [] then None
    else
      var s := v.value;
      match Find(s, ShiftPattern)
      case None => None
      case Some(i) =>
        var n := MatchLen(ShiftPattern, s[i..]).value;
        TokenAt(s, i);
        Some(Upper(s[i..i + n]))
  }

  /** `formatarTurno(valor)`: `-` for an absent or empty value; the label of a shift
      name given in any letter case; any other value unchanged. */
  function FormatarTurno(v: Option<String>): (r: String)
    ensures v.None? || v.value == [] ==> r == "-"
    ensures v.Some? && v.value != [] ==>
              forall k :: 0 <= k < |ShiftNames| && Upper(v.value) == ShiftNames[k] ==> r == ShiftLabels[k]
    ensures v.Some? && v.value != [] && Upper(v.value) !in ShiftNames ==> r == v.value
  {
    if v.None? || v.value == [] then "-"
    else
      var u := Upper(v.value);
      if u == "DIURNO" then "Diurno (manhã)"
      else if u == "VESPERTINO" then "Vespertino (tarde)"
      else if u == "NOTURNO" then "Noturno"
      else v.value
  }

  /** `formatarHorario(valor)`: `-` for an absent or empty value; otherwise the first
      `A PARTIR DAS ` becomes `A partir das ` and then the first `ATE ` becomes `Até `,
      both matched with their letter case. */
  function FormatarHorario(v: Option<String>): (r: String)
    ensures v.None? || v.value == [] ==> r == "-"
  {
    if v.None? || v.value == [] then "-"
    else ReplaceFirst(ReplaceFirst(v.value, Lit("A PARTIR DAS "), "A partir das "), Lit("ATE "), "Até ")
  }

  // ---------------------------------------------------------------------------
  // Shifts
  // ---------------------------------------------------------------------------

  /** The label of a shift depends only on the upper case of the value. */
  lemma FormatarTurnoIgnoresCase(v: String, w: String)
    requires v != [] && w != [] && Upper(v) == Upper(w) && Upper(v) in ShiftNames
    ensures FormatarTurno(Some(v)) == FormatarTurno(Some(w))
    ensures FormatarTurno(Some(v)) in ShiftLabels
  {
  }

  /** `formatarTurno` answers `-` only for an absent or empty value and for `-` itself:
      an unknown value is shown as it is. */
  lemma FormatarTurnoDash(v: Option<String>)
    ensures FormatarTurno(v) == "-" <==> v.None? || v.value == [] || v.value == "-"
  {
    if v.Some? && v.value == "-" {
      assert Upper("-") == "-";
    }
  }

  /** Every shift name upper-cases to itself. */
  lemma ShiftNameIsUpper(w: String)
    requires w in ShiftNames
    ensures Upper(w) == w
  {
    ShiftNamesUpper();
    StartsWithSelf(w, [], true);
    assert w + [] == w;
    UpperOfMatch(w, w);
  }

  /** The shift read from a frequency text is shown as `-` exactly when the text names no
      shift, and otherwise as the label of the leftmost shift named. */
  lemma ShiftFromFrequency(v: Option<String>)
    ensures FormatarTurno(ExtrairTurno(v)) == "-" <==> v.None? || v.value == [] || NoShiftIn(v.value)
    ensures ExtrairTurno(v).Some? ==>
              exists k :: 0 <= k < |ShiftNames| && ExtrairTurno(v).value == ShiftNames[k]
                          && FormatarTurno(ExtrairTurno(v)) == ShiftLabels[k]
  {
    var t := ExtrairTurno(v);
    if t.Some? {
      ShiftNameIsUpper(t.value);
      var k :| 0 <= k < |ShiftNames| && ShiftNames[k] == t.value;
      assert FormatarTurno(t) == ShiftLabels[k];
    }
  }

  /** A text whose first character folds to none of `D`, `N` and `V` begins no shift
      name. */
  lemma ShiftNeedsLead(t: String)
    requires |t| > 0 && !SameChar(t[0], 'D', true) && !SameChar(t[0], 'N', true) && !SameChar(t[0], 'V', true)
    ensures MatchLen(ShiftPattern, t).None?
  {
    MismatchAt(t, ShiftNames[0], true, 0);
    MismatchAt(t, ShiftNames[1], true, 0);
    MismatchAt(t, ShiftNames[2], true, 0);
    MatchLenNone(ShiftPattern, t);
  }

  /** Conversely to the contract of `ExtrairTurno`: where the leftmost match of a shift
      name is known, `extrairTurno` answers that name. */
  lemma LeftmostShift(s: String, i: nat, w: String)
    requires i < |s| && w in ShiftNames && MatchLen(ShiftPattern, s[i..]) == Some(|w|)
    requires forall j :: 0 <= j < i ==> MatchLen(ShiftPattern, s[j..]).None?
    ensures ExtrairTurno(Some(s)) == Some(w)
  {
    var r := ExtrairTurno(Some(s));
    assert !NoShiftIn(s);
    var i' :| ShiftAt(s, i', r.value) && forall j :: 0 <= j < i' ==> MatchLen(ShiftPattern, s[j..]).None?;
    assert i' == i;
  }

  // ---------------------------------------------------------------------------
  // Times
  // ---------------------------------------------------------------------------

  /** Each of the two rewrites of `formatarHorario` keeps the text before the leftmost
      occurrence and everything after it, later occurrences included; a text without
      the phrase is kept whole. */
  lemma HorarioRewritesFirstOnly(s: String)
    ensures var p := Lit("A PARTIR DAS ");
            match Find(s, p)
            case None => ReplaceFirst(s, p, "A partir das ") == s
            case Some(i) =>
              && (forall j :: 0 <= j < i ==> !StartsWith(s[j..], "A PARTIR DAS ", false))
              && ReplaceFirst(s, p, "A partir das ") == s[..i] + "A partir das " + s[i + 13..]
    ensures var p := Lit("ATE ");
            match Find(s, p)
            case None => ReplaceFirst(s, p, "Até ") == s
            case Some(i) =>
              && (forall j :: 0 <= j < i ==> !StartsWith(s[j..], "ATE ", false))
              && ReplaceFirst(s, p, "Até ") == s[..i] + "Até " + s[i + 4..]
  {
    ReplaceFirstLiteral(s, "A PARTIR DAS ", false, "A partir das ");
    ReplaceFirstLiteral(s, "ATE ", false, "Até ");
  }

  /** Both rewrites swap a phrase for one of the same length, so `formatarHorario` keeps
      the length of a present value. */
  lemma HorarioKeepsLength(s: String)
    requires s != []
    ensures |FormatarHorario(Some(s))| == |s|
  {
    var s1 := ReplaceFirst(s, Lit("A PARTIR DAS "), "A partir das ");
    ReplaceFirstSameLength(s, "A PARTIR DAS ", false, "A partir das ");
    ReplaceFirstSameLength(s1, "ATE ", false, "Até ");
  }

  /** `formatarHorario` answers `-` only for an absent or empty value and for `-`
      itself. */
  lemma FormatarHorarioDash(v: Option<String>)
    ensures FormatarHorario(v) == "-" <==> v.None? || v.value == [] || v.value == "-"
  {
    if v.Some? && v.value != [] {
      var s := v.value;
      HorarioKeepsLength(s);
      if |s| == 1 {
        var s1 := ReplaceFirst(s, Lit("A PARTIR DAS "), "A partir das ");
        ReplaceFirstShort(s, "A PARTIR DAS ", false, "A partir das ");
        ReplaceFirstShort(s1, "ATE ", false, "Até ");
      }
    }
  }

  /** A value holding neither phrase is shown as it is. */
  lemma HorarioWithoutPhrases(s: String)
    requires s != []
    requires Find(s, Lit("A PARTIR DAS ")).None? && Find(s, Lit("ATE ")).None?
    ensures FormatarHorario(Some(s)) == s
  {
  }
}
