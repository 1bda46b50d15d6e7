/**
 `formatarFrequencia` on frequency values written with ordinal weekdays (`2ª` to `6ª`)
 and the conjunction ` e `, such as `3ª e Sáb.`: words separated by single spaces.
 */
module OrdinalDays {
  import opened Wrappers
  import opened Text
  import opened Rewrite
  import opened Schedule
  import opened DayNames
  import opened DayLists

  /** Every piece is non-empty and holds no whitespace. */
  predicate Unspaced(parts: seq<String>) {
    forall k :: 0 <= k < |parts| ==> |parts[k]| > 0 && forall c :: c in parts[k] ==> !IsSpace(c)
  }

  /** `c` can begin the word after the space of a shift alternative: a dash or the first
      letter of a shift name. */
  predicate ShiftLead(c: char) {
    SameChar(c, '-', true) || SameChar(c, 'D', true) || SameChar(c, 'N', true) || SameChar(c, 'V', true)
  }

  // ---------------------------------------------------------------------------
  // The shift stage
  // ---------------------------------------------------------------------------

  /** A space followed by a character that begins no shift is not a dash alternative. */
  lemma DashShiftMisses(rest: String)
    requires |rest| > 0 && !ShiftLead(rest[0])
    ensures MatchLen(DashShiftPattern, " " + rest).None?
  {
    var alts := DashShiftPattern.alts;
    var s := " " + rest;
    assert s[1] == rest[0];
    MismatchAt(s, alts[0], true, 1);
    MismatchAt(s, alts[1], true, 1);
    MismatchAt(s, alts[2], true, 1);
    MatchLenNone(DashShiftPattern, s);
  }

  /** Nor is it a space alternative. */
  lemma SpaceShiftMisses(rest: String)
    requires |rest| > 0 && !ShiftLead(rest[0])
    ensures MatchLen(SpaceShiftPattern, " " + rest).None?
  {
    var alts := SpaceShiftPattern.alts;
    var s := " " + rest;
    assert s[1] == rest[0];
    MismatchAt(s, alts[0], true, 1);
    MismatchAt(s, alts[1], true, 1);
    MismatchAt(s, alts[2], true, 1);
    MatchLenNone(SpaceShiftPattern, s);
  }

  /** A shift pattern removes nothing from space-separated words none of which begins a
      shift. */
  lemma {:induction false} NoShiftBetweenWords(parts: seq<String>, i: nat)
    requires i < |StripShiftRules|
    requires |parts| > 0 && Unspaced(parts)
    requires forall k :: 1 <= k < |parts| ==> !ShiftLead(parts[k][0])
    ensures ReplaceAll(Join(parts, " "), StripShiftRules[i].pattern, StripShiftRules[i].repl) == Join(parts, " ")
  {
    var p := StripShiftRules[i].pattern;
    var r := StripShiftRules[i].repl;
    var w := parts[0];
    ShiftPatternsNeedSpace(w);
    if |parts| == 1 {
      ReplaceAllUntouched(w, p, r);
    } else {
      var rest := Join(parts[1..], " ");
      assert Join(parts, " ") == w + (" " + rest);
      ReplaceAllSkip(w, " " + rest, p, r);
      JoinHead(parts[1..], " ");
      if p == DashShiftPattern {
        DashShiftMisses(rest);
      } else {
        SpaceShiftMisses(rest);
      }
      ReplaceAllMiss(" " + rest, p, r);
      assert (" " + rest)[..1] == " " && (" " + rest)[1..] == rest;
      NoShiftBetweenWords(parts[1..], i);
    }
  }

  /** Words joined by single spaces have no whitespace at either end. */
  lemma SpacedWordsTrimmed(parts: seq<String>)
    requires |parts| > 0 && Unspaced(parts)
    ensures Trim(Join(parts, " ")) == Join(parts, " ")
  {
    var j := Join(parts, " ");
    var first := parts[0];
    var last := parts[|parts| - 1];
    assert first[0] in first && last[|last| - 1] in last;
    JoinHead(parts, " ");
    JoinLast(parts, " ");
    TrimUnchanged(j);
  }

  /** A text that both shift patterns leave alone and that has no surrounding whitespace
      passes the first stage unchanged. */
  lemma StripShiftFixed(j: String)
    requires forall i :: 0 <= i < |StripShiftRules| ==>
               ReplaceAll(j, StripShiftRules[i].pattern, StripShiftRules[i].repl) == j
    requires Trim(j) == j
    ensures StripShift(j) == j
  {
    ApplyFixed(j, StripShiftRules);
  }

  /** Space-separated words none of which begins a shift pass the first stage unchanged. */
  lemma StripShiftKeepsWords(parts: seq<String>, j: String)
    requires |parts| > 0 && Unspaced(parts) && j == Join(parts, " ")
    requires forall k :: 1 <= k < |parts| ==> !ShiftLead(parts[k][0])
    ensures StripShift(j) == j
  {
    forall i | 0 <= i < |StripShiftRules|
      ensures ReplaceAll(j, StripShiftRules[i].pattern, StripShiftRules[i].repl) == j
    {
      NoShiftBetweenWords(parts, i);
    }
    SpacedWordsTrimmed(parts);
    StripShiftFixed(j);
  }

  // ---------------------------------------------------------------------------
  // The weekday stage
  // ---------------------------------------------------------------------------

  /** Every three-letter rule has three characters. */
  lemma ShortDayLengths()
    ensures AltsLongerThan(ShortDayRules, 2)
  {
  }

  /** A text of at most two characters passes the weekday stage unchanged. */
  lemma TinyTextKept(t: String)
    requires |t| <= 2
    ensures AbbreviateDays(t) == t
  {
    AbbreviateDaysSteps(t);
    FullRulesKeepShortText(t);
    ShortDayLengths();
    AltsLongerThanMono(ShortDayRules, 2, |t|);
    ApplyShort(t, ShortDayRules);
  }

  /** An abbreviation followed by a full stop passes the weekday stage unchanged. */
  lemma AbbreviationWithStopKept(a: String)
    requires a in Abbreviations
    ensures AbbreviateDays(a + ".") == a + "."
  {
    DaysOfList([a, ""], '.');
    assert Join([a, ""], ".") == a + ".";
    AbbreviationStable(a);
    ApplyEmpty(DayNameRules);
    assert AbbreviateEach([a, ""]) == [a, ""];
  }

  // ---------------------------------------------------------------------------
  // The ordinal stage
  // ---------------------------------------------------------------------------

  /** No ordinal rule holds a character other than a digit or `ª`. */
  lemma OrdinalRulesBarrier(c: char)
    requires !('0' <= c <= '9') && c != Ordinal
    ensures forall k :: 0 <= k < |OrdinalRules| ==> Barrier(OrdinalRules[k].pattern, c)
  {
  }

  /** The ordinal stage on every piece of a list. */
  function ReplaceOrdinalsEach(parts: seq<String>): seq<String> {
    seq(|parts|, i requires 0 <= i < |parts| => ReplaceOrdinals(parts[i]))
  }

  /** The ordinal stage works on each piece of a list separated by such a character. */
  lemma OrdinalsOfList(parts: seq<String>, c: char)
    requires !('0' <= c <= '9') && c != Ordinal
    ensures ReplaceOrdinals(Join(parts, [c])) == Join(ReplaceOrdinalsEach(parts), [c])
  {
    OrdinalRulesBarrier(c);
    ApplyJoin(parts, c, OrdinalRules);
    assert ReplaceOrdinalsEach(parts) == seq(|parts|, i requires 0 <= i < |parts| => Apply(parts[i], OrdinalRules));
  }

  /** The ordinal rules are two-character literals whose digits are `2` to `6` in order,
      each replaced by the abbreviation of the same position. */
  lemma OrdinalFacts()
    ensures SingleAlts(OrdinalRules, 2)
    ensures forall k :: 0 <= k < |OrdinalRules| ==>
              && Alt(OrdinalRules, k) == [('2' as int + k) as char, Ordinal]
              && !OrdinalRules[k].pattern.ci
              && OrdinalRules[k].repl == Abbreviations[k]
  {
  }

  /** `dª`, for a digit `d` from 2 to 6, becomes the abbreviation of weekday `d - 1`
      counted from Monday. */
  lemma OrdinalBecomesDay(k: nat)
    requires k < |OrdinalRules|
    ensures ReplaceOrdinals([('2' as int + k) as char, Ordinal]) == Abbreviations[k]
  {
    var t := [('2' as int + k) as char, Ordinal];
    OrdinalFacts();
    forall j | 0 <= j < k
      ensures !StartsWith(t, Alt(OrdinalRules, j), false)
    {
      MismatchAt(t, Alt(OrdinalRules, j), false, 0);
    }
    StartsWithSelf(t, [], false);
    assert t + [] == t;
    var a := Abbreviations[k];
    AbbreviationsAreWords();
    assert Word(a);
    var later := OrdinalRules[k + 1..];
    forall j | 0 <= j < |later|
      ensures NoneStart(a, later[j].pattern)
    {
      forall c | c in a
        ensures !CanStart(later[j].pattern, c)
      {
        OrdinalRulesStartWithDigit(c);
        assert later[j] == OrdinalRules[k + 1 + j];
      }
    }
    ApplyUntouched(a, later);
    ApplyFirstHitThen(t, OrdinalRules, k);
  }

  // ---------------------------------------------------------------------------
  // The separator stage on words joined by ` e `
  // ---------------------------------------------------------------------------

  /** A word offers no starting point to ` e `. */
  lemma WordMissesConjunction(w: String)
    requires Word(w)
    ensures NoneStart(w, LitCI(" e "))
  {
    forall c | c in w
      ensures !CanStart(LitCI(" e "), c)
    {
      FoldOnlyItself(c, ' ');
      assert LitCI(" e ").alts == [" e "];
    }
  }

  /** ` e ` becomes `, ` between words. */
  lemma {:induction false} ConjunctionsBecomeCommas(parts: seq<String>)
    requires |parts| > 0 && Words(parts)
    ensures ReplaceAll(Join(parts, " e "), LitCI(" e "), ", ") == Join(parts, ", ")
  {
    var p := LitCI(" e ");
    var w := parts[0];
    assert Word(w);
    WordMissesConjunction(w);
    if |parts| == 1 {
      ReplaceAllUntouched(w, p, ", ");
    } else {
      var rest := Join(parts[1..], " e ");
      var tail := " e " + rest;
      assert Join(parts, " e ") == w + tail;
      ReplaceAllSkip(w, tail, p, ", ");
      StartsWithSelf(" e ", rest, true);
      MatchLenAt(p, tail, 0);
      ReplaceAllHit(tail, 3, p, ", ");
      assert tail[3..] == rest;
      ConjunctionsBecomeCommas(parts[1..]);
      assert Join(parts, ", ") == w + (", " + Join(parts[1..], ", "));
    }
  }

  /** Words joined by ` e ` hold no `/`. */
  lemma ConjunctionListHasNoSlash(parts: seq<String>)
    requires Words(parts)
    ensures NoneStart(Join(parts, " e "), Lit("/"))
  {
    forall k | 0 <= k < |parts|
      ensures '/' !in parts[k]
    {
      assert Word(parts[k]);
    }
    JoinCharOut(parts, " e ", '/');
    forall c | c in Join(parts, " e ")
      ensures !CanStart(Lit("/"), c)
    {
      assert Lit("/").alts == ["/"];
    }
  }

  /** The separator stage turns words joined by ` e ` into a `, `-separated list. */
  lemma SeparatorsOnConjunctionList(parts: seq<String>)
    requires |parts| > 0 && Words(parts)
    ensures NormalizeSeparators(Join(parts, " e ")) == Join(parts, ", ")
  {
    var j := Join(parts, " e ");
    SeparatorSteps(j);
    ConjunctionListHasNoSlash(parts);
    ReplaceAllUntouched(j, Lit("/"), ", ");
    ConjunctionsBecomeCommas(parts);
    NoCommaRun(parts);
    SingleSpaces(parts);
    JoinTrimmed(parts);
  }
}
