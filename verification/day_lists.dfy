/**
 `formatarFrequencia` on the common shape of a frequency value: weekday names separated
 by `/`, optionally followed by a shift. Each stage is described on a whole list, and
 the stages are then composed.
 */
module DayLists {
  import opened Wrappers
  import opened Text
  import opened Rewrite
  import opened Schedule
  import opened DayNames

  /** A character that can appear inside a day word: no whitespace, separator or digit. */
  predicate WordChar(c: char) {
    !IsSpace(c) && c != '/' && c != ',' && !('0' <= c <= '9')
  }

  /** A non-empty run of word characters. */
  predicate Word(w: String) {
    |w| > 0 && forall c :: c in w ==> WordChar(c)
  }

  /** Every piece of the list is a word. */
  predicate Words(parts: seq<String>) {
    forall k :: 0 <= k < |parts| ==> Word(parts[k])
  }

  // ---------------------------------------------------------------------------
  // Characters of names matched ignoring case
  // ---------------------------------------------------------------------------

  /** Ignoring case, only a word character matches a word character: whitespace,
      separators and digits fold to themselves and to nothing else. */
  lemma SameCharWord(x: char, y: char)
    requires SameChar(x, y, true) && WordChar(y)
    ensures WordChar(x)
  {
  }

  /** A text that an alternative of word characters matches whole is made of word
      characters. */
  lemma {:induction false} MatchWordChars(t: String, w: String)
    requires StartsWith(t, w, true) && |t| == |w|
    requires forall y :: y in w ==> WordChar(y)
    ensures forall x :: x in t ==> WordChar(x)
    decreases |w|
  {
    if |w| > 0 {
      assert w[0] in w;
      SameCharWord(t[0], w[0]);
      assert forall y :: y in w[1..] ==> y in w;
      MatchWordChars(t[1..], w[1..]);
      assert t == [t[0]] + t[1..];
    }
  }

  // ---------------------------------------------------------------------------
  // The separator stage on a list of words
  // ---------------------------------------------------------------------------

  /** `/` becomes `, ` between the words of a `/`-separated list. */
  lemma {:induction false} SlashesBecomeCommas(parts: seq<String>)
    requires |parts| > 0 && Words(parts)
    ensures ReplaceAll(Join(parts, "/"), Lit("/"), ", ") == Join(parts, ", ")
  {
    var p := Lit("/");
    var w := parts[0];
    assert Word(w);
    assert NoneStart(w, p) by {
      forall c | c in w
        ensures !CanStart(p, c)
      {
        assert p.alts == ["/"];
      }
    }
    if |parts| == 1 {
      ReplaceAllUntouched(w, p, ", ");
    } else {
      var rest := Join(parts[1..], "/");
      var tail := "/" + rest;
      assert Join(parts, "/") == w + tail;
      ReplaceAllSkip(w, tail, p, ", ");
      StartsWithSelf("/", rest, false);
      MatchLenAt(p, tail, 0);
      ReplaceAllHit(tail, 1, p, ", ");
      assert tail[1..] == rest;
      SlashesBecomeCommas(parts[1..]);
      assert Join(parts, ", ") == w + (", " + Join(parts[1..], ", "));
    }
  }

  /** In a `, `-separated list of words, the second character is never a space. */
  lemma JoinSecondNotSpace(parts: seq<String>)
    requires |parts| > 0 && Words(parts)
    ensures |Join(parts, ", ")| > 1 ==> Join(parts, ", ")[1] != ' '
  {
    var w := parts[0];
    assert Word(w);
    if |w| > 1 {
      assert w[1] in w;
      if |parts| > 1 {
        assert Join(parts, ", ")[1] == w[1];
      }
    } else if |parts| > 1 {
      assert Join(parts, ", ")[1] == ',';
    }
  }

  /** ` e ` never occurs in a `, `-separated list of words: every space there follows a
      comma and precedes a word. */
  lemma {:induction false} NoConjunction(parts: seq<String>)
    requires |parts| > 0 && Words(parts)
    ensures ReplaceAll(Join(parts, ", "), LitCI(" e "), ", ") == Join(parts, ", ")
  {
    var p := LitCI(" e ");
    var w := parts[0];
    assert Word(w);
    assert NoneStart(w, p) by {
      forall c | c in w
        ensures !CanStart(p, c)
      {
        FoldOnlyItself(c, ' ');
        assert p.alts == [" e "];
      }
    }
    if |parts| == 1 {
      ReplaceAllUntouched(w, p, ", ");
    } else {
      var rest := Join(parts[1..], ", ");
      var tail := " " + rest;
      assert Join(parts, ", ") == w + [','] + tail;
      assert Barrier(p, ',') by {
        forall y, x | y in p.alts && x in y
          ensures !SameChar(',', x, true)
        {
          assert p.alts == [" e "];
          FoldOnlyItself(x, ',');
        }
      }
      ReplaceAllBarrier(w, ',', tail, p, ", ");
      ReplaceAllUntouched(w, p, ", ");
      JoinSecondNotSpace(parts[1..]);
      MismatchAt(tail, " e ", true, 2) by {
        if 2 < |tail| {
          assert tail[2] == rest[1];
          FoldOnlyItself(tail[2], ' ');
        }
      }
      MatchLenNone(p, tail);
      ReplaceAllMiss(tail, p, ", ");
      assert tail[..1] == " " && tail[1..] == rest;
      NoConjunction(parts[1..]);
    }
  }

  /** A comma followed by one space and then a word character starts no `,\s*,`. */
  lemma CommaSpaceWordMisses(rest: String)
    requires |rest| > 0 && WordChar(rest[0])
    ensures MatchLen(CommaRun, ", " + rest).None?
  {
    var t := ", " + rest;
    assert t[1..] == " " + rest;
    assert LeadingSpaces(rest) == 0;
    assert LeadingSpaces(t[1..]) == 1;
    assert t[2] == rest[0];
  }

  /** `, ` before a word is copied by the `,\s*,` replacement. */
  lemma CommaSpaceWordCopied(rest: String)
    requires |rest| > 0 && WordChar(rest[0])
    ensures ReplaceAll(", " + rest, CommaRun, ",") == ", " + ReplaceAll(rest, CommaRun, ",")
  {
    var tail := ", " + rest;
    CommaSpaceWordMisses(rest);
    ReplaceAllMiss(tail, CommaRun, ",");
    assert tail[..1] == "," && tail[1..] == " " + rest;
    assert NoneStart(" ", CommaRun);
    ReplaceAllSkip(" ", rest, CommaRun, ",");
  }

  /** `,\s*,` never occurs in a `, `-separated list of words. */
  lemma {:induction false} NoCommaRun(parts: seq<String>)
    requires |parts| > 0 && Words(parts)
    ensures ReplaceAll(Join(parts, ", "), CommaRun, ",") == Join(parts, ", ")
  {
    var w := parts[0];
    assert Word(w);
    assert NoneStart(w, CommaRun);
    if |parts| == 1 {
      ReplaceAllUntouched(w, CommaRun, ",");
    } else {
      var rest := Join(parts[1..], ", ");
      assert Join(parts, ", ") == w + (", " + rest);
      ReplaceAllSkip(w, ", " + rest, CommaRun, ",");
      assert Word(parts[1]) && parts[1][0] in parts[1];
      JoinHead(parts[1..], ", ");
      CommaSpaceWordCopied(rest);
      NoCommaRun(parts[1..]);
    }
  }

  /** Every whitespace run of a `, `-separated list of words is a single space. */
  lemma {:induction false} SingleSpaces(parts: seq<String>)
    requires |parts| > 0 && Words(parts)
    ensures ReplaceAll(Join(parts, ", "), SpaceRun, " ") == Join(parts, ", ")
  {
    var w := parts[0];
    assert Word(w);
    if |parts| == 1 {
      assert NoneStart(w, SpaceRun);
      ReplaceAllUntouched(w, SpaceRun, " ");
    } else {
      var rest := Join(parts[1..], ", ");
      var tail := " " + rest;
      assert Join(parts, ", ") == (w + ",") + tail;
      assert NoneStart(w + ",", SpaceRun);
      ReplaceAllSkip(w + ",", tail, SpaceRun, " ");
      assert Word(parts[1]);
      assert parts[1][0] in parts[1];
      JoinHead(parts[1..], ", ");
      assert tail[1..] == rest;
      assert LeadingSpaces(tail) == 1;
      ReplaceAllHit(tail, 1, SpaceRun, " ");
      SingleSpaces(parts[1..]);
    }
  }

  /** A `, `-separated list of words has no whitespace at either end. */
  lemma JoinTrimmed(parts: seq<String>)
    requires |parts| > 0 && Words(parts)
    ensures Trim(Join(parts, ", ")) == Join(parts, ", ")
  {
    var first := parts[0];
    var last := parts[|parts| - 1];
    assert Word(first) && Word(last);
    assert first[0] in first && last[|last| - 1] in last;
    JoinHead(parts, ", ");
    JoinLast(parts, ", ");
    TrimUnchanged(Join(parts, ", "));
  }

  /** The separator stage turns a `/`-separated list of words into a `, `-separated
      one. */
  lemma SeparatorsOnSlashList(parts: seq<String>)
    requires |parts| > 0 && Words(parts)
    ensures NormalizeSeparators(Join(parts, "/")) == Join(parts, ", ")
  {
    SeparatorSteps(Join(parts, "/"));
    SlashesBecomeCommas(parts);
    NoConjunction(parts);
    NoCommaRun(parts);
    SingleSpaces(parts);
    JoinTrimmed(parts);
  }

  // ---------------------------------------------------------------------------
  // Characters of joined word lists
  // ---------------------------------------------------------------------------

  /** A `/`-separated list of words holds neither whitespace nor a digit. */
  lemma SlashListChars(parts: seq<String>)
    requires Words(parts)
    ensures forall c :: c in Join(parts, "/") ==> !IsSpace(c) && !('0' <= c <= '9')
  {
    forall c | IsSpace(c) || '0' <= c <= '9'
      ensures c !in Join(parts, "/")
    {
      forall k | 0 <= k < |parts|
        ensures c !in parts[k]
      {
        assert Word(parts[k]);
      }
      JoinCharOut(parts, "/", c);
    }
  }

  /** The abbreviations are words. */
  lemma AbbreviationsAreWords()
    ensures forall k :: 0 <= k < |Abbreviations| ==> Word(Abbreviations[k])
  {
  }

  // ---------------------------------------------------------------------------
  // The shift stage on an unmarked list
  // ---------------------------------------------------------------------------

  /** A text without whitespace carries no shift and passes the first stage unchanged. */
  lemma StripShiftKeepsUnspaced(days: String)
    requires forall c :: c in days ==> !IsSpace(c)
    ensures StripShift(days) == days
  {
    ShiftPatternsNeedSpace(days);
    ApplyUntouched(days, StripShiftRules);
    if |days| > 0 {
      assert days[0] in days && days[|days| - 1] in days;
    }
    TrimUnchanged(days);
  }

  // ---------------------------------------------------------------------------
  // The weekday stage on a list
  // ---------------------------------------------------------------------------

  /** No full-name rule holds an ASCII character other than a letter or `-`. */
  lemma FullRulesBarrier(c: char)
    requires c as int < 128 && !('a' <= c <= 'z') && !('A' <= c <= 'Z') && c != '-'
    ensures forall k :: 0 <= k < |FullDayRules| ==> Barrier(FullDayRules[k].pattern, c)
  {
    forall k, w, x | 0 <= k < |FullDayRules| && w in FullDayRules[k].pattern.alts && x in w
      ensures !SameChar(c, x, true)
    {
      FoldOnlyItself(x, c);
    }
  }

  /** No three-letter rule holds an ASCII character other than a letter. */
  lemma ShortRulesBarrier(c: char)
    requires c as int < 128 && !('a' <= c <= 'z') && !('A' <= c <= 'Z')
    ensures forall k :: 0 <= k < |ShortDayRules| ==> Barrier(ShortDayRules[k].pattern, c)
  {
    forall k, w, x | 0 <= k < |ShortDayRules| && w in ShortDayRules[k].pattern.alts && x in w
      ensures !SameChar(c, x, true)
    {
      FoldOnlyItself(x, c);
    }
  }

  /** No weekday rule holds an ASCII character other than a letter or `-`. */
  lemma DayRulesBarrier(c: char)
    requires c as int < 128 && !('a' <= c <= 'z') && !('A' <= c <= 'Z') && c != '-'
    ensures forall k :: 0 <= k < |DayNameRules| ==> Barrier(DayNameRules[k].pattern, c)
  {
    FullRulesBarrier(c);
    ShortRulesBarrier(c);
    forall k | 0 <= k < |DayNameRules|
      ensures DayNameRules[k] == if k < |FullDayRules| then FullDayRules[k] else ShortDayRules[k - |FullDayRules|]
    {
    }
  }

  /** The weekday abbreviation of every piece of a list. */
  function AbbreviateEach(parts: seq<String>): seq<String> {
    seq(|parts|, i requires 0 <= i < |parts| => AbbreviateDays(parts[i]))
  }

  /** The weekday stage works on each piece of a list separated by such a character. */
  lemma DaysOfList(parts: seq<String>, c: char)
    requires c as int < 128 && !('a' <= c <= 'z') && !('A' <= c <= 'Z') && c != '-'
    ensures AbbreviateDays(Join(parts, [c])) == Join(AbbreviateEach(parts), [c])
  {
    DayRulesBarrier(c);
    ApplyJoin(parts, c, DayNameRules);
    assert AbbreviateEach(parts) == seq(|parts|, i requires 0 <= i < |parts| => Apply(parts[i], DayNameRules));
  }

  // ---------------------------------------------------------------------------
  // The ordinal stage on a text without digits
  // ---------------------------------------------------------------------------

  /** Every ordinal rule begins with a digit. */
  lemma OrdinalRulesStartWithDigit(c: char)
    requires !('0' <= c <= '9')
    ensures forall k :: 0 <= k < |OrdinalRules| ==> !CanStart(OrdinalRules[k].pattern, c)
  {
    assert forall k :: 0 <= k < |OrdinalRules| ==> OrdinalRules[k].pattern.alts == [[OrdinalRules[k].pattern.alts[0][0], Ordinal]];
  }

  /** A text without digits passes the ordinal stage unchanged. */
  lemma OrdinalsAbsent(s: String)
    requires forall c :: c in s ==> !('0' <= c <= '9')
    ensures ReplaceOrdinals(s) == s
  {
    forall k | 0 <= k < |OrdinalRules|
      ensures NoneStart(s, OrdinalRules[k].pattern)
    {
      forall c | c in s
        ensures !CanStart(OrdinalRules[k].pattern, c)
      {
        OrdinalRulesStartWithDigit(c);
      }
    }
    ApplyUntouched(s, OrdinalRules);
  }

  // ---------------------------------------------------------------------------
  // The whole of formatarFrequencia on a list of weekday names
  // ---------------------------------------------------------------------------

  /** A list of weekday words that the weekday stage turns into abbreviations. */
  predicate DayWords(parts: seq<String>) {
    && |parts| > 0 && Words(parts)
    && forall k :: 0 <= k < |parts| ==> AbbreviateDays(parts[k]) in Abbreviations
  }

  /** The last three stages on a `/`-separated list of weekday words: the `, `-separated
      list of their abbreviations. */
  lemma DaysToCommaList(parts: seq<String>)
    requires DayWords(parts)
    ensures NormalizeSeparators(ReplaceOrdinals(AbbreviateDays(Join(parts, "/"))))
            == Join(AbbreviateEach(parts), ", ")
  {
    var abbrevs := AbbreviateEach(parts);
    DaysOfList(parts, '/');
    AbbreviationsAreWords();
    assert Words(abbrevs) by {
      forall k | 0 <= k < |abbrevs|
        ensures Word(abbrevs[k])
      {
        var j :| 0 <= j < |Abbreviations| && Abbreviations[j] == abbrevs[k];
      }
    }
    SlashListChars(abbrevs);
    OrdinalsAbsent(Join(abbrevs, "/"));
    SeparatorsOnSlashList(abbrevs);
  }

  /** `formatarFrequencia` of a `/`-separated list of weekday names with no shift. */
  lemma FormatsDayList(parts: seq<String>)
    requires DayWords(parts)
    ensures FormatarFrequencia(Some(Join(parts, "/"))) == Join(AbbreviateEach(parts), ", ")
  {
    assert Word(parts[0]);
    JoinHead(parts, "/");
    SlashListChars(parts);
    StripShiftKeepsUnspaced(Join(parts, "/"));
    DaysToCommaList(parts);
  }

  /** `formatarFrequencia` of a `/`-separated list of weekday names followed by a shift,
      after a space or after ` - `: the shift is dropped and the names become a
      `, `-separated list of abbreviations. */
  lemma FormatsDayListWithShift(parts: seq<String>, sep: String, shift: String)
    requires DayWords(parts)
    requires shift in ShiftNames && (sep == " " || sep == " - ")
    ensures FormatarFrequencia(Some(Join(parts, "/") + sep + shift)) == Join(AbbreviateEach(parts), ", ")
  {
    SlashListChars(parts);
    StripShiftRemovesShift(Join(parts, "/"), sep, shift);
    DaysToCommaList(parts);
  }

  /** A list of words each of which the weekday stage turns into the abbreviation at the
      matching position of `ks` is a list of weekday words with those abbreviations. */
  lemma DayWordsOf(parts: seq<String>, ks: seq<nat>)
    requires |parts| == |ks| > 0 && Words(parts)
    requires forall i :: 0 <= i < |ks| ==> ks[i] < |Abbreviations| && AbbreviateDays(parts[i]) == Abbreviations[ks[i]]
    ensures DayWords(parts)
    ensures AbbreviateEach(parts) == seq(|ks|, i requires 0 <= i < |ks| => Abbreviations[ks[i]])
  {
  }

  /** The characters of every full weekday name are word characters. */
  lemma FullNameChars(k: nat)
    requires k < |FullDayRules| && FullDayRules[k].pattern.Literals? && |FullDayRules[k].pattern.alts| == 1
    ensures forall y :: y in Alt(FullDayRules, k) ==> WordChar(y)
  {
  }

  /** Every full weekday name, in any letter case, is a weekday word: it is made of word
      characters and the weekday stage turns it into its abbreviation. */
  lemma FullNameIsDayWord(t: String, k: nat)
    requires k < |FullDayRules| && FullDayRules[k].pattern.Literals? && |FullDayRules[k].pattern.alts| == 1
    requires |t| == |Alt(FullDayRules, k)| && StartsWith(t, Alt(FullDayRules, k), true)
    ensures DayWords([t]) && AbbreviateEach([t]) == [FullDayRules[k].repl]
  {
    FullNameAbbreviated(t, k);
    FullNameChars(k);
    MatchWordChars(t, Alt(FullDayRules, k));
    FullDayFacts();
  }
}
