/**
 The string primitives the formatters of `js/app.js` rely on, stated over `seq<char>`:
 ECMAScript case mapping and whitespace, a matcher for the few regular expressions the
 formatters use, global and first-occurrence replacement, `trim`, and `split`/`join`
 on a one-character separator.
 */
module Text {
  import opened Wrappers

  type String = seq<char>

  // ---------------------------------------------------------------------------
  // Characters
  // ---------------------------------------------------------------------------

  /** ECMAScript WhiteSpace and LineTerminator: exactly the characters matched by the
      regular-expression class `\s` and removed by `String.prototype.trim`. */
  predicate IsSpace(c: char) {
    || c == '\t' || c == '\n' || c == '\U{000B}' || c == '\U{000C}' || c == '\r' || c == ' '
    || c == '\U{00A0}' || c == '\U{1680}' || ('\U{2000}' <= c <= '\U{200A}')
    || c == '\U{2028}' || c == '\U{2029}' || c == '\U{202F}' || c == '\U{205F}'
    || c == '\U{3000}' || c == '\U{FEFF}'
  }

  /** `toUpperCase` on one character, over ASCII, Latin-1 and the two letters outside
      Latin-1 whose upper case is ASCII (dotless i and long s). */
  function UpperChar(c: char): char {
    if 'a' <= c <= 'z' then (c as int - 32) as char
    else if '\U{00E0}' <= c <= '\U{00FE}' && c != '\U{00F7}' then (c as int - 32) as char
    else if c == '\U{00FF}' then '\U{0178}'
    else if c == '\U{00B5}' then '\U{039C}'
    else if c == '\U{0131}' then 'I'
    else if c == '\U{017F}' then 'S'
    else c
  }

  /** The case fold of an ignore-case regular expression without the `u` flag
      (ECMAScript `Canonicalize`): the upper case of a character, except that a
      non-ASCII character is never folded onto an ASCII one. `FoldCanonicalizes` states
      that relation; the definition lists the cases directly. */
  function Fold(c: char): char {
    if c < 'a' then c
    else if c <= 'z' then (c as int - 32) as char
    else if '\U{00E0}' <= c <= '\U{00FE}' && c != '\U{00F7}' then (c as int - 32) as char
    else if c == '\U{00FF}' then '\U{0178}'
    else if c == '\U{00B5}' then '\U{039C}'
    else c
  }

  lemma FoldCanonicalizes(c: char)
    ensures Fold(c) == if c as int >= 128 && UpperChar(c) as int < 128 then c else UpperChar(c)
  {
  }

  /** `String.prototype.toUpperCase`, one character at a time. */
  function Upper(s: String): String {
    seq(|s|, i requires 0 <= i < |s| => UpperChar(s[i]))
  }

  /** Character equality, case-insensitive when `ci`. */
  predicate SameChar(c: char, d: char, ci: bool) {
    if ci then Fold(c) == Fold(d) else c == d
  }

  /** `s` begins with `pat`, compared with `SameChar`. */
  predicate StartsWith(s: String, pat: String, ci: bool)
  {
    |pat| == 0 || (|s| > 0 && SameChar(s[0], pat[0], ci) && StartsWith(s[1..], pat[1..], ci))
  }

  /** An ASCII character that is not a letter matches, ignoring case, only itself. */
  lemma FoldOnlyItself(c: char, d: char)
    requires d as int < 128 && !('a' <= d <= 'z') && !('A' <= d <= 'Z')
    ensures SameChar(c, d, true) <==> c == d
  {
  }

  /** A text begins with each of its prefixes. */
  lemma {:induction false} StartsWithSelf(w: String, rest: String, ci: bool)
    ensures StartsWith(w + rest, w, ci)
    decreases |w|
  {
    if |w| > 0 {
      assert (w + rest)[1..] == w[1..] + rest;
      StartsWithSelf(w[1..], rest, ci);
    }
  }

  /** A text begins with `w` when it agrees with `w` character by character. */
  lemma {:induction false} StartsWithByChars(s: String, w: String, ci: bool)
    requires |w| <= |s| && forall i :: 0 <= i < |w| ==> SameChar(s[i], w[i], ci)
    ensures StartsWith(s, w, ci)
    decreases |w|
  {
    if |w| > 0 {
      forall i | 0 <= i < |w[1..]|
        ensures SameChar(s[1..][i], w[1..][i], ci)
      {
        assert s[1..][i] == s[i + 1] && w[1..][i] == w[i + 1];
      }
      StartsWithByChars(s[1..], w[1..], ci);
    }
  }

  /** A text that differs from `w` at some position of `w` does not begin with it. */
  lemma {:induction false} MismatchAt(s: String, w: String, ci: bool, i: nat)
    requires i < |w| && (i < |s| ==> !SameChar(s[i], w[i], ci))
    ensures !StartsWith(s, w, ci)
    decreases i
  {
    if i > 0 && |s| > 0 {
      MismatchAt(s[1..], w[1..], ci, i - 1);
    }
  }

  /** Texts that begin with the same `u`, ignoring case, begin with the same shorter
      alternatives. */
  lemma {:induction false} StartsWithTransfer(t: String, u: String, w: String)
    requires StartsWith(t, u, true) && |w| <= |u|
    ensures StartsWith(t, w, true) <==> StartsWith(u, w, true)
    decreases |w|
  {
    if |w| > 0 {
      StartsWithTransfer(t[1..], u[1..], w[1..]);
    }
  }

  /** A character that matches no character of `w` does not occur in a text of the same
      length that `w` matches. */
  lemma {:induction false} CharOutsideMatch(t: String, w: String, ci: bool, c: char)
    requires StartsWith(t, w, ci) && |t| == |w|
    requires forall y :: y in w ==> !SameChar(c, y, ci)
    ensures c !in t
    decreases |w|
  {
    if |w| > 0 {
      assert w[0] in w;
      assert forall y :: y in w[1..] ==> y in w;
      CharOutsideMatch(t[1..], w[1..], ci, c);
      assert t == [t[0]] + t[1..];
    }
  }

  // ---------------------------------------------------------------------------
  // Whitespace runs
  // ---------------------------------------------------------------------------

  /** Length of the maximal run of whitespace at the start of `s`. */
  function LeadingSpaces(s: String): (n: nat)
    ensures n <= |s|
    ensures forall k :: 0 <= k < n ==> IsSpace(s[k])
    ensures n < |s| ==> !IsSpace(s[n])
  {
    if |s| > 0 && IsSpace(s[0]) then 1 + LeadingSpaces(s[1..]) else 0
  }

  /** Length of the maximal run of whitespace at the end of `s`. */
  function TrailingSpaces(s: String): (m: nat)
    ensures m <= |s|
    ensures forall k :: |s| - m <= k < |s| ==> IsSpace(s[k])
    ensures m < |s| ==> !IsSpace(s[|s| - 1 - m])
  {
    if |s| > 0 && IsSpace(s[|s| - 1]) then 1 + TrailingSpaces(s[..|s| - 1]) else 0
  }

  /** `String.prototype.trim`: drops the leading and the trailing whitespace run and
      keeps everything in between. */
  function Trim(s: String): (r: String)
    ensures |r| > 0 ==> !IsSpace(r[0]) && !IsSpace(r[|r| - 1])
    ensures LeadingSpaces(s) + |r| <= |s|
    ensures r == s[LeadingSpaces(s)..LeadingSpaces(s) + |r|]
    ensures forall k :: LeadingSpaces(s) + |r| <= k < |s| ==> IsSpace(s[k])
  {
    var t := s[LeadingSpaces(s)..];
    t[..|t| - TrailingSpaces(t)]
  }

  /** A text with no whitespace at either end is its own trim. */
  lemma TrimUnchanged(s: String)
    requires |s| > 0 ==> !IsSpace(s[0]) && !IsSpace(s[|s| - 1])
    ensures Trim(s) == s
  {
  }

  // ---------------------------------------------------------------------------
  // Patterns
  // ---------------------------------------------------------------------------

  /** The regular expressions the formatters use. */
  datatype Pattern =
    | Literals(alts: seq<String>, ci: bool)  // `(A|B|...)`, alternatives tried in order; `i` flag when `ci`
    | SpaceRun                                // `\s+`
    | CommaRun                                // `,\s*,`

  /** Literal alternatives are non-empty, so every match consumes input. */
  predicate WellFormed(p: Pattern) {
    p.Literals? ==> forall k :: 0 <= k < |p.alts| ==> |p.alts[k]| > 0
  }

  /** The first alternative `s` begins with. */
  function FirstAlt(s: String, alts: seq<String>, ci: bool): (r: Option<nat>)
    ensures r.Some? ==> r.value < |alts| && StartsWith(s, alts[r.value], ci)
    ensures r.Some? ==> forall k :: 0 <= k < r.value ==> !StartsWith(s, alts[k], ci)
    ensures r.None? ==> forall k :: 0 <= k < |alts| ==> !StartsWith(s, alts[k], ci)
  {
    if |alts| == 0 then None
    else if StartsWith(s, alts[0], ci) then Some(0)
    else match FirstAlt(s, alts[1..], ci)
      case Some(k) => Some(k + 1)
      case None => None
  }

  /** Length of the match of `p` anchored at the start of `s`, if there is one.
      `\s+` and `\s*` are greedy; since `\s*` is followed by a non-space, backtracking
      never finds a shorter match where the greedy one failed. */
  function MatchLen(p: Pattern, s: String): (r: Option<nat>)
    requires WellFormed(p)
    ensures r.Some? ==> 0 < r.value <= |s|
    ensures p.SpaceRun? ==> (r.Some? <==> |s| > 0 && IsSpace(s[0]))
    ensures p.SpaceRun? && r.Some? ==> r.value < |s| ==> !IsSpace(s[r.value])
  {
    match p
    case Literals(alts, ci) =>
      (match FirstAlt(s, alts, ci)
       case Some(k) => StartsWithLength(s, alts[k], ci); Some(|alts[k]|)
       case None => None)
    case SpaceRun =>
      var n := LeadingSpaces(s);
      if n > 0 then Some(n) else None
    case CommaRun =>
      if |s| > 0 && s[0] == ',' then
        var n := LeadingSpaces(s[1..]);
        if 1 + n < |s| && s[1 + n] == ',' then Some(n + 2) else None
      else None
  }

  /** A literal, case-sensitive pattern. */
  function Lit(pat: String): Pattern {
    Literals([pat], false)
  }

  /** An ignore-case literal pattern. */
  function LitCI(pat: String): Pattern {
    Literals([pat], true)
  }

  /** Alternatives are tried in order: the one that matches is the first that starts `s`. */
  lemma MatchLenAt(p: Pattern, s: String, k: nat)
    requires WellFormed(p) && p.Literals? && k < |p.alts| && StartsWith(s, p.alts[k], p.ci)
    requires forall j :: 0 <= j < k ==> !StartsWith(s, p.alts[j], p.ci)
    ensures MatchLen(p, s) == Some(|p.alts[k]|)
  {
    var r := FirstAlt(s, p.alts, p.ci);
    assert r.Some? && r.value == k;
  }

  /** Where no alternative starts the text, there is no match. */
  lemma MatchLenNone(p: Pattern, s: String)
    requires WellFormed(p) && p.Literals?
    requires forall k :: 0 <= k < |p.alts| ==> !StartsWith(s, p.alts[k], p.ci)
    ensures MatchLen(p, s).None?
  {
    var r := FirstAlt(s, p.alts, p.ci);
    assert r.None?;
  }

  // ---------------------------------------------------------------------------
  // Replacement and search
  // ---------------------------------------------------------------------------

  /** `s.replace(/p/g, repl)`: scanning left to right, every match of `p` is replaced by
      `repl` and the scan resumes after it; a position with no match is copied. */
  function ReplaceAll(s: String, p: Pattern, repl: String): (r: String)
    requires WellFormed(p)
    decreases |s|
  {
    if |s| == 0 then []
    else match MatchLen(p, s)
      case Some(n) => repl + ReplaceAll(s[n..], p, repl)
      case None => [s[0]] + ReplaceAll(s[1..], p, repl)
  }

  /** Leftmost position at or after `from` where `p` matches. */
  function FindFrom(s: String, p: Pattern, from: nat): (r: Option<nat>)
    requires WellFormed(p)
    requires from <= |s|
    ensures r.Some? ==> from <= r.value < |s| && MatchLen(p, s[r.value..]).Some?
    ensures r.Some? ==> forall i :: from <= i < r.value ==> MatchLen(p, s[i..]).None?
    ensures r.None? ==> forall i :: from <= i < |s| ==> MatchLen(p, s[i..]).None?
    decreases |s| - from
  {
    if from == |s| then None
    else if MatchLen(p, s[from..]).Some? then Some(from)
    else FindFrom(s, p, from + 1)
  }

  /** Leftmost position where `p` matches (`String.prototype.search`). */
  function Find(s: String, p: Pattern): Option<nat>
    requires WellFormed(p)
  {
    FindFrom(s, p, 0)
  }

  /** `s.replace(p, repl)` without the global flag: only the leftmost match is replaced. */
  function ReplaceFirst(s: String, p: Pattern, repl: String): (r: String)
    requires WellFormed(p)
    ensures Find(s, p).None? ==> r == s
  {
    match Find(s, p)
    case None => s
    case Some(i) => s[..i] + repl + s[i + MatchLen(p, s[i..]).value..]
  }

  /** The matched text of a literal is as long as the literal. */
  lemma LiteralMatchLength(s: String, w: String, ci: bool)
    requires |w| > 0
    ensures MatchLen(Literals([w], ci), s).Some? ==> MatchLen(Literals([w], ci), s) == Some(|w|)
  {
  }

  /** `ReplaceFirst` of a literal: the text before the leftmost occurrence and the text
      after it are kept, and only that occurrence becomes `repl`. */
  lemma ReplaceFirstLiteral(s: String, w: String, ci: bool, repl: String)
    requires |w| > 0
    ensures var p := Literals([w], ci);
            match Find(s, p)
            case None => ReplaceFirst(s, p, repl) == s
            case Some(i) =>
              && i + |w| <= |s|
              && StartsWith(s[i..], w, ci)
              && (forall j :: 0 <= j < i ==> !StartsWith(s[j..], w, ci))
              && ReplaceFirst(s, p, repl) == s[..i] + repl + s[i + |w|..]
  {
    var p := Literals([w], ci);
    match Find(s, p)
    case None =>
    case Some(i) =>
      LiteralMatchLength(s[i..], w, ci);
      forall j | 0 <= j < i
        ensures !StartsWith(s[j..], w, ci)
      {
        assert MatchLen(p, s[j..]).None?;
      }
  }

  /** Replacing one occurrence of a literal by a text of the same length keeps the
      length. */
  lemma ReplaceFirstSameLength(s: String, w: String, ci: bool, repl: String)
    requires |w| > 0 && |repl| == |w|
    ensures |ReplaceFirst(s, Literals([w], ci), repl)| == |s|
  {
    ReplaceFirstLiteral(s, w, ci, repl);
  }

  /** A literal longer than the text is never replaced. */
  lemma ReplaceFirstShort(s: String, w: String, ci: bool, repl: String)
    requires |s| < |w|
    ensures ReplaceFirst(s, Literals([w], ci), repl) == s
  {
    ReplaceFirstLiteral(s, w, ci, repl);
  }

  /** A text begins with an alternative exactly when its prefix of that length does. */
  lemma {:induction false} StartsWithPrefix(s: String, w: String, ci: bool)
    requires StartsWith(s, w, ci)
    ensures |w| <= |s| && StartsWith(s[..|w|], w, ci)
    decreases |w|
  {
    if |w| > 0 {
      StartsWithPrefix(s[1..], w[1..], ci);
      assert s[..|w|][1..] == s[1..][..|w| - 1];
    }
  }

  /** Only `c` and `C` fold to an upper-case ASCII letter `C`, and both upper-case to it. */
  lemma UpperOfFoldMatch(c: char, d: char)
    requires SameChar(c, d, true) && 'A' <= d <= 'Z'
    ensures UpperChar(c) == d
  {
  }

  /** A text that an upper-case ASCII word matches, ignoring case, upper-cases to that
      word. */
  lemma {:induction false} UpperOfMatch(t: String, w: String)
    requires StartsWith(t, w, true) && |t| == |w|
    requires forall i :: 0 <= i < |w| ==> 'A' <= w[i] <= 'Z'
    ensures Upper(t) == w
    decreases |w|
  {
    if |w| > 0 {
      UpperOfFoldMatch(t[0], w[0]);
      UpperOfMatch(t[1..], w[1..]);
      assert Upper(t) == [UpperChar(t[0])] + Upper(t[1..]);
    }
  }

  // ---------------------------------------------------------------------------
  // Evaluating a replacement piece by piece
  // ---------------------------------------------------------------------------

  /** A match of `p` can begin with the character `c`. */
  predicate CanStart(p: Pattern, c: char) {
    match p
    case Literals(alts, ci) => exists a :: a in alts && |a| > 0 && SameChar(c, a[0], ci)
    case SpaceRun => IsSpace(c)
    case CommaRun => c == ','
  }

  /** No character of `s` can begin a match of `p`. */
  predicate NoneStart(s: String, p: Pattern) {
    forall c :: c in s ==> !CanStart(p, c)
  }

  /** A text that starts with `pat` is at least as long as `pat`. */
  lemma {:induction false} StartsWithLength(s: String, pat: String, ci: bool)
    requires StartsWith(s, pat, ci)
    ensures |pat| <= |s|
    decreases |pat|
  {
    if |pat| > 0 {
      StartsWithLength(s[1..], pat[1..], ci);
    }
  }

  /** A match needs a first character that can begin it. */
  lemma NoStartNoMatch(p: Pattern, s: String)
    requires WellFormed(p) && |s| > 0 && !CanStart(p, s[0])
    ensures MatchLen(p, s).None?
  {
    if p.Literals? {
      forall k | 0 <= k < |p.alts|
        ensures !StartsWith(s, p.alts[k], p.ci)
      {
        assert p.alts[k] in p.alts;
      }
    }
  }

  /** A prefix none of whose characters can begin a match is copied unchanged. */
  lemma {:induction false} ReplaceAllSkip(a: String, b: String, p: Pattern, repl: String)
    requires WellFormed(p) && NoneStart(a, p)
    ensures ReplaceAll(a + b, p, repl) == a + ReplaceAll(b, p, repl)
    decreases |a|
  {
    if |a| > 0 {
      var s := a + b;
      assert s[0] == a[0] && a[0] in a;
      NoStartNoMatch(p, s);
      ReplaceAllMiss(s, p, repl);
      assert s[..1] == a[..1];
      assert s[1..] == a[1..] + b;
      assert forall c :: c in a[1..] ==> c in a;
      ReplaceAllSkip(a[1..], b, p, repl);
      assert a + ReplaceAll(b, p, repl) == a[..1] + (a[1..] + ReplaceAll(b, p, repl));
    } else {
      assert a + b == b;
      assert a + ReplaceAll(b, p, repl) == ReplaceAll(b, p, repl);
    }
  }

  /** A text none of whose characters can begin a match is left unchanged. */
  lemma ReplaceAllUntouched(s: String, p: Pattern, repl: String)
    requires WellFormed(p) && NoneStart(s, p)
    ensures ReplaceAll(s, p, repl) == s
  {
    ReplaceAllSkip(s, [], p, repl);
    assert s + [] == s;
  }

  /** A match at the start is replaced and the scan resumes after it. */
  lemma ReplaceAllHit(s: String, n: nat, p: Pattern, repl: String)
    requires WellFormed(p) && MatchLen(p, s) == Some(n)
    ensures n <= |s|
    ensures ReplaceAll(s, p, repl) == repl + ReplaceAll(s[n..], p, repl)
  {
  }

  /** Without a match at the start the first character is copied. */
  lemma ReplaceAllMiss(s: String, p: Pattern, repl: String)
    requires WellFormed(p) && |s| > 0 && MatchLen(p, s).None?
    ensures ReplaceAll(s, p, repl) == s[..1] + ReplaceAll(s[1..], p, repl)
  {
  }

  /** `p` matches at no position of `s`. */
  predicate NoMatchIn(s: String, p: Pattern)
    requires WellFormed(p)
  {
    forall i :: 0 <= i < |s| ==> MatchLen(p, s[i..]).None?
  }

  /** A global replacement leaves a text in which its pattern never matches unchanged. */
  lemma {:induction false} ReplaceAllNoMatch(s: String, p: Pattern, repl: String)
    requires WellFormed(p) && NoMatchIn(s, p)
    ensures ReplaceAll(s, p, repl) == s
    decreases |s|
  {
    if |s| > 0 {
      assert s[0..] == s;
      ReplaceAllMiss(s, p, repl);
      forall i | 0 <= i < |s[1..]|
        ensures MatchLen(p, s[1..][i..]).None?
      {
        assert s[1..][i..] == s[i + 1..];
      }
      ReplaceAllNoMatch(s[1..], p, repl);
      assert s == s[..1] + s[1..];
    }
  }

  /** An ignore-case literal matches nowhere in `s` when it begins at no position with
      room for it. */
  lemma LiteralAbsent(s: String, w: String)
    requires |w| > 0
    requires forall i :: 0 <= i && i + |w| <= |s| ==> !StartsWith(s[i..], w, true)
    ensures NoMatchIn(s, LitCI(w))
  {
    forall i | 0 <= i < |s|
      ensures MatchLen(LitCI(w), s[i..]).None?
    {
      if StartsWith(s[i..], w, true) {
        StartsWithLength(s[i..], w, true);
      }
      MatchLenNone(LitCI(w), s[i..]);
    }
  }

  /** The suffixes of two texts that agree ignoring case agree too. */
  lemma {:induction false} StartsWithSuffix(t: String, u: String, i: nat)
    requires StartsWith(t, u, true) && i <= |u| && i <= |t|
    ensures StartsWith(t[i..], u[i..], true)
    decreases i
  {
    if i > 0 {
      StartsWithSuffix(t[1..], u[1..], i - 1);
      assert t[1..][i - 1..] == t[i..];
      assert u[1..][i - 1..] == u[i..];
    }
  }

  /** Two texts of the same length that agree ignoring case begin with the same
      alternatives, ignoring case. */
  lemma StartsWithCaseVariant(t: String, u: String, w: String)
    requires StartsWith(t, u, true) && |t| == |u|
    ensures StartsWith(t, w, true) <==> StartsWith(u, w, true)
  {
    if |w| <= |u| {
      StartsWithTransfer(t, u, w);
    } else {
      if StartsWith(t, w, true) {
        StartsWithLength(t, w, true);
      }
      if StartsWith(u, w, true) {
        StartsWithLength(u, w, true);
      }
    }
  }

  /** An ignore-case pattern matches nowhere in a text exactly when it matches nowhere in
      any other spelling of that text in another letter case. */
  lemma CaseVariantNoMatch(t: String, u: String, p: Pattern)
    requires WellFormed(p) && p.Literals? && p.ci
    requires StartsWith(t, u, true) && |t| == |u|
    ensures NoMatchIn(t, p) <==> NoMatchIn(u, p)
  {
    forall i | 0 <= i < |t|
      ensures MatchLen(p, t[i..]) == MatchLen(p, u[i..])
    {
      StartsWithSuffix(t, u, i);
      forall k | 0 <= k < |p.alts|
        ensures StartsWith(t[i..], p.alts[k], true) <==> StartsWith(u[i..], p.alts[k], true)
      {
        StartsWithCaseVariant(t[i..], u[i..], p.alts[k]);
      }
      FirstAltAgree(t[i..], u[i..], p.alts, true);
    }
  }

  /** A text shorter than every literal alternative contains no match. */
  lemma {:induction false} ReplaceAllShort(s: String, p: Pattern, repl: String)
    requires WellFormed(p) && p.Literals?
    requires forall a :: a in p.alts ==> |a| > |s|
    ensures ReplaceAll(s, p, repl) == s
    decreases |s|
  {
    if |s| > 0 {
      match FirstAlt(s, p.alts, p.ci)
      case Some(k) =>
        assert p.alts[k] in p.alts;
        StartsWithLength(s, p.alts[k], p.ci);
      case None =>
        ReplaceAllShort(s[1..], p, repl);
        assert s == [s[0]] + s[1..];
    }
  }

  /** An alternative as long as the text replaces it entirely when it matches and leaves
      it alone otherwise. */
  lemma ReplaceAllSameLength(t: String, p: Pattern, repl: String)
    requires WellFormed(p) && p.Literals? && |p.alts| == 1 && |p.alts[0]| == |t|
    ensures ReplaceAll(t, p, repl) == if StartsWith(t, p.alts[0], p.ci) then repl else t
  {
    if StartsWith(t, p.alts[0], p.ci) {
      assert t[|t|..] == [];
    } else {
      assert p.alts == [p.alts[0]];
      ReplaceAllShort(t[1..], p, repl);
      assert t == t[..1] + t[1..];
    }
  }

  /** `c` is not a character of any literal alternative of `p`, so no match of `p` can
      run across it. */
  predicate Barrier(p: Pattern, c: char) {
    p.Literals? && forall w, x :: w in p.alts && x in w ==> !SameChar(c, x, p.ci)
  }

  /** Across a barrier character, a text begins with an alternative exactly when the part
      before the barrier does. */
  lemma {:induction false} StartsWithBarrier(a: String, c: char, b: String, w: String, ci: bool)
    requires forall x :: x in w ==> !SameChar(c, x, ci)
    ensures StartsWith(a + [c] + b, w, ci) <==> StartsWith(a, w, ci)
    decreases |w|
  {
    var s := a + [c] + b;
    if |w| > 0 {
      assert w[0] in w;
      if |a| > 0 {
        assert s[0] == a[0];
        assert s[1..] == a[1..] + [c] + b;
        assert forall x :: x in w[1..] ==> x in w;
        StartsWithBarrier(a[1..], c, b, w[1..], ci);
      } else {
        assert s[0] == c;
      }
    }
  }

  /** Texts that begin with the same alternatives have the same first alternative. */
  lemma {:induction false} FirstAltAgree(s: String, t: String, alts: seq<String>, ci: bool)
    requires forall k :: 0 <= k < |alts| ==> (StartsWith(s, alts[k], ci) <==> StartsWith(t, alts[k], ci))
    ensures FirstAlt(s, alts, ci) == FirstAlt(t, alts, ci)
    decreases |alts|
  {
    if |alts| > 0 {
      FirstAltAgree(s, t, alts[1..], ci);
    }
  }

  /** Across a barrier character, the match at the start is the match of the part before
      the barrier. */
  lemma BarrierMatchLen(a: String, c: char, b: String, p: Pattern)
    requires WellFormed(p) && Barrier(p, c)
    ensures MatchLen(p, a + [c] + b) == MatchLen(p, a)
  {
    var s := a + [c] + b;
    forall k | 0 <= k < |p.alts|
      ensures StartsWith(s, p.alts[k], p.ci) <==> StartsWith(a, p.alts[k], p.ci)
    {
      assert p.alts[k] in p.alts;
      StartsWithBarrier(a, c, b, p.alts[k], p.ci);
    }
    FirstAltAgree(s, a, p.alts, p.ci);
  }

  /** A global replacement works on each side of a barrier character separately. */
  lemma {:induction false} ReplaceAllBarrier(a: String, c: char, b: String, p: Pattern, repl: String)
    requires WellFormed(p) && Barrier(p, c)
    ensures ReplaceAll(a + [c] + b, p, repl) == ReplaceAll(a, p, repl) + [c] + ReplaceAll(b, p, repl)
    decreases |a|
  {
    var s := a + [c] + b;
    BarrierMatchLen(a, c, b, p);
    if |a| == 0 {
      assert s == [c] + b;
      ReplaceAllMiss(s, p, repl);
      assert s[..1] == [c] && s[1..] == b;
    } else {
      match MatchLen(p, a)
      case Some(n) =>
        ReplaceAllHit(s, n, p, repl);
        ReplaceAllHit(a, n, p, repl);
        assert s[n..] == a[n..] + [c] + b;
        ReplaceAllBarrier(a[n..], c, b, p, repl);
        assert repl + (ReplaceAll(a[n..], p, repl) + [c] + ReplaceAll(b, p, repl))
            == (repl + ReplaceAll(a[n..], p, repl)) + [c] + ReplaceAll(b, p, repl);
      case None =>
        ReplaceAllMiss(s, p, repl);
        ReplaceAllMiss(a, p, repl);
        assert s[..1] == a[..1];
        assert s[1..] == a[1..] + [c] + b;
        ReplaceAllBarrier(a[1..], c, b, p, repl);
        assert a[..1] + (ReplaceAll(a[1..], p, repl) + [c] + ReplaceAll(b, p, repl))
            == (a[..1] + ReplaceAll(a[1..], p, repl)) + [c] + ReplaceAll(b, p, repl);
    }
  }

  // ---------------------------------------------------------------------------
  // Split and join
  // ---------------------------------------------------------------------------

  /** First index of `c` in `s`. */
  function IndexOf(s: String, c: char): (r: Option<nat>)
    ensures r.Some? ==> r.value < |s| && s[r.value] == c && c !in s[..r.value]
    ensures r.None? ==> c !in s
  {
    if |s| == 0 then None
    else if s[0] == c then Some(0)
    else match IndexOf(s[1..], c)
      case Some(i) => assert s[..i + 1] == [s[0]] + s[1..][..i]; Some(i + 1)
      case None => None
  }

  /** `s.split(c)`: the maximal pieces of `s` that do not contain `c`. */
  function Split(s: String, c: char): (r: seq<String>)
    ensures |r| > 0
    ensures forall k :: 0 <= k < |r| ==> c !in r[k]
    decreases |s|
  {
    match IndexOf(s, c)
    case None => [s]
    case Some(i) => [s[..i]] + Split(s[i + 1..], c)
  }

  /** `parts.join(sep)`. */
  function Join(parts: seq<String>, sep: String): String {
    if |parts| == 0 then []
    else if |parts| == 1 then parts[0]
    else parts[0] + sep + Join(parts[1..], sep)
  }

  /** A join of two or more pieces: the first, the separator, the join of the rest. */
  lemma JoinCons(parts: seq<String>, sep: String)
    requires |parts| >= 2
    ensures Join(parts, sep) == parts[0] + sep + Join(parts[1..], sep)
  {
  }

  /** A join begins with the first character of its first piece. */
  lemma JoinHead(parts: seq<String>, sep: String)
    requires |parts| > 0 && |parts[0]| > 0
    ensures |Join(parts, sep)| > 0 && Join(parts, sep)[0] == parts[0][0]
  {
  }

  /** A join ends with the last character of its last piece. */
  lemma {:induction false} JoinLast(parts: seq<String>, sep: String)
    requires |parts| > 0 && |parts[|parts| - 1]| > 0
    ensures var j := Join(parts, sep); var w := parts[|parts| - 1];
            |j| > 0 && j[|j| - 1] == w[|w| - 1]
  {
    if |parts| > 1 {
      JoinLast(parts[1..], sep);
    }
  }

  /** A character in neither the pieces nor the separator is not in the join. */
  lemma {:induction false} JoinCharOut(parts: seq<String>, sep: String, c: char)
    requires c !in sep && forall k :: 0 <= k < |parts| ==> c !in parts[k]
    ensures c !in Join(parts, sep)
  {
    if |parts| > 1 {
      JoinCharOut(parts[1..], sep, c);
    }
  }

  /** Joining the pieces of a split with the same separator gives back the string. */
  lemma {:induction false} JoinSplit(s: String, c: char)
    ensures Join(Split(s, c), [c]) == s
    decreases |s|
  {
    match IndexOf(s, c)
    case None =>
    case Some(i) =>
      JoinSplit(s[i + 1..], c);
      assert s == s[..i] + [c] + s[i + 1..];
  }

  /** Splitting a join of pieces free of the separator gives back the pieces. */
  lemma {:induction false} SplitJoin(parts: seq<String>, c: char)
    requires |parts| > 0
    requires forall k :: 0 <= k < |parts| ==> c !in parts[k]
    ensures Split(Join(parts, [c]), c) == parts
  {
    if |parts| > 1 {
      var s := Join(parts, [c]);
      var n := |parts[0]|;
      assert s == parts[0] + [c] + Join(parts[1..], [c]);
      assert s[..n] == parts[0];
      assert s[n] == c;
      assert IndexOf(s, c) == Some(n);
      assert s[n + 1..] == Join(parts[1..], [c]);
      SplitJoin(parts[1..], c);
    }
  }

  /** `xs.slice(0, n)`: the first `n` elements, or all of them when there are fewer. */
  function Take(xs: seq<String>, n: nat): (r: seq<String>)
    ensures |r| == if n < |xs| then n else |xs|
    ensures r <= xs
  {
    if n < |xs| then xs[..n] else xs
  }

  /** A join begins with its first piece. */
  lemma JoinStartsWithFirst(parts: seq<String>, sep: String)
    requires |parts| > 0
    ensures parts[0] <= Join(parts, sep)
  {
  }

  /** A join ends with its last piece. */
  lemma {:induction false} JoinEndsWithLast(parts: seq<String>, sep: String)
    requires |parts| > 0
    ensures var j := Join(parts, sep); var w := parts[|parts| - 1];
            |w| <= |j| && j[|j| - |w|..] == w
  {
    if |parts| > 1 {
      JoinEndsWithLast(parts[1..], sep);
      var j := Join(parts, sep);
      var t := Join(parts[1..], sep);
      assert j == (parts[0] + sep) + t;
      assert j[|j| - |t|..] == t;
    }
  }

  /** `q` is a prefix of `s` that ends where `s` does or just before a `c`. */
  predicate FieldPrefix(q: String, s: String, c: char) {
    q <= s && (|q| == |s| || s[|q|] == c)
  }

  /** The first `n` fields of a split, joined back, are the part of the text before its
      `n`-th separator, or the whole text when it has fewer. */
  lemma {:induction false} JoinTakeSplit(s: String, c: char, n: nat)
    requires n > 0
    ensures FieldPrefix(Join(Take(Split(s, c), n), [c]), s, c)
    decreases |s|
  {
    match IndexOf(s, c)
    case None =>
    case Some(i) =>
      var head := s[..i];
      var rest := s[i + 1..];
      assert s == head + [c] + rest;
      if n == 1 {
        assert Split(s, c) == [head] + Split(rest, c);
        assert Take(Split(s, c), n) == [head];
      } else {
        JoinTakeSplit(rest, c, n - 1);
        TakeSplitStep(s, c, n, i);
        PrefixStep(s, c, head, rest, Join(Take(Split(rest, c), n - 1), [c]), Join(Take(Split(s, c), n), [c]));
      }
  }

  /** Taking `n > 1` fields of a split: the first field, the separator, and `n - 1`
      fields of the rest. */
  lemma TakeSplitStep(s: String, c: char, n: nat, i: nat)
    requires n > 1 && IndexOf(s, c) == Some(i)
    ensures Join(Take(Split(s, c), n), [c]) == s[..i] + [c] + Join(Take(Split(s[i + 1..], c), n - 1), [c])
  {
    var tail := Take(Split(s[i + 1..], c), n - 1);
    var parts := [s[..i]] + tail;
    assert Take(Split(s, c), n) == parts;
    assert parts[1..] == tail;
  }

  /** A field prefix of the rest stays one behind a common head. */
  lemma PrefixStep(s: String, c: char, head: String, rest: String, qr: String, q: String)
    requires s == head + [c] + rest && q == head + [c] + qr
    requires FieldPrefix(qr, rest, c)
    ensures FieldPrefix(q, s, c)
  {
    if |qr| < |rest| {
      assert s[|q|] == rest[|qr|];
    }
  }

  // ---------------------------------------------------------------------------
  // Adjacent-pair and character preservation under replacement
  // ---------------------------------------------------------------------------

  /** No character of `a` is immediately followed by `b` in `s`. */
  predicate NoPair(s: String, a: set<char>, b: char) {
    forall i :: 0 <= i < |s| - 1 ==> !(s[i] in a && s[i + 1] == b)
  }

  lemma NoPairConcat(x: String, y: String, a: set<char>, b: char)
    requires NoPair(x, a, b) && NoPair(y, a, b)
    requires |x| > 0 && |y| > 0 ==> !(x[|x| - 1] in a && y[0] == b)
    ensures NoPair(x + y, a, b)
  {
    var s := x + y;
    forall i | 0 <= i < |s| - 1
      ensures !(s[i] in a && s[i + 1] == b)
    {
      if i + 1 < |x| {
        assert s[i] == x[i] && s[i + 1] == x[i + 1];
      } else if i >= |x| {
        assert s[i] == y[i - |x|] && s[i + 1] == y[i - |x| + 1];
      }
    }
  }

  lemma NoPairSlice(s: String, lo: nat, hi: nat, a: set<char>, b: char)
    requires lo <= hi <= |s|
    requires NoPair(s, a, b)
    ensures NoPair(s[lo..hi], a, b)
  {
    var t := s[lo..hi];
    forall i | 0 <= i < |t| - 1
      ensures !(t[i] in a && t[i + 1] == b)
    {
      assert t[i] == s[lo + i] && t[i + 1] == s[lo + i + 1];
    }
  }

  /** The first character of a replacement's output: the replacement text where `p`
      matches at the start, the first input character otherwise. */
  lemma ReplaceAllHead(s: String, p: Pattern, repl: String)
    requires WellFormed(p)
    requires |s| > 0 && |repl| > 0
    ensures |ReplaceAll(s, p, repl)| > 0
    ensures ReplaceAll(s, p, repl)[0] == if MatchLen(p, s).Some? then repl[0] else s[0]
  {
  }

  /** Global replacement creates no `a`-then-`b` pair when every such pair of the input
      starts a match, and the replacement text neither contains one nor can form one with
      its neighbours. */
  lemma {:induction false} ReplaceAllNoPair(s: String, p: Pattern, repl: String, a: set<char>, b: char)
    requires WellFormed(p)
    requires |repl| > 0 && repl[0] != b && repl[|repl| - 1] !in a && NoPair(repl, a, b)
    requires forall i :: 0 <= i < |s| - 1 && s[i] in a && s[i + 1] == b ==> MatchLen(p, s[i..]).Some?
    ensures NoPair(ReplaceAll(s, p, repl), a, b)
    decreases |s|
  {
    if |s| > 0 {
      match MatchLen(p, s)
      case Some(n) =>
        var t := s[n..];
        forall i | 0 <= i < |t| - 1 && t[i] in a && t[i + 1] == b
          ensures MatchLen(p, t[i..]).Some?
        {
          assert t[i..] == s[n + i..];
          assert s[n + i] == t[i] && s[n + i + 1] == t[i + 1];
        }
        ReplaceAllNoPair(t, p, repl, a, b);
        NoPairConcat(repl, ReplaceAll(t, p, repl), a, b);
      case None =>
        var t := s[1..];
        forall i | 0 <= i < |t| - 1 && t[i] in a && t[i + 1] == b
          ensures MatchLen(p, t[i..]).Some?
        {
          assert t[i..] == s[1 + i..];
          assert s[1 + i] == t[i] && s[1 + i + 1] == t[i + 1];
        }
        ReplaceAllNoPair(t, p, repl, a, b);
        var rest := ReplaceAll(t, p, repl);
        if |rest| > 0 {
          ReplaceAllHead(t, p, repl);
          assert s[0..] == s;
          assert !(s[0] in a && t[0] == b);
        }
        NoPairConcat([s[0]], rest, a, b);
    }
  }

  /** Global replacement removes every occurrence of `c` when each one starts a match
      and the replacement text does not contain `c`. */
  lemma {:induction false} ReplaceAllRemovesChar(s: String, p: Pattern, repl: String, c: char)
    requires WellFormed(p)
    requires c !in repl
    requires forall i :: 0 <= i < |s| && s[i] == c ==> MatchLen(p, s[i..]).Some?
    ensures c !in ReplaceAll(s, p, repl)
    decreases |s|
  {
    if |s| > 0 {
      match MatchLen(p, s)
      case Some(n) =>
        var t := s[n..];
        forall i | 0 <= i < |t| && t[i] == c
          ensures MatchLen(p, t[i..]).Some?
        {
          assert t[i..] == s[n + i..];
        }
        ReplaceAllRemovesChar(t, p, repl, c);
      case None =>
        var t := s[1..];
        forall i | 0 <= i < |t| && t[i] == c
          ensures MatchLen(p, t[i..]).Some?
        {
          assert t[i..] == s[1 + i..];
        }
        ReplaceAllRemovesChar(t, p, repl, c);
        assert s[0..] == s;
    }
  }

  /** Global replacement introduces no character that is in neither the input nor the
      replacement text. */
  lemma {:induction false} ReplaceAllKeepsCharOut(s: String, p: Pattern, repl: String, c: char)
    requires WellFormed(p)
    requires c !in s && c !in repl
    ensures c !in ReplaceAll(s, p, repl)
    decreases |s|
  {
    if |s| > 0 {
      match MatchLen(p, s)
      case Some(n) =>
        assert c !in s[n..];
        ReplaceAllKeepsCharOut(s[n..], p, repl, c);
      case None =>
        assert c !in s[1..];
        ReplaceAllKeepsCharOut(s[1..], p, repl, c);
    }
  }

  /** Replacing every whitespace run by one space leaves no two whitespace characters
      next to each other. */
  lemma {:induction false} CollapseNoDoubleSpace(s: String)
    ensures NoDoubleSpace(ReplaceAll(s, SpaceRun, " "))
    decreases |s|
  {
    if |s| > 0 {
      match MatchLen(SpaceRun, s)
      case Some(n) =>
        var rest := ReplaceAll(s[n..], SpaceRun, " ");
        CollapseNoDoubleSpace(s[n..]);
        if |rest| > 0 {
          ReplaceAllHead(s[n..], SpaceRun, " ");
        }
        NoDoubleSpaceConcat(" ", rest);
      case None =>
        var rest := ReplaceAll(s[1..], SpaceRun, " ");
        CollapseNoDoubleSpace(s[1..]);
        NoDoubleSpaceConcat([s[0]], rest);
    }
  }

  /** No two whitespace characters are adjacent. */
  predicate NoDoubleSpace(s: String) {
    forall i :: 0 <= i < |s| - 1 ==> !(IsSpace(s[i]) && IsSpace(s[i + 1]))
  }

  lemma NoDoubleSpaceConcat(x: String, y: String)
    requires NoDoubleSpace(x) && NoDoubleSpace(y)
    requires |x| > 0 && |y| > 0 ==> !(IsSpace(x[|x| - 1]) && IsSpace(y[0]))
    ensures NoDoubleSpace(x + y)
  {
    var s := x + y;
    forall i | 0 <= i < |s| - 1
      ensures !(IsSpace(s[i]) && IsSpace(s[i + 1]))
    {
      if i + 1 < |x| {
        assert s[i] == x[i] && s[i + 1] == x[i + 1];
      } else if i >= |x| {
        assert s[i] == y[i - |x|] && s[i + 1] == y[i - |x| + 1];
      }
    }
  }

  lemma NoDoubleSpaceSlice(s: String, lo: nat, hi: nat)
    requires lo <= hi <= |s|
    requires NoDoubleSpace(s)
    ensures NoDoubleSpace(s[lo..hi])
  {
    var t := s[lo..hi];
    forall i | 0 <= i < |t| - 1
      ensures !(IsSpace(t[i]) && IsSpace(t[i + 1]))
    {
      assert t[i] == s[lo + i] && t[i + 1] == s[lo + i + 1];
    }
  }
}
