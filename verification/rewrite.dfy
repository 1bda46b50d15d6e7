/**
 Chains of global replacements, `s.replace(p1, r1).replace(p2, r2)...`, as lists of
 rules, with the lemmas that evaluate a chain piece by piece.
 */
module Rewrite {
  import opened Text

  /** A pattern every match of which consumes input. */
  type RulePattern = p: Pattern | WellFormed(p) witness SpaceRun

  /** One `replace(/pattern/g, repl)` step. */
  datatype Rule = Rule(pattern: RulePattern, repl: String)

  /** The rules applied one after another, each to the whole output of the previous one. */
  function Apply(s: String, rules: seq<Rule>): String
    decreases |rules|
  {
    if |rules| == 0 then s
    else Apply(ReplaceAll(s, rules[0].pattern, rules[0].repl), rules[1..])
  }

  /** Applying two rule lists in a row is applying their concatenation. */
  lemma {:induction false} ApplyConcat(s: String, first: seq<Rule>, second: seq<Rule>)
    ensures Apply(s, first + second) == Apply(Apply(s, first), second)
    decreases |first|
  {
    if |first| > 0 {
      assert (first + second)[1..] == first[1..] + second;
      ApplyConcat(ReplaceAll(s, first[0].pattern, first[0].repl), first[1..], second);
    } else {
      assert first + second == second;
    }
  }

  /** Rules none of which can begin a match anywhere in `s` leave it unchanged. */
  lemma {:induction false} ApplyUntouched(s: String, rules: seq<Rule>)
    requires forall k :: 0 <= k < |rules| ==> NoneStart(s, rules[k].pattern)
    ensures Apply(s, rules) == s
    decreases |rules|
  {
    if |rules| > 0 {
      ReplaceAllUntouched(s, rules[0].pattern, rules[0].repl);
      ApplyUntouched(s, rules[1..]);
    }
  }

  /** A text that every rule on its own leaves unchanged passes the whole list unchanged. */
  lemma {:induction false} ApplyFixed(s: String, rules: seq<Rule>)
    requires forall k :: 0 <= k < |rules| ==> ReplaceAll(s, rules[k].pattern, rules[k].repl) == s
    ensures Apply(s, rules) == s
    decreases |rules|
  {
    if |rules| > 0 {
      assert ReplaceAll(s, rules[0].pattern, rules[0].repl) == s;
      ApplyFixed(s, rules[1..]);
    }
  }

  /** A prefix in which no rule can begin a match passes every rule unchanged. */
  lemma {:induction false} ApplySkip(a: String, b: String, rules: seq<Rule>)
    requires forall k :: 0 <= k < |rules| ==> NoneStart(a, rules[k].pattern)
    ensures Apply(a + b, rules) == a + Apply(b, rules)
    decreases |rules|
  {
    if |rules| > 0 {
      ReplaceAllSkip(a, b, rules[0].pattern, rules[0].repl);
      ApplySkip(a, ReplaceAll(b, rules[0].pattern, rules[0].repl), rules[1..]);
    }
  }

  /** Rules that cannot match across `c` work on each side of it separately. */
  lemma {:induction false} ApplyBarrier(a: String, c: char, b: String, rules: seq<Rule>)
    requires forall k :: 0 <= k < |rules| ==> Barrier(rules[k].pattern, c)
    ensures Apply(a + [c] + b, rules) == Apply(a, rules) + [c] + Apply(b, rules)
    decreases |rules|
  {
    if |rules| > 0 {
      var r := rules[0];
      ReplaceAllBarrier(a, c, b, r.pattern, r.repl);
      ApplyBarrier(ReplaceAll(a, r.pattern, r.repl), c, ReplaceAll(b, r.pattern, r.repl), rules[1..]);
    }
  }

  /** Every rule is literal and every alternative is longer than `n`. */
  predicate AltsLongerThan(rules: seq<Rule>, n: nat) {
    forall k :: 0 <= k < |rules| ==>
      && rules[k].pattern.Literals?
      && forall j :: 0 <= j < |rules[k].pattern.alts| ==> |rules[k].pattern.alts[j]| > n
  }

  lemma AltsLongerThanMono(rules: seq<Rule>, n: nat, m: nat)
    requires AltsLongerThan(rules, n) && m <= n
    ensures AltsLongerThan(rules, m)
  {
  }

  lemma AltsLongerThanSlice(rules: seq<Rule>, n: nat, lo: nat, hi: nat)
    requires AltsLongerThan(rules, n) && lo <= hi <= |rules|
    ensures AltsLongerThan(rules[lo..hi], n)
  {
    forall k | 0 <= k < hi - lo
      ensures rules[lo..hi][k] == rules[lo + k]
    {
    }
  }

  /** A text shorter than every alternative of every rule passes the rules unchanged. */
  lemma {:induction false} ApplyShort(s: String, rules: seq<Rule>)
    requires AltsLongerThan(rules, |s|)
    ensures Apply(s, rules) == s
    decreases |rules|
  {
    if |rules| > 0 {
      var p := rules[0].pattern;
      forall w | w in p.alts
        ensures |w| > |s|
      {
        var j :| 0 <= j < |p.alts| && p.alts[j] == w;
      }
      ReplaceAllShort(s, p, rules[0].repl);
      ApplyShort(s, rules[1..]);
    }
  }

  /** One rule, then the rest. */
  lemma ApplyCons(s: String, r: Rule, rest: seq<Rule>)
    ensures Apply(s, [r] + rest) == Apply(ReplaceAll(s, r.pattern, r.repl), rest)
  {
    assert ([r] + rest)[1..] == rest;
  }

  /** Every rule is a single literal of length `n`. */
  predicate SingleAlts(rules: seq<Rule>, n: nat) {
    forall k :: 0 <= k < |rules| ==>
      rules[k].pattern.Literals? && |rules[k].pattern.alts| == 1 && |rules[k].pattern.alts[0]| == n
  }

  /** The single alternative of rule `k`. */
  function Alt(rules: seq<Rule>, k: nat): String
    requires k < |rules| && rules[k].pattern.Literals? && |rules[k].pattern.alts| == 1
  {
    rules[k].pattern.alts[0]
  }

  /** Rules whose single alternative is as long as the text, and which either do not
      match it or replace it by itself, leave it unchanged. */
  lemma {:induction false} ApplySameLengthFixed(t: String, rules: seq<Rule>)
    requires SingleAlts(rules, |t|)
    requires forall k :: 0 <= k < |rules| ==>
               StartsWith(t, Alt(rules, k), rules[k].pattern.ci) ==> rules[k].repl == t
    ensures Apply(t, rules) == t
    decreases |rules|
  {
    if |rules| > 0 {
      ReplaceAllSameLength(t, rules[0].pattern, rules[0].repl);
      ApplySameLengthFixed(t, rules[1..]);
    }
  }

  /** Rules whose single alternative is as long as the text turn it into the replacement
      of the first rule that matches it, provided the later rules keep that replacement. */
  lemma {:induction false} ApplyFirstHitThen(t: String, rules: seq<Rule>, k: nat)
    requires SingleAlts(rules, |t|) && k < |rules|
    requires forall j :: 0 <= j < k ==> !StartsWith(t, Alt(rules, j), rules[j].pattern.ci)
    requires StartsWith(t, Alt(rules, k), rules[k].pattern.ci)
    requires Apply(rules[k].repl, rules[k + 1..]) == rules[k].repl
    ensures Apply(t, rules) == rules[k].repl
    decreases k
  {
    ReplaceAllSameLength(t, rules[0].pattern, rules[0].repl);
    if k > 0 {
      assert rules[1..][k - 1 + 1..] == rules[k + 1..];
      ApplyFirstHitThen(t, rules[1..], k - 1);
    }
  }

  /** The same, when the replacement is as long as the text and the later rules either
      miss it or map it to itself. */
  lemma ApplyFirstHit(t: String, rules: seq<Rule>, k: nat)
    requires SingleAlts(rules, |t|) && k < |rules|
    requires forall j :: 0 <= j < k ==> !StartsWith(t, Alt(rules, j), rules[j].pattern.ci)
    requires StartsWith(t, Alt(rules, k), rules[k].pattern.ci)
    requires |rules[k].repl| == |t|
    requires forall j :: k < j < |rules| ==>
               StartsWith(rules[k].repl, Alt(rules, j), rules[j].pattern.ci) ==> rules[j].repl == rules[k].repl
    ensures Apply(t, rules) == rules[k].repl
  {
    var rest := rules[k + 1..];
    forall j | 0 <= j < |rest|
      ensures rest[j] == rules[k + 1 + j]
    {
    }
    ApplySameLengthFixed(rules[k].repl, rest);
    ApplyFirstHitThen(t, rules, k);
  }

  /** Rules that cannot match across `c` work on each piece of a `c`-separated list. */
  lemma {:induction false} ApplyJoin(parts: seq<String>, c: char, rules: seq<Rule>)
    requires forall k :: 0 <= k < |rules| ==> Barrier(rules[k].pattern, c)
    ensures Apply(Join(parts, [c]), rules)
            == Join(seq(|parts|, i requires 0 <= i < |parts| => Apply(parts[i], rules)), [c])
  {
    var mapped := seq(|parts|, i requires 0 <= i < |parts| => Apply(parts[i], rules));
    if |parts| == 0 {
      ApplyEmpty(rules);
    } else if |parts| > 1 {
      ApplyBarrier(parts[0], c, Join(parts[1..], [c]), rules);
      ApplyJoin(parts[1..], c, rules);
      assert mapped[1..] == seq(|parts[1..]|, i requires 0 <= i < |parts[1..]| => Apply(parts[1..][i], rules));
    }
  }

  /** Every rule leaves the empty text empty. */
  lemma {:induction false} ApplyEmpty(rules: seq<Rule>)
    ensures Apply([], rules) == []
    decreases |rules|
  {
    if |rules| > 0 {
      ApplyEmpty(rules[1..]);
    }
  }

  /** Rules none of which matches anywhere in `s` leave it unchanged. */
  lemma {:induction false} ApplyNoMatch(s: String, rules: seq<Rule>)
    requires forall k :: 0 <= k < |rules| ==> NoMatchIn(s, rules[k].pattern)
    ensures Apply(s, rules) == s
    decreases |rules|
  {
    if |rules| > 0 {
      ReplaceAllNoMatch(s, rules[0].pattern, rules[0].repl);
      ApplyNoMatch(s, rules[1..]);
    }
  }

  /** A text matched whole by the single alternative of rule `k` becomes that rule's
      replacement, provided no earlier rule matches anywhere in the text and every later
      alternative is longer than the replacement. */
  lemma ApplyLongHit(t: String, rules: seq<Rule>, k: nat)
    requires k < |rules| && rules[k].pattern.Literals? && |rules[k].pattern.alts| == 1
    requires |Alt(rules, k)| == |t| && StartsWith(t, Alt(rules, k), rules[k].pattern.ci)
    requires forall j :: 0 <= j < k ==> NoMatchIn(t, rules[j].pattern)
    requires AltsLongerThan(rules[k + 1..], |rules[k].repl|)
    ensures Apply(t, rules) == rules[k].repl
  {
    var r := rules[k];
    assert rules == rules[..k] + ([r] + rules[k + 1..]);
    ApplyConcat(t, rules[..k], [r] + rules[k + 1..]);
    forall j | 0 <= j < k
      ensures NoMatchIn(t, rules[..k][j].pattern)
    {
      assert rules[..k][j] == rules[j];
    }
    ApplyNoMatch(t, rules[..k]);
    ApplyCons(t, r, rules[k + 1..]);
    ReplaceAllSameLength(t, r.pattern, r.repl);
    ApplyShort(r.repl, rules[k + 1..]);
  }
}
