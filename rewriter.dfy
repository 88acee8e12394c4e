/**
 * The scoped rewriter both scripts share: an ordered table of literal
 * `(pattern, replacement)` rules applied to the region text one after the
 * other, each counted first and replaced only when the count is positive.
 */
module Rewriter {
  import opened Text

  /** One row of a replacement table. */
  datatype Rule = Rule(pattern: string, replacement: string)

  /** One pass of the loop body: count the pattern, replace it only if it was found. */
  function ApplyRule(text: string, rule: Rule): string
  {
    if Count(text, rule.pattern) > 0 then ReplaceAll(text, rule.pattern, rule.replacement) else text
  }

  /** The region after the loop has run over `rules`, in order. */
  function ApplyRules(text: string, rules: seq<Rule>): string
    decreases |rules|
  {
    if rules == [] then text
    else ApplyRule(ApplyRules(text, rules[..|rules| - 1]), rules[|rules| - 1])
  }

  /** The count each pass of the loop reports, in table order. */
  function Counts(text: string, rules: seq<Rule>): (counts: seq<nat>)
    ensures |counts| == |rules|
  {
    seq(|rules|, i requires 0 <= i < |rules| => Count(ApplyRules(text, rules[..i]), rules[i].pattern))
  }

  function Sum(xs: seq<nat>): nat
  {
    if xs == [] then 0 else Sum(xs[..|xs| - 1]) + xs[|xs| - 1]
  }

  /** Every pattern of the table is non-empty. */
  predicate NonEmptyPatterns(rules: seq<Rule>)
  {
    forall i :: 0 <= i < |rules| ==> |rules[i].pattern| > 0
  }

  /**
   * The loop of the scripts: for each rule, count its pattern in the
   * current region and, if the count is positive, replace every occurrence.
   */
  method Rewrite(text: string, rules: seq<Rule>) returns (result: string, counts: seq<nat>)
    ensures result == ApplyRules(text, rules)
    ensures |counts| == |rules|
    ensures forall i :: 0 <= i < |rules| ==> counts[i] == Count(ApplyRules(text, rules[..i]), rules[i].pattern)
  {
    result := text;
    counts := [];
    for i := 0 to |rules|
      invariant result == ApplyRules(text, rules[..i])
      invariant counts == Counts(text, rules[..i])
    {
      CountsSnoc(text, rules, i);
      var rule := rules[i];
      var count := Count(result, rule.pattern);
      if count > 0 {
        result := ReplaceAll(result, rule.pattern, rule.replacement);
      }
      counts := counts + [count];
    }
    assert rules[..|rules|] == rules;
  }

  /** A list holding, rule by rule, the count the loop reports is `Counts`. */
  lemma CountsAre(text: string, rules: seq<Rule>, counts: seq<nat>)
    requires |counts| == |rules|
    requires forall i :: 0 <= i < |rules| ==> counts[i] == Count(ApplyRules(text, rules[..i]), rules[i].pattern)
    ensures counts == Counts(text, rules)
  {
  }

  lemma ApplyRulesSnoc(text: string, rules: seq<Rule>, i: nat)
    requires i < |rules|
    ensures ApplyRules(text, rules[..i + 1]) == ApplyRule(ApplyRules(text, rules[..i]), rules[i])
  {
    assert rules[..i + 1][..i] == rules[..i];
  }

  /** One more pass of the loop: the region takes one more rule, the counts one more entry. */
  lemma CountsSnoc(text: string, rules: seq<Rule>, i: nat)
    requires i < |rules|
    ensures ApplyRules(text, rules[..i + 1]) == ApplyRule(ApplyRules(text, rules[..i]), rules[i])
    ensures Counts(text, rules[..i + 1]) == Counts(text, rules[..i]) + [Count(ApplyRules(text, rules[..i]), rules[i].pattern)]
  {
    ApplyRulesSnoc(text, rules, i);
    CountsPrefix(text, rules[..i + 1]);
    assert rules[..i + 1][..i] == rules[..i];
  }

  // ---------------------------------------------------------------------
  // One rule

  /** The count guard is immaterial: a pass is Python's `replace`, and the length moves by `|new| - |old|` per occurrence. */
  lemma ApplyRuleIsReplace(text: string, rule: Rule)
    ensures ApplyRule(text, rule) == ReplaceAll(text, rule.pattern, rule.replacement)
    ensures |ApplyRule(text, rule)| == |text| + Count(text, rule.pattern) * (|rule.replacement| - |rule.pattern|)
    ensures Count(text, rule.pattern) == 0 ==> ApplyRule(text, rule) == text
  {
    CountZeroIff(text, rule.pattern);
    if Count(text, rule.pattern) == 0 {
      ReplaceAllAbsent(text, rule.pattern, rule.replacement);
    }
    ReplaceAllLength(text, rule.pattern, rule.replacement);
  }

  // ---------------------------------------------------------------------
  // Whole tables

  /** Running the loop over `a + b` is running it over `a`, then over `b`. */
  lemma {:induction false} ApplyRulesAppend(text: string, a: seq<Rule>, b: seq<Rule>)
    ensures ApplyRules(text, a + b) == ApplyRules(ApplyRules(text, a), b)
    decreases |b|
  {
    if b == [] {
      assert a + b == a;
    } else {
      assert (a + b)[..|a + b| - 1] == a + b[..|b| - 1];
      ApplyRulesAppend(text, a, b[..|b| - 1]);
    }
  }

  /** A table none of whose patterns occur leaves the region unchanged, and every count is zero. */
  lemma {:induction false} ApplyRulesNoop(text: string, rules: seq<Rule>)
    requires forall i :: 0 <= i < |rules| ==> Absent(text, rules[i].pattern)
    ensures ApplyRules(text, rules) == text
    ensures forall i :: 0 <= i < |rules| ==> Counts(text, rules)[i] == 0
    decreases |rules|
  {
    if rules != [] {
      var init := rules[..|rules| - 1];
      ApplyRulesNoop(text, init);
      ApplyRuleIsReplace(text, rules[|rules| - 1]);
      CountZeroIff(text, rules[|rules| - 1].pattern);
      forall i | 0 <= i < |rules| ensures Counts(text, rules)[i] == 0 {
        if i < |rules| - 1 {
          assert rules[..i] == init[..i];
          assert Counts(text, init)[i] == 0;
        } else {
          assert rules[..i] == init;
        }
        CountZeroIff(ApplyRules(text, rules[..i]), rules[i].pattern);
      }
    }
  }

  /** The table never reaches into a head `w` inside which none of its patterns can start. */
  lemma {:induction false} ApplyRulesKeepsHead(w: string, s: string, rules: seq<Rule>)
    requires NonEmptyPatterns(rules)
    requires forall i :: 0 <= i < |rules| ==> NoStartIn(w, rules[i].pattern)
    ensures ApplyRules(w + s, rules) == w + ApplyRules(s, rules)
    decreases |rules|
  {
    if rules != [] {
      var last := rules[|rules| - 1];
      ApplyRulesKeepsHead(w, s, rules[..|rules| - 1]);
      var t := ApplyRules(s, rules[..|rules| - 1]);
      ApplyRuleIsReplace(w + t, last);
      ApplyRuleIsReplace(t, last);
      ReplaceAllKeepsHead(w, t, last.pattern, last.replacement);
    }
  }

  /** The table rewrites each side of a middle `w` that none of its patterns can start in or run into on its own. */
  lemma {:induction false} ApplyRulesAround(x: string, w: string, y: string, rules: seq<Rule>)
    requires NonEmptyPatterns(rules)
    requires forall i :: 0 <= i < |rules| ==> NoSeam(rules[i].pattern, w) && NoStartIn(w, rules[i].pattern)
    ensures ApplyRules(x + w + y, rules) == ApplyRules(x, rules) + w + ApplyRules(y, rules)
    decreases |rules|
  {
    if rules != [] {
      var init, last := rules[..|rules| - 1], rules[|rules| - 1];
      ApplyRulesAround(x, w, y, init);
      var tx, ty := ApplyRules(x, init), ApplyRules(y, init);
      ApplyRuleIsReplace(tx + w + ty, last);
      ApplyRuleIsReplace(tx, last);
      ApplyRuleIsReplace(ty, last);
      ReplaceAllAround(tx, w, ty, last.pattern, last.replacement);
    }
  }

  /** A marker `q` that no replacement can form, absent before the loop, is absent after it. */
  lemma {:induction false} ApplyRulesKeepsAbsent(text: string, rules: seq<Rule>, q: string)
    requires NonEmptyPatterns(rules)
    requires forall i :: 0 <= i < |rules| ==> Isolated(q, rules[i].replacement)
    requires Absent(text, q)
    ensures Absent(ApplyRules(text, rules), q)
    decreases |rules|
  {
    if rules != [] {
      var last := rules[|rules| - 1];
      ApplyRulesKeepsAbsent(text, rules[..|rules| - 1], q);
      ApplyRuleIsReplace(ApplyRules(text, rules[..|rules| - 1]), last);
      ReplaceAllKeepsAbsent(ApplyRules(text, rules[..|rules| - 1]), last.pattern, last.replacement, q);
    }
  }

  /**
   * After the loop, the pattern of rule `k` is gone, provided that no
   * replacement of rule `k` or of a later rule can form it again.
   */
  lemma ApplyRulesRemoves(text: string, rules: seq<Rule>, k: nat)
    requires k < |rules| && NonEmptyPatterns(rules)
    requires forall j :: k <= j < |rules| ==> Isolated(rules[k].pattern, rules[j].replacement)
    ensures Absent(ApplyRules(text, rules), rules[k].pattern)
  {
    var q := rules[k].pattern;
    var before := ApplyRules(text, rules[..k]);
    ApplyRuleIsReplace(before, rules[k]);
    ReplaceAllKeepsAbsent(before, q, rules[k].replacement, q);
    assert rules[..k + 1][..k] == rules[..k];
    var rest := rules[k + 1..];
    ApplyRulesKeepsAbsent(ApplyRules(text, rules[..k + 1]), rest, q);
    ApplyRulesAppend(text, rules[..k + 1], rest);
    assert rules[..k + 1] + rest == rules;
  }

  /** When every rule changes the length by the same `d`, the region grows by `d` per reported occurrence. */
  lemma {:induction false} ApplyRulesLength(text: string, rules: seq<Rule>, d: int)
    requires forall i :: 0 <= i < |rules| ==> |rules[i].replacement| - |rules[i].pattern| == d
    ensures |ApplyRules(text, rules)| == |text| + d * Sum(Counts(text, rules))
    decreases |rules|
  {
    if rules != [] {
      var init := rules[..|rules| - 1];
      var last := rules[|rules| - 1];
      var t := ApplyRules(text, init);
      ApplyRulesLength(text, init, d);
      ApplyRuleGrowth(t, last, d);
      SumCountsSnoc(text, rules);
      LengthStep(|text|, |t|, |ApplyRule(t, last)|, Sum(Counts(text, init)), Count(t, last.pattern),
                 Sum(Counts(text, rules)), d);
    }
  }

  /** The total the loop reports grows by the count of its last pass. */
  lemma SumCountsSnoc(text: string, rules: seq<Rule>)
    requires rules != []
    ensures ApplyRules(text, rules) == ApplyRule(ApplyRules(text, rules[..|rules| - 1]), rules[|rules| - 1])
    ensures Sum(Counts(text, rules)) == Sum(Counts(text, rules[..|rules| - 1])) + Count(ApplyRules(text, rules[..|rules| - 1]), rules[|rules| - 1].pattern)
  {
    var c := Counts(text, rules);
    CountsPrefix(text, rules);
    assert Sum(c) == Sum(c[..|c| - 1]) + c[|c| - 1];
  }

  /** One pass of a rule that changes the length by `d` moves it by `d` per occurrence. */
  lemma ApplyRuleGrowth(text: string, rule: Rule, d: int)
    requires |rule.replacement| - |rule.pattern| == d
    ensures |ApplyRule(text, rule)| == |text| + Count(text, rule.pattern) * d
  {
    ApplyRuleIsReplace(text, rule);
  }

  lemma LengthStep(before: int, mid: int, after: int, sum: int, c: int, total: int, d: int)
    requires mid == before + d * sum && after == mid + c * d && total == sum + c
    ensures after == before + d * total
  {
  }

  /** A rule counts zero when its pattern is gone by the time it runs. */
  lemma CountsZeroAt(text: string, rules: seq<Rule>, i: nat)
    requires i < |rules| && Absent(ApplyRules(text, rules[..i]), rules[i].pattern)
    ensures Counts(text, rules)[i] == 0
  {
    CountZeroIff(ApplyRules(text, rules[..i]), rules[i].pattern);
  }

  /**
   * A rule whose pattern extends the pattern of an earlier rule `h` counts
   * zero, when no rule from `h` up to it writes text that can form or run
   * into that earlier pattern.
   */
  lemma ShadowedCountsZero(text: string, rules: seq<Rule>, h: nat, n: nat, suffix: string)
    requires h < n < |rules| && NonEmptyPatterns(rules)
    requires forall j :: h <= j < n ==> Isolated(rules[h].pattern, rules[j].replacement)
    requires rules[n].pattern == rules[h].pattern + suffix
    ensures Counts(text, rules)[n] == 0
  {
    var init := rules[..n];
    assert NonEmptyPatterns(init) by {
      forall j | 0 <= j < |init| ensures |init[j].pattern| > 0 {
        assert init[j] == rules[j];
      }
    }
    ApplyRulesRemoves(text, init, h);
    var t := ApplyRules(text, init);
    assert rules[n].pattern == [] + rules[h].pattern + suffix;
    AbsentWithin(t, rules[h].pattern, [], suffix);
    CountsZeroAt(text, rules, n);
  }

  /** The counts of a shorter table are the first counts of the longer one. */
  lemma CountsPrefix(text: string, rules: seq<Rule>)
    requires rules != []
    ensures Counts(text, rules)[..|rules| - 1] == Counts(text, rules[..|rules| - 1])
  {
    var init := rules[..|rules| - 1];
    forall i | 0 <= i < |init| ensures Counts(text, rules)[i] == Counts(text, init)[i] {
      assert rules[..i] == init[..i];
    }
  }
}
