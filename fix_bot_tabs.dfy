/**
 * `fix-bot-tabs.py`: inside the `submitToSparxNowInternal` region, every
 * `await page.<method>` and ` page.<method>` call becomes the same call on
 * `productPage`; the text around the region is kept. The region ends at
 * the API comment, or at the exports marker when that comment is missing.
 */
module FixBotTabs {
  import opened Wrappers
  import opened Text
  import opened Rewriter
  import opened PageMethods
  import opened Markers
  import opened Region
  import opened BotTabMarkers

  /** The `await page.<m>` rules, in the order of `Methods`. */
  const AwaitRules: seq<Rule> := Retarget("await page.", "await productPage.", Methods)

  /** The ` page.<m>` rules, in the order of `Methods`. */
  const SpaceRules: seq<Rule> := Retarget(" page.", " productPage.", Methods)

  /** The replacement table: the `await` rules first, then the space-prefixed ones. */
  const Table: seq<Rule> := AwaitRules + SpaceRules

  /**
   * `func_end`: the first API comment at or after the start, or, when there
   * is none, the first exports marker at or after it.
   */
  function RegionEnd(content: string, s: nat): Option<nat>
  {
    match Find(content, ApiComment, s)
    case Some(e) => Some(e)
    case None => Find(content, Exports, s)
  }

  /** `func_start` and `func_end`; `None` is the script's exit before anything is written. */
  function Locate(content: string): (r: Option<Bounds>)
    ensures r.Some? ==> Within(r.value, content)
  {
    match FunctionStart(content)
    case None => None
    case Some(s) =>
      match RegionEnd(content, s)
      case None => None
      case Some(e) => Some(Bounds(s, e))
  }

  /**
   * The region runs from the start marker the script chose to the first API
   * comment at or after it, or, with no API comment there, to the first
   * exports marker at or after it; there is none when the start or both
   * end markers are missing.
   */
  lemma LocateSpec(content: string)
    ensures Locate(content).Some? ==>
      var b := Locate(content).value;
      Some(b.start) == FunctionStart(content) &&
      (FirstAt(content, ApiComment, b.start, b.end) ||
       ((forall i :: b.start <= i ==> !OccursAt(content, ApiComment, i)) &&
        FirstAt(content, Exports, b.start, b.end)))
    ensures Locate(content).None? <==>
      FunctionStart(content).None? ||
      ((forall i :: FunctionStart(content).value <= i ==> !OccursAt(content, ApiComment, i)) &&
       (forall i :: FunctionStart(content).value <= i ==> !OccursAt(content, Exports, i)))
  {
    if FunctionStart(content).Some? {
      RegionEndSpec(content, FunctionStart(content).value);
    }
  }

  /** The end is the first API comment from `s`, or the first exports marker from `s` when there is no API comment. */
  lemma RegionEndSpec(content: string, s: nat)
    ensures RegionEnd(content, s).Some? ==>
      FirstAt(content, ApiComment, s, RegionEnd(content, s).value) ||
      ((forall i :: s <= i ==> !OccursAt(content, ApiComment, i)) &&
       FirstAt(content, Exports, s, RegionEnd(content, s).value))
    ensures RegionEnd(content, s).None? <==>
      (forall i :: s <= i ==> !OccursAt(content, ApiComment, i)) &&
      (forall i :: s <= i ==> !OccursAt(content, Exports, i))
  {
    if Find(content, ApiComment, s).Some? {
      FindIff(content, ApiComment, s, Find(content, ApiComment, s).value);
    } else if Find(content, Exports, s).Some? {
      FindIff(content, Exports, s, Find(content, Exports, s).value);
    }
  }

  /** `b` is made of the region start and the end found from it. */
  ghost predicate Located(content: string, b: Bounds)
  {
    Within(b, content) && FunctionStart(content) == Some(b.start) && RegionEnd(content, b.start) == Some(b.end)
  }

  /** The bounds are made of the region start and the end found from it. */
  lemma LocateParts(content: string, b: Bounds)
    requires Locate(content) == Some(b)
    ensures Located(content, b)
  {
  }

  lemma LocateFrom(content: string, s: nat, e: nat)
    requires FunctionStart(content) == Some(s) && RegionEnd(content, s) == Some(e)
    ensures Locate(content) == Some(Bounds(s, e))
  {
  }

  /** What the script does to the region text: the rule table, in order. */
  function Transform(region: string): string
  {
    ApplyRules(region, Table)
  }

  /**
   * The whole script on the file's text: `None` when the boundaries are not
   * found, otherwise the rebuilt file, which keeps the text before the
   * region and the text from the end marker on.
   */
  function Patch(content: string): (r: Option<string>)
    ensures r.None? <==> Locate(content).None?
    ensures r.Some? ==> KeepsAround(content, Locate(content).value, r.value)
  {
    match Locate(content)
    case None => None
    case Some(b) => Some(Reassemble(content, b, Transform(content[b.start..b.end])))
  }

  /** A file whose located region the rewrite leaves unchanged is written back as it was. */
  lemma PatchSettled(content: string, b: Bounds)
    requires Locate(content) == Some(b) && Transform(content[b.start..b.end]) == content[b.start..b.end]
    ensures Patch(content) == Some(content)
  {
    ReassembleSame(content, b);
  }

  /** Lines that find `func_start` and `func_end`, as the script runs them. */
  method FindBoundaries(content: string) returns (b: Option<Bounds>)
    ensures b == Locate(content)
  {
    var funcStart := Find(content, InternalComment, 0);
    if funcStart.None? {
      funcStart := Find(content, Signature, 0);
    }
    assert funcStart == FunctionStart(content);
    if funcStart.None? {
      return None;
    }
    var funcEnd := Find(content, ApiComment, funcStart.value);
    if funcEnd.None? {
      funcEnd := Find(content, Exports, funcStart.value);
    }
    assert funcEnd == RegionEnd(content, funcStart.value);
    if funcEnd.None? {
      return None;
    }
    b := Some(Bounds(funcStart.value, funcEnd.value));
    LocateFrom(content, funcStart.value, funcEnd.value);
  }

  /**
   * The script, step by step: locate, rewrite with the table (reporting each
   * rule's count), and reassemble. `None` is the exit before the write.
   */
  method Run(content: string) returns (out: Option<string>, counts: seq<nat>)
    ensures out == Patch(content)
    ensures out.None? ==> counts == []
    ensures out.Some? ==>
      var b := Locate(content).value;
      counts == Counts(content[b.start..b.end], Table)
  {
    var bounds := FindBoundaries(content);
    if bounds.None? {
      return None, [];
    }
    var b := bounds.value;
    var beforeFunc := content[..b.start];
    var funcContent := content[b.start..b.end];
    var afterFunc := content[b.end..];
    ghost var region := funcContent;

    funcContent, counts := Rewrite(funcContent, Table);
    CountsAre(region, Table, counts);

    out := Some(beforeFunc + funcContent + afterFunc);
    assert Patch(content) == Some(Reassemble(content, b, Transform(region)));
  }

  // ---------------------------------------------------------------------
  // The rule table

  /** Rule `i` of the first half turns `await page.<m>` into `await productPage.<m>`. */
  lemma AwaitRule(i: nat)
    requires i < |Methods|
    ensures Table[i] == Rule("await page." + Methods[i], "await productPage." + Methods[i])
  {
    assert Table[i] == AwaitRules[i];
  }

  /** Rule `i` of the second half turns ` page.<m>` into ` productPage.<m>`. */
  lemma SpaceRule(i: nat)
    requires i < |Methods|
    ensures Table[|Methods| + i] == Rule(" page." + Methods[i], " productPage." + Methods[i])
  {
    assert Table[|Methods| + i] == SpaceRules[i];
  }

  /** `SpaceRule` by the rule's index in the whole table. */
  lemma SpaceRuleAt(k: nat, i: nat)
    requires i < |Methods| && k == |Methods| + i
    ensures Table[k] == Rule(" page." + Methods[i], " productPage." + Methods[i])
  {
    SpaceRule(i);
  }

  /** Every rule grows the text by 7 per occurrence. */
  lemma RuleGrows(i: nat)
    requires i < |Table|
    ensures |Table[i].replacement| - |Table[i].pattern| == 7
  {
    if i < |Methods| {
      AwaitRule(i);
    } else {
      SpaceRuleAt(i, i - |Methods|);
    }
  }

  lemma AwaitSplit()
    ensures "await page." == "await" + " page."
  {
  }

  lemma AwaitPageClear()
    ensures ClearFrom("await page.", 1, "aw") && ClearFrom("await page.", 1, " pr")
  {
    assert Scan("await page.", 1, "aw");
    ScanSound("await page.", 1, "aw");
    assert Scan("await page.", 1, " pr");
    ScanSound("await page.", 1, " pr");
  }

  lemma SpacePageClear()
    ensures ClearFrom(" page.", 1, "aw") && ClearFrom(" page.", 1, " pr")
  {
    assert Scan(" page.", 1, "aw");
    ScanSound(" page.", 1, "aw");
    assert Scan(" page.", 1, " pr");
    ScanSound(" page.", 1, " pr");
  }

  lemma AwaitProductPageClear()
    ensures ClearFrom("await productPage.", 0, "await pa") && ClearFrom("await productPage.", 0, " pa")
  {
    AwaitProductPageClearAwait();
    assert Scan("await productPage.", 12, " pa");
    assert Scan("await productPage.", 6, " pa");
    assert Scan("await productPage.", 0, " pa");
    ScanSound("await productPage.", 0, " pa");
  }

  lemma AwaitProductPageClearAwait()
    ensures ClearFrom("await productPage.", 0, "await pa")
  {
    assert Scan("await productPage.", 12, "await pa");
    assert Scan("await productPage.", 6, "await pa");
    assert Scan("await productPage.", 0, "await pa");
    ScanSound("await productPage.", 0, "await pa");
  }

  lemma SpaceProductPageClear()
    ensures ClearFrom(" productPage.", 0, "await pa") && ClearFrom(" productPage.", 0, " pa")
  {
    assert Scan(" productPage.", 6, "await pa");
    assert Scan(" productPage.", 0, "await pa");
    ScanSound(" productPage.", 0, "await pa");
    assert Scan(" productPage.", 6, " pa");
    assert Scan(" productPage.", 0, " pa");
    ScanSound(" productPage.", 0, " pa");
  }

  lemma AwaitAwaitIsolated(k: nat, j: nat)
    requires k < |Methods| && j < |Methods|
    ensures Isolated("await page." + Methods[k], "await productPage." + Methods[j])
  {
    AwaitPageClear();
    AwaitProductPageClear();
    CallsIsolated("await page.", k, "await productPage.", j, "aw", "aw", "await pa", "aw");
  }

  lemma AwaitSpaceIsolated(k: nat, j: nat)
    requires k < |Methods| && j < |Methods|
    ensures Isolated("await page." + Methods[k], " productPage." + Methods[j])
  {
    AwaitPageClear();
    SpaceProductPageClear();
    CallsIsolated("await page.", k, " productPage.", j, " pr", " ", "await pa", "aw");
  }

  lemma SpaceAwaitIsolated(k: nat, j: nat)
    requires k < |Methods| && j < |Methods|
    ensures Isolated(" page." + Methods[k], "await productPage." + Methods[j])
  {
    SpacePageClear();
    AwaitProductPageClear();
    CallsIsolated(" page.", k, "await productPage.", j, "aw", "aw", " pa", " ");
  }

  lemma SpaceSpaceIsolated(k: nat, j: nat)
    requires k < |Methods| && j < |Methods|
    ensures Isolated(" page." + Methods[k], " productPage." + Methods[j])
  {
    SpacePageClear();
    SpaceProductPageClear();
    CallsIsolated(" page.", k, " productPage.", j, " pr", " ", " pa", " ");
  }

  /**
   * No replacement of any rule can form, or run into, the pattern of any
   * rule: the `await` outputs hold no ` page.` call for the later rules, and
   * nothing a rule writes is rewritten again.
   */
  lemma PatternIsolated(k: nat, j: nat)
    requires k < |Table| && j < |Table|
    ensures |Table[k].pattern| > 0 && Isolated(Table[k].pattern, Table[j].replacement)
  {
    TableSize();
    if k < |Methods| && j < |Methods| {
      AwaitPatternAwaitCall(k, j);
    } else if k < |Methods| {
      AwaitPatternSpaceCall(k, j, j - |Methods|);
    } else if j < |Methods| {
      SpacePatternAwaitCall(k, k - |Methods|, j);
    } else {
      SpacePatternSpaceCall(k, k - |Methods|, j, j - |Methods|);
    }
  }

  lemma TableSize()
    ensures |Table| == 2 * |Methods|
  {
  }

  lemma AwaitPatternAwaitCall(k: nat, j: nat)
    requires k < |Methods| && j < |Methods|
    ensures |Table[k].pattern| > 0 && Isolated(Table[k].pattern, Table[j].replacement)
  {
    AwaitRule(k);
    AwaitRule(j);
    AwaitAwaitIsolated(k, j);
  }

  lemma AwaitPatternSpaceCall(k: nat, j: nat, j0: nat)
    requires k < |Methods| && j0 < |Methods| && j == |Methods| + j0
    ensures |Table[k].pattern| > 0 && Isolated(Table[k].pattern, Table[j].replacement)
  {
    AwaitRule(k);
    SpaceRuleAt(j, j0);
    AwaitSpaceIsolated(k, j0);
  }

  lemma SpacePatternAwaitCall(k: nat, k0: nat, j: nat)
    requires k0 < |Methods| && k == |Methods| + k0 && j < |Methods|
    ensures |Table[k].pattern| > 0 && Isolated(Table[k].pattern, Table[j].replacement)
  {
    SpaceRuleAt(k, k0);
    AwaitRule(j);
    SpaceAwaitIsolated(k0, j);
  }

  lemma SpacePatternSpaceCall(k: nat, k0: nat, j: nat, j0: nat)
    requires k0 < |Methods| && k == |Methods| + k0 && j0 < |Methods| && j == |Methods| + j0
    ensures |Table[k].pattern| > 0 && Isolated(Table[k].pattern, Table[j].replacement)
  {
    SpaceRuleAt(k, k0);
    SpaceRuleAt(j, j0);
    SpaceSpaceIsolated(k0, j0);
  }

  /** Each occurrence a rule rewrites grows the region by `|"productPage"| - |"page"|` = 7. */
  lemma RewriteGrows(region: string)
    ensures |Transform(region)| == |region| + 7 * Sum(Counts(region, Table))
  {
    TableGrows();
    ApplyRulesLength(region, Table, 7);
  }

  lemma TableGrows()
    ensures forall i :: 0 <= i < |Table| ==> |Table[i].replacement| - |Table[i].pattern| == 7
  {
    forall i | 0 <= i < |Table|
      ensures |Table[i].replacement| - |Table[i].pattern| == 7
    {
      RuleGrows(i);
    }
  }

  /** After the loop no pattern of the table is left in the region. */
  lemma RewriteRemovesAll(region: string)
    ensures forall k :: 0 <= k < |Table| ==> Absent(Transform(region), Table[k].pattern)
  {
    forall k | 0 <= k < |Table|
      ensures Absent(ApplyRules(region, Table), Table[k].pattern)
    {
      forall j | k <= j < |Table|
        ensures Isolated(Table[k].pattern, Table[j].replacement)
      {
        PatternIsolated(k, j);
      }
      TableNonEmpty();
      ApplyRulesRemoves(region, Table, k);
    }
  }

  /** Applying the table to its own output changes nothing, and every rule then counts zero. */
  lemma RewriteSettles(region: string)
    ensures Transform(Transform(region)) == Transform(region)
    ensures forall i :: 0 <= i < |Table| ==> Counts(Transform(region), Table)[i] == 0
  {
    RewriteRemovesAll(region);
    ApplyRulesNoop(Transform(region), Table);
  }

  /** The region is left as it is exactly when it holds no pattern of the table. */
  lemma RewriteUnchangedIff(region: string)
    ensures Transform(region) == region <==>
      forall k :: 0 <= k < |Table| ==> Absent(region, Table[k].pattern)
  {
    RewriteRemovesAll(region);
    if forall k :: 0 <= k < |Table| ==> Absent(region, Table[k].pattern) {
      ApplyRulesNoop(region, Table);
    }
  }

  /** Every pattern holds ` page.`, so a region without one is left as it is. */
  lemma NoSpacePageUntouched(region: string)
    requires Absent(region, " page.")
    ensures Transform(region) == region
    ensures forall i :: 0 <= i < |Table| ==> Counts(region, Table)[i] == 0
  {
    forall k | 0 <= k < |Table|
      ensures Absent(region, Table[k].pattern)
    {
      PatternHoldsSpacePage(region, k);
    }
    ApplyRulesNoop(region, Table);
  }

  lemma PatternHoldsSpacePage(t: string, k: nat)
    requires k < |Table| && Absent(t, " page.")
    ensures Absent(t, Table[k].pattern)
  {
    TableSize();
    if k < |Methods| {
      AwaitPatternHoldsSpacePage(t, k);
    } else {
      SpacePatternHoldsSpacePage(t, k, k - |Methods|);
    }
  }

  lemma SpacePatternHoldsSpacePage(t: string, k: nat, i: nat)
    requires i < |Methods| && k == |Methods| + i && Absent(t, " page.")
    ensures Absent(t, Table[k].pattern)
  {
    SpaceRuleAt(k, i);
    ExtendedAbsent(t, " page.", Methods[i]);
  }

  /** A text without `q` holds nothing that begins with `q`. */
  lemma ExtendedAbsent(t: string, q: string, m: string)
    requires Absent(t, q)
    ensures Absent(t, q + m)
  {
    AbsentWithin(t, q, [], m);
    assert [] + q + m == q + m;
  }

  lemma AwaitPatternHoldsSpacePage(t: string, k: nat)
    requires k < |Methods| && Absent(t, " page.")
    ensures Absent(t, Table[k].pattern)
  {
    AwaitRule(k);
    AwaitSplit();
    PrefixedAbsent(t, "await", " page.", "await page.", Methods[k]);
  }

  /** A text without `q` holds no `full + m` when `full` ends with `q`. */
  lemma PrefixedAbsent(t: string, a: string, q: string, full: string, m: string)
    requires full == a + q && Absent(t, q)
    ensures Absent(t, full + m)
  {
    assert full + m == a + q + m;
    AbsentWithin(t, q, a, m);
  }

  /** A ` page.<m>` call inside a line comment is rewritten like any other. */
  lemma CommentedCallRewritten(before: string, i: nat, after: string)
    requires i < |Methods|
    ensures var c := "//" + before + (" page." + Methods[i]) + after; Transform(c) != c
  {
    var c := "//" + before + (" page." + Methods[i]) + after;
    SpaceRule(i);
    OccursInMiddle("//" + before, " page." + Methods[i], after);
    OccurrenceRewritten(c, |Methods| + i, |"//" + before|);
  }

  /** A region holding an occurrence of some rule's pattern is changed. */
  lemma OccurrenceRewritten(region: string, k: nat, at: nat)
    requires k < |Table| && OccursAt(region, Table[k].pattern, at)
    ensures Transform(region) != region
  {
    RewriteRemovesAll(region);
    assert Absent(Transform(region), Table[k].pattern);
  }

  lemma OccursInMiddle(a: string, p: string, b: string)
    ensures OccursAt(a + p + b, p, |a|)
  {
    assert (a + p + b)[|a|..|a| + |p|] == p;
  }

  /**
   * `page.evaluate` is a prefix of `page.evaluateHandle` and its rule runs
   * earlier in each half of the table, so the `evaluateHandle` rule of
   * either half (`h` is where the half begins) never finds anything.
   */
  lemma EvaluateHandleNeverCounts(region: string, h: nat)
    requires h == 0 || h == |Methods|
    ensures Counts(region, Table)[h + 8] == 0
  {
    TableNonEmpty();
    forall j | h <= j < h + 8
      ensures Isolated(Table[h].pattern, Table[j].replacement)
    {
      PatternIsolated(h, j);
    }
    HandleExtends(h);
    ShadowedCountsZero(region, Table, h, h + 8, "Handle");
  }

  /** The `evaluateHandle` pattern of each half extends its `evaluate` pattern. */
  lemma HandleExtends(h: nat)
    requires h == 0 || h == |Methods|
    ensures Table[h + 8].pattern == Table[h].pattern + "Handle"
  {
    if h == 0 {
      AwaitHandleExtends();
    } else {
      SpaceHandleExtends();
    }
  }

  lemma AwaitHandleExtends()
    ensures Table[8].pattern == Table[0].pattern + "Handle"
  {
    EvaluateShadowsHandle();
    AwaitRule(0);
    AwaitRule(8);
    AppendAssoc("await page.", Methods[0], "Handle");
  }

  lemma SpaceHandleExtends()
    ensures Table[|Methods| + 8].pattern == Table[|Methods|].pattern + "Handle"
  {
    EvaluateShadowsHandle();
    SpaceRule(0);
    SpaceRule(8);
    AppendAssoc(" page.", Methods[0], "Handle");
  }

  lemma AppendAssoc(a: string, b: string, c: string)
    ensures a + (b + c) == a + b + c
  {
  }

  lemma TableNonEmpty()
    ensures NonEmptyPatterns(Table)
  {
    forall j | 0 <= j < |Table| ensures |Table[j].pattern| > 0 {
      PatternIsolated(j, j);
    }
  }
}
