/**
 * `fix-single-tab.py`: inside the `submitToSparxNowInternal` region, every
 * `productPage.<method>` call becomes `page.<method>`, the section that opens
 * a product tab is cut out, and the confirmation wait is replaced by a
 * comment; the text around the region is kept.
 */
module FixSingleTab {
  import opened Wrappers
  import opened Text
  import opened Rewriter
  import opened PageMethods
  import opened Markers
  import opened Region
  import opened SingleTabMarkers

  /** The replacement table: `productPage.<m>` becomes `page.<m>`, in the order of `Methods`. */
  const Table: seq<Rule> := Retarget("productPage.", "page.", Methods)

  /**
   * `func_start` and `func_end`: the end is the first `module.exports =` at
   * or after the start; `None` is the script's exit before anything is written.
   */
  function Locate(content: string): (r: Option<Bounds>)
    ensures r.Some? ==> Within(r.value, content)
  {
    match FunctionStart(content)
    case None => None
    case Some(s) =>
      match Find(content, Exports, s)
      case None => None
      case Some(e) => Some(Bounds(s, e))
  }

  /**
   * The region runs from the start marker the script chose to the first
   * exports marker at or after it; there is none when either is missing.
   */
  lemma LocateSpec(content: string)
    ensures Locate(content).Some? ==>
      var b := Locate(content).value;
      Some(b.start) == FunctionStart(content) && FirstAt(content, Exports, b.start, b.end)
    ensures Locate(content).None? <==>
      FunctionStart(content).None? ||
      (forall i :: FunctionStart(content).value <= i ==> !OccursAt(content, Exports, i))
  {
    if FunctionStart(content).Some? {
      var s := FunctionStart(content).value;
      if Find(content, Exports, s).Some? {
        FindIff(content, Exports, s, Find(content, Exports, s).value);
      }
    }
  }

  /** `b` is made of the region start and the first exports marker from it. */
  ghost predicate Located(content: string, b: Bounds)
  {
    Within(b, content) && FunctionStart(content) == Some(b.start) && Find(content, Exports, b.start) == Some(b.end)
  }

  /** The bounds are made of the region start and the first exports marker from it. */
  lemma LocateParts(content: string, b: Bounds)
    requires Locate(content) == Some(b)
    ensures Located(content, b)
  {
  }

  lemma LocateFrom(content: string, s: nat, e: nat)
    requires FunctionStart(content) == Some(s) && Find(content, Exports, s) == Some(e)
    ensures Locate(content) == Some(Bounds(s, e))
  {
  }

  /**
   * The tab excision. Both markers are searched from the start of the
   * region; when both are found, the text from the first marker up to the
   * navigation log is dropped.
   */
  function ExciseTab(region: string): (r: string)
    ensures Absent(region, TabStart) || Absent(region, TabEnd) ==> r == region
  {
    match (Find(region, TabStart, 0), Find(region, TabEnd, 0))
    case (Some(s), Some(e)) => region[..s] + region[e..]
    case _ => region
  }

  /** Python's `s[i:]` for a non-negative `i`: empty once `i` passes the end. */
  function SliceFrom(s: string, i: nat): (r: string)
    ensures i <= |s| ==> r == s[i..]
    ensures i > |s| ==> r == []
  {
    if i <= |s| then s[i..] else []
  }

  /** `after_wait.find(Completion) + len(Completion)`, with Python's `-1` for a miss. */
  function CompletionEnd(afterWait: string): nat
  {
    match Find(afterWait, Completion, 0)
    case Some(k) => k + |Completion|
    case None => |Completion| - 1
  }

  /**
   * The wait excision: the text from the wait comment up to the completion
   * log is replaced by the literal comment-and-log-call, followed by what
   * comes after the completion text in the kept tail.
   */
  function ExciseWait(region: string): (r: string)
    ensures Absent(region, WaitStart) || Absent(region, WaitEnd) ==> r == region
  {
    match (Find(region, WaitStart, 0), Find(region, WaitEnd, 0))
    case (Some(ws), Some(we)) =>
      var afterWait := region[we..];
      region[..ws] + NoWaitInsert + SliceFrom(afterWait, CompletionEnd(afterWait))
    case _ => region
  }

  /** Everything the script does to the region text, in order. */
  function Transform(region: string): string
  {
    ExciseWait(ExciseTab(ApplyRules(region, Table)))
  }

  /**
   * The whole script on the file's text: `None` when the boundaries are not
   * found, otherwise the rebuilt file, which keeps the text before the
   * region and the text from the exports marker on.
   */
  function Patch(content: string): (r: Option<string>)
    ensures r.None? <==> Locate(content).None?
    ensures r.Some? ==> KeepsAround(content, Locate(content).value, r.value)
  {
    match Locate(content)
    case None => None
    case Some(b) => Some(Reassemble(content, b, Transform(content[b.start..b.end])))
  }

  /** A file whose located region the rewrite leaves unchanged is written back as it was. */
  lemma PatchSettled(content: string, b: Bounds)
    requires Locate(content) == Some(b) && Transform(content[b.start..b.end]) == content[b.start..b.end]
    ensures Patch(content) == Some(content)
  {
    ReassembleSame(content, b);
  }

  /** Lines that find `func_start` and `func_end`, as the script runs them. */
  method FindBoundaries(content: string) returns (b: Option<Bounds>)
    ensures b == Locate(content)
  {
    var funcStart := Find(content, InternalComment, 0);
    if funcStart.None? {
      funcStart := Find(content, Signature, 0);
    }
    if funcStart.None? {
      return None;
    }
    var funcEnd := Find(content, Exports, funcStart.value);
    if funcEnd.None? {
      return None;
    }
    b := Some(Bounds(funcStart.value, funcEnd.value));
  }

  /** The tab excision as the script runs it: both searches, then the cut when both succeed. */
  method RemoveTabSection(funcContent: string) returns (r: string)
    ensures r == ExciseTab(funcContent)
  {
    r := funcContent;
    var tabStart := Find(r, TabStart, 0);
    var tabEnd := Find(r, TabEnd, 0);
    if tabStart.Some? && tabEnd.Some? {
      r := r[..tabStart.value] + r[tabEnd.value..];
    }
  }

  /** The wait excision as the script runs it, including the search for the completion text. */
  method RemoveWaitSection(funcContent: string) returns (r: string)
    ensures r == ExciseWait(funcContent)
  {
    r := funcContent;
    var waitStart := Find(r, WaitStart, 0);
    var waitEnd := Find(r, WaitEnd, 0);
    if waitStart.Some? && waitEnd.Some? {
      var afterWait := r[waitEnd.value..];
      var found := Find(afterWait, Completion, 0);
      var cut: nat := if found.Some? then found.value + |Completion| else |Completion| - 1;
      r := r[..waitStart.value] + NoWaitInsert + SliceFrom(afterWait, cut);
    }
  }

  /**
   * The script, step by step: locate, rewrite with the table (reporting each
   * rule's count), cut the tab section, splice out the wait section, and
   * reassemble. `None` is the exit before the write.
   */
  method Run(content: string) returns (out: Option<string>, counts: seq<nat>)
    ensures out == Patch(content)
    ensures out.None? ==> counts == []
    ensures out.Some? ==>
      var b := Locate(content).value;
      counts == Counts(content[b.start..b.end], Table)
  {
    var bounds := FindBoundaries(content);
    if bounds.None? {
      return None, [];
    }
    var b := bounds.value;
    var beforeFunc := content[..b.start];
    var funcContent := content[b.start..b.end];
    var afterFunc := content[b.end..];
    ghost var region := funcContent;

    funcContent, counts := Rewrite(funcContent, Table);
    CountsAre(region, Table, counts);
    funcContent := RemoveTabSection(funcContent);
    funcContent := RemoveWaitSection(funcContent);

    out := Some(beforeFunc + funcContent + afterFunc);
    assert Patch(content) == Some(Reassemble(content, b, Transform(region)));
  }

  // ---------------------------------------------------------------------
  // The rule table

  lemma TableRule(i: nat)
    requires i < |Table|
    ensures Table[i] == Rule("productPage." + Methods[i], "page." + Methods[i])
    ensures |Table[i].replacement| - |Table[i].pattern| == -7
  {
  }

  /** No pattern of the table can be recreated by a replacement of the same or a later rule. */
  lemma {:induction false} PatternIsolated(k: nat, j: nat)
    requires k < |Table| && j < |Table|
    ensures Isolated(Table[k].pattern, Table[j].replacement)
  {
    TableRule(k);
    TableRule(j);
    CallPairIsolated(k, j);
  }

  /** No `page.<m'>` call can form or run into a `productPage.<m>` call. */
  lemma CallPairIsolated(k: nat, j: nat)
    requires k < |Methods| && j < |Methods|
    ensures Isolated("productPage." + Methods[k], "page." + Methods[j])
  {
    PrefixFacts();
    CallsIsolated("productPage.", k, "page.", j, "pa", "pa", "pr", "pr");
  }

  lemma PrefixFacts()
    ensures NoSeam("productPage.", "pa") && NoStartIn("page.", "pr")
  {
    assert Scan("productPage.", 1, "pa");
    ScanSound("productPage.", 1, "pa");
    assert Scan("page.", 0, "pr");
    ScanSound("page.", 0, "pr");
  }

  /** Each occurrence a rule rewrites shortens the region by `|"productPage"| - |"page"|` = 7. */
  lemma RewriteShrinks(region: string)
    ensures |ApplyRules(region, Table)| == |region| - 7 * Sum(Counts(region, Table))
  {
    forall i | 0 <= i < |Table|
      ensures |Table[i].replacement| - |Table[i].pattern| == -7
    {
      TableRule(i);
    }
    ApplyRulesLength(region, Table, -7);
  }

  /** After the loop no `productPage.<m>` pattern of the table is left in the region. */
  lemma RewriteRemovesAll(region: string)
    ensures forall k :: 0 <= k < |Table| ==> Absent(ApplyRules(region, Table), Table[k].pattern)
  {
    forall k | 0 <= k < |Table|
      ensures Absent(ApplyRules(region, Table), Table[k].pattern)
    {
      forall j | k <= j < |Table|
        ensures Isolated(Table[k].pattern, Table[j].replacement)
      {
        PatternIsolated(k, j);
      }
      ApplyRulesRemoves(region, Table, k);
    }
  }

  /**
   * `productPage.evaluate` runs first and is a prefix of
   * `productPage.evaluateHandle`, so the last rule never finds anything.
   */
  lemma EvaluateHandleNeverCounts(region: string)
    ensures Counts(region, Table)[8] == 0
  {
    var init := Table[..8];
    forall j | 0 <= j < |init|
      ensures Isolated(init[0].pattern, init[j].replacement)
    {
      PatternIsolated(0, j);
    }
    ApplyRulesRemoves(region, init, 0);
    var t := ApplyRules(region, init);
    TableRule(0);
    TableRule(8);
    EvaluateShadowsHandle();
    assert Table[8].pattern == [] + Table[0].pattern + "Handle";
    AbsentWithin(t, Table[0].pattern, [], "Handle");
    CountZeroIff(t, Table[8].pattern);
  }

  // ---------------------------------------------------------------------
  // The excisions

  /** The text `region[..s] + region[e..]` keeps the occurrence at `e` at index `s`, and duplicates `region[e..s]` when `e < s`. */
  lemma {:induction false} CutAt(region: string, s: nat, e: nat, q: string)
    requires s <= |region| && OccursAt(region, q, e)
    ensures OccursAt(region[..s] + region[e..], q, s)
    ensures s <= e ==> |region[..s] + region[e..]| == |region| - (e - s)
    ensures e < s ==> region[..s] + region[e..] == region[..e] + region[e..s] + region[e..s] + region[s..]
  {
    var r := region[..s] + region[e..];
    assert r[s..s + |q|] == region[e..e + |q|];
    if e < s {
      assert region[..s] == region[..e] + region[e..s];
      assert region[e..] == region[e..s] + region[s..];
    }
  }

  /**
   * When both tab markers are found, the region keeps the text before the
   * section and everything from the navigation log on; the log now sits
   * where the section began. The end marker is searched from the region
   * start, so an end before the start makes `region[e..s]` appear twice.
   */
  lemma {:induction false} ExciseTabCuts(region: string, s: nat, e: nat)
    requires FirstAt(region, TabStart, 0, s) && FirstAt(region, TabEnd, 0, e)
    ensures ExciseTab(region) == region[..s] + region[e..]
    ensures OccursAt(ExciseTab(region), TabEnd, s)
    ensures s <= e ==> |ExciseTab(region)| == |region| - (e - s)
    ensures e < s ==> ExciseTab(region) == region[..e] + region[e..s] + region[e..s] + region[s..]
  {
    FindIff(region, TabStart, 0, s);
    FindIff(region, TabEnd, 0, e);
    CutAt(region, s, e, TabEnd);
  }

  /** In `call + c + rest`, the first `c` is the one right after `call` when no `c` starts inside `call`. */
  lemma {:induction false} FirstAfterCall(call: string, c: string, rest: string)
    requires NoStartIn(call, c)
    ensures Find(call + c + rest, c, 0) == Some(|call|)
  {
    var t := call + c + rest;
    assert t == call + (c + rest);
    assert OccursAt(t, c, |call|) by {
      assert t[|call|..|call| + |c|] == c;
    }
    forall i | 0 <= i < |call|
      ensures !OccursAt(t, c, i)
    {
      HeadAgrees(call, c + rest, c, i);
    }
    FindIsFirst(t, c, 0, |call|);
  }

  /**
   * When both wait markers are found, the section from the wait comment up
   * to the completion log becomes the comment line, and the completion log
   * and everything after it are kept verbatim.
   */
  lemma {:induction false} ExciseWaitSplices(region: string, ws: nat, we: nat)
    requires FirstAt(region, WaitStart, 0, ws) && FirstAt(region, WaitEnd, 0, we)
    ensures ExciseWait(region) == region[..ws] + NoWaitComment + region[we..]
  {
    FindIff(region, WaitStart, 0, ws);
    FindIff(region, WaitEnd, 0, we);
    var afterWait := region[we..];
    assert ExciseWait(region) == region[..ws] + NoWaitInsert + SliceFrom(afterWait, CompletionEnd(afterWait));
    TailOpens(region, WaitEnd, we);
    CompletionEndAfterCall(afterWait);
    InsertRestores(region[..ws], NoWaitInsert, NoWaitComment, WaitEnd, afterWait);
  }

  /** The tail from an occurrence of `q` opens with `q`. */
  lemma TailOpens(s: string, q: string, e: nat)
    requires OccursAt(s, q, e)
    ensures |q| <= |s[e..]| && s[e..][..|q|] == q
  {
  }

  /** In a tail that opens with the completion log, the completion text ends where the log call's text ends. */
  lemma {:induction false} CompletionEndAfterCall(afterWait: string)
    requires |WaitEnd| <= |afterWait| && afterWait[..|WaitEnd|] == WaitEnd
    ensures CompletionEnd(afterWait) == |WaitEnd|
  {
    var rest := afterWait[|WaitEnd|..];
    assert afterWait == "console.log(" + Completion + rest;
    CompletionAfterCall();
    FirstAfterCall("console.log(", Completion, rest);
  }

  /** Splicing `comment + call` before what follows `call` gives back `comment` before the whole tail. */
  lemma InsertRestores(before: string, insert: string, comment: string, call: string, tail: string)
    requires insert == comment + call
    requires |call| <= |tail| && tail[..|call|] == call
    ensures before + insert + SliceFrom(tail, |call|) == before + comment + tail
  {
    assert tail == call + tail[|call|..];
  }
}
