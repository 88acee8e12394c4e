/**
 * `fix-single-tab.py` run on its own output does not always write back the
 * same text. In a region holding the tab comment, the navigation log and a
 * second tab comment, the first run cuts the first tab section; the second
 * run then finds the remaining tab comment after the navigation log, and
 * its cut, which starts at the comment and resumes at the earlier log,
 * writes that log a second time.
 */
module SingleTabRecut {
  import opened Wrappers
  import opened Text
  import opened Rewriter
  import opened PageMethods
  import opened Markers
  import opened Region
  import opened SingleTabMarkers
  import opened FixSingleTab
  import opened SingleTabRerun

  // ---------------------------------------------------------------------
  // Characters the markers lack

  /** The comment marker holds no `P`, `W` or `=`. */
  lemma InternalCommentLacks()
    ensures 'P' !in InternalComment && 'W' !in InternalComment && '=' !in InternalComment
  {
    var parts := InternalCommentParts;
    assert parts == ["// Internal", " submission", " function", " (can retry", " if frame", " detaches)"];
    PartsLack(parts);
  }

  /** The tab comment holds no `P`, `W` or `=`. */
  lemma TabStartLacks()
    ensures 'P' !in TabStart && 'W' !in TabStart && '=' !in TabStart
  {
    var parts := TabStartParts;
    assert parts == ["// Get", " or create", " the", " product-", "specific tab"];
    PartsLack(parts);
  }

  /** The navigation log holds no `P`, `W` or `=`. */
  lemma TabEndLacks()
    ensures 'P' !in TabEnd && 'W' !in TabEnd && '=' !in TabEnd
  {
    var parts := TabEndParts;
    assert parts == ["console.log(", "`\U{1F50D} Navigating", " \"${product", "Name}\" tab", " to channel", "...`);"];
    PartsLack(parts);
  }

  /** Pieces none of which holds `P`, `W` or `=` join into a text without them. */
  lemma PartsLack(parts: seq<string>)
    requires forall i :: 0 <= i < |parts| ==> 'P' !in parts[i] && 'W' !in parts[i] && '=' !in parts[i]
    ensures 'P' !in Join(parts) && 'W' !in Join(parts) && '=' !in Join(parts)
  {
    JoinLacks(parts, 'P');
    JoinLacks(parts, 'W');
    JoinLacks(parts, '=');
  }

  /** The exports marker ends with `=`, at index 15. */
  lemma ExportsHoldsEq()
    ensures |Exports| > 15 && Exports[15] == '='
  {
    var parts := ExportsParts;
    assert parts == ["module.", "exports ="];
    assert Join(parts[1..]) == "exports =" + Join(parts[2..]);
    assert Exports == "module." + ("exports =" + []);
  }

  // ---------------------------------------------------------------------
  // Where the tab markers can start

  /** No `co` starts inside the tab comment. */
  lemma TabStartNoStartCo()
    ensures NoStartIn(TabStart, "co")
  {
    assert Scan("// Get", 0, "co");
    TabStartNoSeamCoPieces1();
    TabStartNoSeamCoPieces2();
    ClearJoin(TabStartParts, 0, "co");
  }

  /** No `//` starts inside the navigation log. */
  lemma TabEndNoStartComment()
    ensures NoStartIn(TabEnd, "//")
  {
    assert Scan("console.log(", 0, "//");
    TabEndNoSeamCommentPieces1();
    TabEndNoSeamCommentPieces2();
    ClearJoin(TabEndParts, 0, "//");
  }

  /** The navigation log does not start inside the tab comment. */
  lemma TabStartClearOfEnd()
    ensures NoStartIn(TabStart, TabEnd)
  {
    TabEndOpens();
    TabStartNoStartCo();
    ClearLonger(TabStart, 0, "co", TabEnd);
  }

  /** The tab comment opens with `//`. */
  lemma TabStartOpensComment()
    ensures |TabStart| >= 2 && TabStart[..2] == "//"
  {
    TabStartOpens();
    assert TabStart[..2] == TabStart[..4][..2];
  }

  /** The tab comment does not start inside the navigation log. */
  lemma TabEndClearOfStart()
    ensures NoStartIn(TabEnd, TabStart)
  {
    TabStartOpensComment();
    TabEndNoStartComment();
    ClearLonger(TabEnd, 0, "//", TabStart);
  }

  /** Neither tab marker starts inside the other. */
  lemma TabMarkersClear()
    ensures NoStartIn(TabStart, TabEnd) && NoStartIn(TabEnd, TabStart)
  {
    TabStartClearOfEnd();
    TabEndClearOfStart();
  }

  /**
   * A text that can open the region in the files below: it opens with the
   * comment marker, holds no `P` (so no rule pattern), no `W` (so no wait
   * comment) and no `=` (so no exports marker), and neither tab marker
   * starts inside it.
   */
  ghost predicate Opener(h: string)
  {
    OccursAt(h, InternalComment, 0) && 'P' !in h && 'W' !in h && '=' !in h &&
    NoStartIn(h, TabStart) && NoStartIn(h, TabEnd)
  }

  /** The comment marker on its own is such a text. */
  lemma CommentIsOpener()
    ensures Opener(InternalComment)
  {
    assert InternalComment[0..|InternalComment|] == InternalComment;
    InternalCommentLacks();
    TabStartOpens();
    InternalCommentNoStartCommentG();
    ClearLonger(InternalComment, 0, "// G", TabStart);
    TabEndOpens();
    InternalCommentNoStartCo();
    ClearLonger(InternalComment, 0, "co", TabEnd);
  }

  // ---------------------------------------------------------------------
  // The steps of the transform on these regions

  /** A table made by `Retarget` leaves a region as it is when the region lacks a character of the common prefix. */
  lemma RetargetIdle(t: string, from: string, to: string, methods: seq<string>, j: nat)
    requires j < |from| && from[j] !in t
    ensures ApplyRules(t, Retarget(from, to, methods)) == t
  {
    var rules := Retarget(from, to, methods);
    forall k | 0 <= k < |rules|
      ensures Absent(t, rules[k].pattern)
    {
      assert rules[k].pattern == from + methods[k];
      assert (from + methods[k])[j] == from[j];
      CharAbsent(t, rules[k].pattern, j);
    }
    ApplyRulesNoop(t, rules);
  }

  /** A region without `P` holds no `productPage.` call, so the rules leave it as it is. */
  lemma RulesIdle(t: string)
    requires 'P' !in t
    ensures ApplyRules(t, Table) == t
  {
    RetargetIdle(t, "productPage.", "page.", Methods, 7);
  }

  /** A region without `W` holds no wait comment, so the wait splice is skipped. */
  lemma WaitIdle(t: string)
    requires 'W' !in t
    ensures ExciseWait(t) == t
  {
    WaitStartOpens();
    assert WaitStart[3] == WaitStart[..4][3];
    CharAbsent(t, WaitStart, 3);
  }

  /** In `h + a + b + a`, the first `a` ends `h` and the first `b` follows it, when neither starts where it should not. */
  lemma FirstFinds(h: string, a: string, b: string)
    requires NoStartIn(h, a) && NoStartIn(h, b) && NoStartIn(a, b)
    ensures Find(h + a + b + a, a, 0) == Some(|h|)
    ensures Find(h + a + b + a, b, 0) == Some(|h| + |a|)
  {
    ClearAppend(h, a, 0, b);
    assert h + a + b + a == h + a + (b + a);
    FirstAfterCall(h, a, b + a);
    FirstAfterCall(h + a, b, a);
  }

  /** The tab excision with its two markers as parameters. */
  function CutBetween(region: string, startMarker: string, endMarker: string): string
  {
    match (Find(region, startMarker, 0), Find(region, endMarker, 0))
    case (Some(s), Some(e)) => region[..s] + region[e..]
    case _ => region
  }

  /** `ExciseTab` is `CutBetween` on the two tab markers. */
  lemma ExciseTabIsCut(region: string)
    ensures ExciseTab(region) == CutBetween(region, TabStart, TabEnd)
  {
  }

  /** Cutting `h + a + b + a` between `a` and `b` leaves `h + b + a`. */
  lemma FirstCutOf(h: string, a: string, b: string)
    requires NoStartIn(h, a) && NoStartIn(h, b) && NoStartIn(a, b)
    ensures CutBetween(h + a + b + a, a, b) == h + b + a
  {
    FirstFinds(h, a, b);
    FirstSlices(h, a, b);
  }

  /** Cutting `h + b + a` between `a` and `b` writes `b` twice. */
  lemma SecondCutOf(h: string, a: string, b: string)
    requires NoStartIn(h, a) && NoStartIn(h, b) && NoStartIn(b, a)
    ensures CutBetween(h + b + a, a, b) == h + b + b + a
  {
    SecondFinds(h, a, b);
    SecondSlices(h, a, b);
  }

  /** Cutting `h + a + b + a` from the end of `h` to the `b` leaves `h + b + a`. */
  lemma FirstSlices(h: string, a: string, b: string)
    ensures var r := h + a + b + a; r[..|h|] + r[|h| + |a|..] == h + b + a
  {
    var r := h + a + b + a;
    assert r[..|h|] == h;
    assert r[|h| + |a|..] == b + a;
  }

  /** The first cut drops the tab comment up to the navigation log. */
  lemma FirstCut(h: string)
    requires NoStartIn(h, TabStart) && NoStartIn(h, TabEnd)
    ensures ExciseTab(h + TabStart + TabEnd + TabStart) == h + TabEnd + TabStart
  {
    TabMarkersClear();
    FirstCutOf(h, TabStart, TabEnd);
    ExciseTabIsCut(h + TabStart + TabEnd + TabStart);
  }

  /** In `h + b + a`, the first `a` follows the `b` and the first `b` ends `h`, when neither starts where it should not. */
  lemma SecondFinds(h: string, a: string, b: string)
    requires NoStartIn(h, a) && NoStartIn(h, b) && NoStartIn(b, a)
    ensures Find(h + b + a, a, 0) == Some(|h| + |b|)
    ensures Find(h + b + a, b, 0) == Some(|h|)
  {
    ClearAppend(h, b, 0, a);
    assert h + b + a == h + b + a + [];
    FirstAfterCall(h + b, a, []);
    FirstAfterCall(h, b, a);
  }

  /** Cutting `h + b + a` from the end of `b` back to the start of `b` writes `b` twice. */
  lemma SecondSlices(h: string, a: string, b: string)
    ensures var r := h + b + a; r[..|h| + |b|] + r[|h|..] == h + b + b + a
  {
    var r := h + b + a;
    assert r[..|h| + |b|] == h + b;
    assert r[|h|..] == b + a;
  }

  /** The second cut finds the navigation log before the tab comment and keeps it twice. */
  lemma SecondCut(h: string)
    requires NoStartIn(h, TabStart) && NoStartIn(h, TabEnd)
    ensures ExciseTab(h + TabEnd + TabStart) == h + TabEnd + TabEnd + TabStart
  {
    TabMarkersClear();
    SecondCutOf(h, TabStart, TabEnd);
    ExciseTabIsCut(h + TabEnd + TabStart);
  }

  /** A region without `P` whose tab excision leaves no `W` is rewritten by that excision alone. */
  lemma TransformIsCut(t: string, y: string)
    requires 'P' !in t && ExciseTab(t) == y && 'W' !in y
    ensures Transform(t) == y
  {
    RulesIdle(t);
    WaitIdle(y);
  }

  /** `Transform` on `h + a + b + a`, when no piece holds `P` or `W` and the tab excision gives `h + b + a`. */
  lemma FirstTransformOf(h: string, a: string, b: string)
    requires 'P' !in h && 'P' !in a && 'P' !in b && 'W' !in h && 'W' !in a && 'W' !in b
    requires ExciseTab(h + a + b + a) == h + b + a
    ensures Transform(h + a + b + a) == h + b + a
  {
    TransformIsCut(h + a + b + a, h + b + a);
  }

  /** `Transform` on `h + b + a`, when no piece holds `P` or `W` and the tab excision gives `h + b + b + a`. */
  lemma SecondTransformOf(h: string, a: string, b: string)
    requires 'P' !in h && 'P' !in a && 'P' !in b && 'W' !in h && 'W' !in a && 'W' !in b
    requires ExciseTab(h + b + a) == h + b + b + a
    ensures Transform(h + b + a) == h + b + b + a
  {
    TransformIsCut(h + b + a, h + b + b + a);
  }

  /** The whole rewrite of the first region is the first cut. */
  lemma FirstTransform(h: string)
    requires Opener(h)
    ensures Transform(h + TabStart + TabEnd + TabStart) == h + TabEnd + TabStart
  {
    TabStartLacks();
    TabEndLacks();
    FirstCut(h);
    FirstTransformOf(h, TabStart, TabEnd);
  }

  /** The whole rewrite of the second region is the second cut. */
  lemma SecondTransform(h: string)
    requires Opener(h)
    ensures Transform(h + TabEnd + TabStart) == h + TabEnd + TabEnd + TabStart
  {
    TabStartLacks();
    TabEndLacks();
    SecondCut(h);
    SecondTransformOf(h, TabStart, TabEnd);
  }

  // ---------------------------------------------------------------------
  // The whole script

  /** A file whose region starts at its first character ends it at the first exports marker. */
  lemma LocateAtFront(content: string, e: nat)
    requires FunctionStart(content) == Some(0) && Find(content, Exports, 0) == Some(e)
    ensures Locate(content) == Some(Bounds(0, e))
  {
    LocateFrom(content, 0, e);
  }

  /** The script on a file whose region starts at its first character. */
  lemma PatchAtFront(content: string, e: nat)
    requires Locate(content) == Some(Bounds(0, e))
    ensures Patch(content) == Some(Reassemble(content, Bounds(0, e), Transform(content[0..e])))
  {
  }

  /** Rebuilding a file around a region at its front keeps only what follows the region. */
  lemma ReassembleAtFront(content: string, e: nat, x: string)
    requires e <= |content|
    ensures Reassemble(content, Bounds(0, e), x) == x + content[e..]
  {
    assert content[..0] == [];
  }

  /** A file opening with the comment marker has its region start at its first character. */
  lemma StartsAtComment(t: string, rest: string)
    requires OccursAt(t, InternalComment, 0)
    ensures FunctionStart(t + rest) == Some(0)
  {
    OccursInConcat(t, rest, InternalComment, 0);
    FindIsFirst(t + rest, InternalComment, 0, 0);
  }

  /** In a text without the character at `x[j]`, a marker `x` that cannot run into itself is found first right after the text. */
  lemma MarkerAfter(t: string, x: string, j: nat)
    requires j < |x| && x[j] !in t && NoSeam(x, x)
    ensures Find(t + x, x, 0) == Some(|t|)
  {
    CharAbsent(t, x, j);
    assert [] + t + x == t + x;
    assert x[0..|x|] == x;
    FindAcross([], t, x, x);
  }

  /** In a text without `=`, the exports marker after it is the first one. */
  lemma ExportsAfter(t: string)
    requires '=' !in t
    ensures Find(t + Exports, Exports, 0) == Some(|t|)
  {
    ExportsHoldsEq();
    ExportsNoSelfSeam();
    MarkerAfter(t, Exports, 15);
  }

  /** The region and the marker after it, taken apart again. */
  lemma FrontSlices(t: string, x: string)
    ensures (t + x)[0..|t|] == t && (t + x)[|t|..] == x
  {
  }

  /** A file made of a region that opens with the comment marker and holds no `=`, then the exports marker, is patched in that region. */
  lemma PatchWrapped(t: string)
    requires OccursAt(t, InternalComment, 0) && '=' !in t
    ensures Patch(t + Exports) == Some(Transform(t) + Exports)
  {
    StartsAtComment(t, Exports);
    ExportsAfter(t);
    LocateAtFront(t + Exports, |t|);
    PatchAtFront(t + Exports, |t|);
    FrontSlices(t, Exports);
    ReassembleAtFront(t + Exports, |t|, Transform(t));
  }

  /** The script on `h + a + b + a` and the exports marker, when the region rewrites to `h + b + a`. */
  lemma FirstRunOf(h: string, a: string, b: string)
    requires OccursAt(h, InternalComment, 0) && '=' !in h && '=' !in a && '=' !in b
    requires Transform(h + a + b + a) == h + b + a
    ensures Patch(h + a + b + a + Exports) == Some(h + b + a + Exports)
  {
    OccursInConcat(h, a, InternalComment, 0);
    OccursInConcat(h + a, b, InternalComment, 0);
    OccursInConcat(h + a + b, a, InternalComment, 0);
    PatchWrapped(h + a + b + a);
  }

  /** The script on `h + b + a` and the exports marker, when the region rewrites to `h + b + b + a`. */
  lemma SecondRunOf(h: string, a: string, b: string)
    requires OccursAt(h, InternalComment, 0) && '=' !in h && '=' !in a && '=' !in b
    requires Transform(h + b + a) == h + b + b + a
    ensures Patch(h + b + a + Exports) == Some(h + b + b + a + Exports)
  {
    OccursInConcat(h, b, InternalComment, 0);
    OccursInConcat(h + b, a, InternalComment, 0);
    PatchWrapped(h + b + a);
  }

  /** The first run cuts the first tab section. */
  lemma FirstRun(h: string)
    requires Opener(h)
    ensures Patch(h + TabStart + TabEnd + TabStart + Exports) == Some(h + TabEnd + TabStart + Exports)
  {
    TabStartLacks();
    TabEndLacks();
    FirstTransform(h);
    FirstRunOf(h, TabStart, TabEnd);
  }

  /** The run on that output cuts again, from the tab comment back to the navigation log before it. */
  lemma SecondRun(h: string)
    requires Opener(h)
    ensures Patch(h + TabEnd + TabStart + Exports) == Some(h + TabEnd + TabEnd + TabStart + Exports)
  {
    TabStartLacks();
    TabEndLacks();
    SecondTransform(h);
    SecondRunOf(h, TabStart, TabEnd);
  }

  /** A start marker found again after the first end marker breaks `EndsLast`. */
  lemma StartAfterEnd(t: string, a: string, b: string, e: nat)
    requires Find(t, b, 0) == Some(e) && OccursAt(t, a, e + |b|)
    ensures !EndsLast(t, a, b)
  {
  }

  /** In `h + a + b + a`, the second `a` sits right after the `b`. */
  lemma SecondStart(h: string, a: string, b: string)
    ensures OccursAt(h + a + b + a, a, |h| + |a| + |b|)
  {
    var r := h + a + b + a;
    assert r[|h| + |a| + |b|..|h| + |a| + |b| + |a|] == a;
  }

  /** `h + a + b + a` holds an `a` after its first `b`. */
  lemma FirstEndsEarlyOf(h: string, a: string, b: string)
    requires NoStartIn(h, a) && NoStartIn(h, b) && NoStartIn(a, b)
    ensures !EndsLast(h + a + b + a, a, b)
  {
    FirstFinds(h, a, b);
    SecondStart(h, a, b);
    StartAfterEnd(h + a + b + a, a, b, |h| + |a|);
  }

  /** The first region has a tab comment after its navigation log, so it does not meet the condition of `PatchIdempotent`. */
  lemma FirstRegionEndsEarly(h: string)
    requires Opener(h)
    ensures !ExcisesOnce(h + TabStart + TabEnd + TabStart)
  {
    TabStartLacks();
    TabEndLacks();
    RulesIdle(h + TabStart + TabEnd + TabStart);
    TabMarkersClear();
    FirstEndsEarlyOf(h, TabStart, TabEnd);
  }

  /** A text with `b` written twice is longer than with `b` written once. */
  lemma TwiceDiffers(h: string, a: string, b: string, x: string)
    requires |b| > 0
    ensures h + b + b + a + x != h + b + a + x
  {
    assert |h + b + b + a + x| == |h + b + a + x| + |b|;
  }

  /**
   * A file whose region holds the tab comment, the navigation log and a
   * second tab comment: the first run cuts the first tab section, and a
   * run on its output cuts again, writing the navigation log a second
   * time. The region does not meet the condition of `PatchIdempotent`,
   * and the second run does not write back the same text.
   */
  lemma SecondRunCutsAgain(h: string)
    requires Opener(h)
    ensures !ExcisesOnce(h + TabStart + TabEnd + TabStart)
    ensures Patch(h + TabStart + TabEnd + TabStart + Exports) == Some(h + TabEnd + TabStart + Exports)
    ensures Patch(h + TabEnd + TabStart + Exports) == Some(h + TabEnd + TabEnd + TabStart + Exports)
    ensures h + TabEnd + TabEnd + TabStart + Exports != h + TabEnd + TabStart + Exports
  {
    FirstRegionEndsEarly(h);
    FirstRun(h);
    SecondRun(h);
    TabEndOpens();
    TwiceDiffers(h, TabStart, TabEnd, Exports);
  }

  /** The smallest such file: the region is the comment marker followed by the three sections. */
  lemma CommentCutsAgain()
    ensures Patch(InternalComment + TabStart + TabEnd + TabStart + Exports) == Some(InternalComment + TabEnd + TabStart + Exports)
    ensures Patch(InternalComment + TabEnd + TabStart + Exports) == Some(InternalComment + TabEnd + TabEnd + TabStart + Exports)
  {
    CommentIsOpener();
    SecondRunCutsAgain(InternalComment);
  }
}
