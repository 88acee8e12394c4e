/**
 * Running `fix-single-tab.py` on its own output: the region is found at the
 * same place, no rule pattern is left to rewrite, and both excisions find
 * nothing to cut, so the second run writes back the same text, provided each
 * excision start marker lies before its end marker in the first run.
 */
module SingleTabRerun {
  import opened Wrappers
  import opened Text
  import opened Rewriter
  import opened PageMethods
  import opened Markers
  import opened Region
  import opened SingleTabMarkers
  import opened FixSingleTab

  /** No `startMarker` occurs at or after the first `endMarker`: the excision leaves none behind. */
  predicate EndsLast(text: string, startMarker: string, endMarker: string)
  {
    match Find(text, endMarker, 0)
    case None => true
    case Some(e) => Find(text, startMarker, e) == None
  }

  // ---------------------------------------------------------------------
  // Openings of the markers

  lemma TabEndOpens()
    ensures |TabEnd| >= 4 && TabEnd[..2] == "co" && TabEnd[..4] == "cons"
  {
    assert TabEnd[..12] == "console.log(";
  }

  lemma WaitEndOpens()
    ensures |WaitEnd| >= 4 && WaitEnd[..2] == "co" && WaitEnd[..4] == "cons"
  {
  }

  lemma NoWaitCommentOpens()
    ensures |NoWaitComment| >= 2 && NoWaitComment[..2] == "//"
  {
    assert NoWaitComment[..5] == "// No";
  }

  lemma TabStartOpens()
    ensures |TabStart| >= 4 && TabStart[..4] == "// G"
  {
    assert TabStart[..6] == "// Get";
  }

  lemma WaitStartOpens()
    ensures |WaitStart| >= 4 && WaitStart[..4] == "// W"
  {
    assert WaitStart[..7] == "// Wait";
  }

  // ---------------------------------------------------------------------
  // What each stage keeps

  /** Cutting between the first `sm` and the first `em` creates no `q` that cannot run into `em`. */
  lemma CutBetweenAbsent(t: string, s: nat, e: nat, q: string, sm: string, em: string)
    requires FirstAt(t, sm, 0, s) && FirstAt(t, em, 0, e)
    requires Absent(t, q) && NoSeam(q, em)
    ensures Absent(t[..s] + t[e..], q)
  {
    AbsentSlice(t, q, 0, s);
    AbsentSlice(t, q, e, |t|);
    assert t[..s] == t[0..s] && t[e..] == t[e..|t|];
    CutAbsent(t, s, e, q, em);
  }

  /** Splicing `c` between the first `sm` and the first `em` creates no `q` that `c` lacks and that can run into neither. */
  lemma SpliceBetweenAbsent(t: string, s: nat, e: nat, c: string, q: string, sm: string, em: string)
    requires FirstAt(t, sm, 0, s) && FirstAt(t, em, 0, e)
    requires Absent(t, q) && Absent(c, q) && NoSeam(q, c) && NoSeam(q, em)
    ensures Absent(t[..s] + c + t[e..], q)
  {
    AbsentSlice(t, q, 0, s);
    AbsentSlice(t, q, e, |t|);
    assert t[..s] == t[0..s] && t[e..] == t[e..|t|];
    SpliceAbsent(t, s, e, c, q, em);
  }

  /** The tab excision creates no marker that cannot run into the navigation log. */
  lemma ExciseTabKeepsAbsent(t: string, q: string)
    requires Absent(t, q) && NoSeam(q, TabEnd)
    ensures Absent(ExciseTab(t), q)
  {
    var fs, fe := Find(t, TabStart, 0), Find(t, TabEnd, 0);
    if fs.Some? && fe.Some? {
      FindIff(t, TabStart, 0, fs.value);
      FindIff(t, TabEnd, 0, fe.value);
      ExciseTabCuts(t, fs.value, fe.value);
      CutBetweenAbsent(t, fs.value, fe.value, q, TabStart, TabEnd);
    }
  }

  /** The wait excision creates no marker that the comment line lacks and that can run into neither the comment nor the completion log. */
  lemma ExciseWaitKeepsAbsent(t: string, q: string)
    requires Absent(t, q) && Absent(NoWaitComment, q)
    requires NoSeam(q, NoWaitComment) && NoSeam(q, WaitEnd)
    ensures Absent(ExciseWait(t), q)
  {
    var fs, fe := Find(t, WaitStart, 0), Find(t, WaitEnd, 0);
    if fs.Some? && fe.Some? {
      FindIff(t, WaitStart, 0, fs.value);
      FindIff(t, WaitEnd, 0, fe.value);
      ExciseWaitSplices(t, fs.value, fe.value);
      SpliceBetweenAbsent(t, fs.value, fe.value, NoWaitComment, q, WaitStart, WaitEnd);
    }
  }

  /** Cutting between the first `sm` and the first `em` keeps an opening `h` inside which `sm` cannot start. */
  lemma CutBetweenKeepsHead(t: string, h: string, s: nat, e: nat, sm: string, em: string)
    requires FirstAt(t, sm, 0, s) && FirstAt(t, em, 0, e)
    requires |h| <= |t| && t[..|h|] == h && NoStartIn(h, sm)
    ensures |h| <= |t[..s] + t[e..]| && (t[..s] + t[e..])[..|h|] == h
  {
    CutKeepsHead(t, h, s, sm, [], t[e..]);
    assert t[..s] + [] + t[e..] == t[..s] + t[e..];
  }

  /** A region that opens with `h` keeps that opening through the tab excision when the tab comment cannot start inside `h`. */
  lemma ExciseTabKeepsHead(t: string, h: string)
    requires |h| <= |t| && t[..|h|] == h && NoStartIn(h, TabStart)
    ensures |h| <= |ExciseTab(t)| && ExciseTab(t)[..|h|] == h
  {
    var fs, fe := Find(t, TabStart, 0), Find(t, TabEnd, 0);
    if fs.Some? && fe.Some? {
      FindIff(t, TabStart, 0, fs.value);
      FindIff(t, TabEnd, 0, fe.value);
      ExciseTabCuts(t, fs.value, fe.value);
      CutBetweenKeepsHead(t, h, fs.value, fe.value, TabStart, TabEnd);
    }
  }

  /** Likewise for the wait excision, when the wait comment cannot start inside `h`. */
  lemma ExciseWaitKeepsHead(t: string, h: string)
    requires |h| <= |t| && t[..|h|] == h && NoStartIn(h, WaitStart)
    ensures |h| <= |ExciseWait(t)| && ExciseWait(t)[..|h|] == h
  {
    var fs, fe := Find(t, WaitStart, 0), Find(t, WaitEnd, 0);
    if fs.Some? && fe.Some? {
      FindIff(t, WaitStart, 0, fs.value);
      FindIff(t, WaitEnd, 0, fe.value);
      ExciseWaitSplices(t, fs.value, fe.value);
      CutKeepsHead(t, h, fs.value, WaitStart, NoWaitComment, t[fe.value..]);
    }
  }

  /** No `productPage.<m>` call can start inside an opening inside which `pr` cannot start. */
  lemma CallNoStartIn(h: string, k: nat)
    requires k < |Methods| && NoStartIn(h, "pr")
    ensures NoStartIn(h, "productPage." + Methods[k])
  {
    OpensWith("productPage.", Methods[k], "pr");
    ClearLonger(h, 0, "pr", "productPage." + Methods[k]);
  }

  lemma PatternNoStartIn(h: string, k: nat)
    requires k < |Table| && NoStartIn(h, "pr")
    ensures |Table[k].pattern| > 0 && NoStartIn(h, Table[k].pattern)
  {
    CallNoStartIn(h, k);
    TableRule(k);
  }

  /** The rule table never reaches into an opening inside which `pr` cannot start. */
  lemma RulesKeepHead(h: string, rest: string)
    requires NoStartIn(h, "pr")
    ensures ApplyRules(h + rest, Table) == h + ApplyRules(rest, Table)
  {
    forall k | 0 <= k < |Table|
      ensures |Table[k].pattern| > 0 && NoStartIn(h, Table[k].pattern)
    {
      PatternNoStartIn(h, k);
    }
    ApplyRulesKeepsHead(h, rest, Table);
  }

  /** A `page.<m>` call cannot form a marker that opens with `/` or `m` and cannot run into `pa`. */
  lemma CallIsolated(j: nat, q: string)
    requires j < |Methods| && NoSeam(q, "pa")
    requires |q| > 0 && (q[..1] == "/" || q[..1] == "m")
    ensures Isolated(q, "page." + Methods[j])
  {
    var qm := q[..1];
    assert qm[0] !in "page.";
    ClearByChar("page.", qm);
    OpensWith("page.", Methods[j], "pa");
    ClearLonger(q, 1, "pa", "page." + Methods[j]);
    CallClear("page.", j, 0, qm, qm, q);
  }

  lemma ReplacementIsolated(j: nat, q: string)
    requires j < |Table| && NoSeam(q, "pa")
    requires |q| > 0 && (q[..1] == "/" || q[..1] == "m")
    ensures |Table[j].pattern| > 0 && Isolated(q, Table[j].replacement)
  {
    CallIsolated(j, q);
    TableRule(j);
  }

  /** The rule table forms no marker that opens with `/` or `m` and cannot run into `pa`. */
  lemma RulesKeepAbsent(region: string, q: string)
    requires Absent(region, q) && NoSeam(q, "pa")
    requires |q| > 0 && (q[..1] == "/" || q[..1] == "m")
    ensures Absent(ApplyRules(region, Table), q)
  {
    forall j | 0 <= j < |Table|
      ensures |Table[j].pattern| > 0 && Isolated(q, Table[j].replacement)
    {
      ReplacementIsolated(j, q);
    }
    ApplyRulesKeepsAbsent(region, Table, q);
  }

  /** No `co` and no `//` can start inside `productPage.` past its first character. */
  lemma ProductPageClear()
    ensures ClearFrom("productPage.", 1, "co") && ClearFrom("productPage.", 1, "//")
  {
    assert Scan("productPage.", 6, "co");
    assert Scan("productPage.", 1, "co");
    ScanSound("productPage.", 1, "co");
    assert Scan("productPage.", 6, "//");
    assert Scan("productPage.", 1, "//");
    ScanSound("productPage.", 1, "//");
  }

  /** No `productPage.<m>` call can run into the navigation log or the completion log. */
  lemma CallNoSeamCo(k: nat)
    requires k < |Methods|
    ensures NoSeam("productPage." + Methods[k], "co")
  {
    ProductPageClear();
    CallClear("productPage.", k, 1, "co", "co", "co");
  }

  /** No `productPage.<m>` call can run into the spliced comment line. */
  lemma CallNoSeamComment(k: nat)
    requires k < |Methods|
    ensures NoSeam("productPage." + Methods[k], "//")
  {
    ProductPageClear();
    CallClear("productPage.", k, 1, "//", "/", "//");
  }

  /** The spliced comment line holds no rule pattern. */
  lemma CommentHasNoPattern(k: nat)
    requires k < |Table|
    ensures Absent(NoWaitComment, Table[k].pattern)
  {
    NoWaitCommentNoStartPr();
    PatternNoStartIn(NoWaitComment, k);
    NoStartAbsent(NoWaitComment, Table[k].pattern);
  }

  /** Both excisions keep out a marker that the comment line lacks and that can run into neither `co` nor `//`. */
  lemma ExcisionsKeepAbsent(t: string, q: string)
    requires Absent(t, q) && Absent(NoWaitComment, q)
    requires NoSeam(q, "co") && NoSeam(q, "//")
    ensures Absent(ExciseWait(ExciseTab(t)), q)
  {
    TabEndOpens();
    WaitEndOpens();
    NoWaitCommentOpens();
    ClearLonger(q, 1, "co", TabEnd);
    ClearLonger(q, 1, "co", WaitEnd);
    ClearLonger(q, 1, "//", NoWaitComment);
    ExciseTabKeepsAbsent(t, q);
    ExciseWaitKeepsAbsent(ExciseTab(t), q);
  }

  /** The whole region rewrite forms no marker that opens with `/` or `m`, lacks from the comment line, and can run into none of `pa`, `co`, `//`. */
  lemma TransformKeepsAbsent(region: string, q: string)
    requires Absent(region, q) && Absent(NoWaitComment, q)
    requires |q| > 0 && (q[..1] == "/" || q[..1] == "m")
    requires NoSeam(q, "pa") && NoSeam(q, "co") && NoSeam(q, "//")
    ensures Absent(Transform(region), q)
  {
    RulesKeepAbsent(region, q);
    ExcisionsKeepAbsent(ApplyRules(region, Table), q);
  }

  /** A rule pattern gone after the table stays gone through both excisions. */
  lemma PatternStaysGone(t: string, k: nat)
    requires k < |Table| && Absent(t, Table[k].pattern)
    ensures Absent(ExciseWait(ExciseTab(t)), Table[k].pattern)
  {
    TableRule(k);
    CallNoSeamCo(k);
    CallNoSeamComment(k);
    CommentHasNoPattern(k);
    ExcisionsKeepAbsent(t, Table[k].pattern);
  }

  /** After the whole region rewrite no `productPage.<m>` pattern is left. */
  lemma TransformRemovesAll(region: string)
    ensures forall k :: 0 <= k < |Table| ==> Absent(Transform(region), Table[k].pattern)
  {
    RewriteRemovesAll(region);
    forall k | 0 <= k < |Table|
      ensures Absent(Transform(region), Table[k].pattern)
    {
      PatternStaysGone(ApplyRules(region, Table), k);
    }
  }

  /** The whole region rewrite keeps an opening `h` inside which neither `pr` nor either excision comment can start. */
  lemma TransformKeepsHead(region: string, h: string)
    requires |h| <= |region| && region[..|h|] == h
    requires NoStartIn(h, "pr") && NoStartIn(h, "// G") && NoStartIn(h, "// W")
    ensures |h| <= |Transform(region)| && Transform(region)[..|h|] == h
  {
    assert region == h + region[|h|..];
    RulesKeepHead(h, region[|h|..]);
    var r1 := ApplyRules(region, Table);
    assert r1[..|h|] == h;
    TabStartOpens();
    WaitStartOpens();
    ClearLonger(h, 0, "// G", TabStart);
    ClearLonger(h, 0, "// W", WaitStart);
    ExciseTabKeepsHead(r1, h);
    ExciseWaitKeepsHead(ExciseTab(r1), h);
  }

  // ---------------------------------------------------------------------
  // A second run of the excisions

  /** Cutting between the first `sm` and the first `em` leaves no `sm` when none follows that `em`. */
  lemma CutSettles(t: string, s: nat, e: nat, sm: string, em: string)
    requires |sm| > 0 && FirstAt(t, sm, 0, s) && FirstAt(t, em, 0, e)
    requires Find(t, sm, e) == None && NoSeam(sm, em)
    ensures Absent(t[..s] + t[e..], sm)
  {
    FindIff(t, sm, 0, s);
    AbsentBetween(t, sm, 0, s);
    AbsentAfter(t, sm, e);
    assert t[..s] == t[0..s];
    CutAbsent(t, s, e, sm, em);
  }

  /** Splicing `c` between the first `sm` and the first `em` leaves no `sm` when none follows that `em` and `c` adds none. */
  lemma SpliceSettles(t: string, s: nat, e: nat, c: string, sm: string, em: string)
    requires |sm| > 0 && FirstAt(t, sm, 0, s) && FirstAt(t, em, 0, e)
    requires Find(t, sm, e) == None && NoSeam(sm, em)
    requires Absent(c, sm) && NoSeam(sm, c)
    ensures Absent(t[..s] + c + t[e..], sm)
  {
    FindIff(t, sm, 0, s);
    AbsentBetween(t, sm, 0, s);
    AbsentAfter(t, sm, e);
    assert t[..s] == t[0..s];
    SpliceAbsent(t, s, e, c, sm, em);
  }

  /** After the tab excision, either no tab comment or no navigation log is left, when no tab comment follows the log. */
  lemma ExciseTabSettles(t: string)
    requires EndsLast(t, TabStart, TabEnd)
    ensures Absent(ExciseTab(t), TabStart) || Absent(ExciseTab(t), TabEnd)
  {
    var fs, fe := Find(t, TabStart, 0), Find(t, TabEnd, 0);
    if fs.Some? && fe.Some? {
      FindIff(t, TabStart, 0, fs.value);
      FindIff(t, TabEnd, 0, fe.value);
      ExciseTabCuts(t, fs.value, fe.value);
      TabStartOpens();
      TabEndOpens();
      TabStartNoSeamCo();
      ClearLonger(TabStart, 1, "co", TabEnd);
      CutSettles(t, fs.value, fe.value, TabStart, TabEnd);
    }
  }

  /** After the wait excision, either no wait comment or no completion log is left, when no wait comment follows the log. */
  lemma ExciseWaitSettles(t: string)
    requires EndsLast(t, WaitStart, WaitEnd)
    ensures Absent(ExciseWait(t), WaitStart) || Absent(ExciseWait(t), WaitEnd)
  {
    var fs, fe := Find(t, WaitStart, 0), Find(t, WaitEnd, 0);
    if fs.Some? && fe.Some? {
      FindIff(t, WaitStart, 0, fs.value);
      FindIff(t, WaitEnd, 0, fe.value);
      ExciseWaitSplices(t, fs.value, fe.value);
      WaitStartFacts();
      SpliceSettles(t, fs.value, fe.value, NoWaitComment, WaitStart, WaitEnd);
    }
  }

  /** The wait comment cannot run into the completion log or the comment line, and the comment line holds none. */
  lemma WaitStartFacts()
    ensures |WaitStart| > 0 && NoSeam(WaitStart, WaitEnd)
    ensures Absent(NoWaitComment, WaitStart) && NoSeam(WaitStart, NoWaitComment)
  {
    WaitStartOpens();
    WaitEndOpens();
    NoWaitCommentOpens();
    WaitStartNoSeamCons();
    ClearLonger(WaitStart, 1, "cons", WaitEnd);
    WaitStartNoSeamComment();
    ClearLonger(WaitStart, 1, "//", NoWaitComment);
    NoWaitCommentNoStartCommentW();
    ClearLonger(NoWaitComment, 0, "// W", WaitStart);
    NoStartAbsent(NoWaitComment, WaitStart);
  }

  /** A text without the tab comment keeps none through the wait excision. */
  lemma TabStartStaysGone(t: string)
    requires Absent(t, TabStart)
    ensures Absent(ExciseWait(t), TabStart)
  {
    TabStartOpens();
    WaitEndOpens();
    NoWaitCommentOpens();
    NoWaitCommentNoStartCommentG();
    ClearLonger(NoWaitComment, 0, "// G", TabStart);
    NoStartAbsent(NoWaitComment, TabStart);
    TabStartNoSeamComment();
    ClearLonger(TabStart, 1, "//", NoWaitComment);
    TabStartNoSeamCo();
    ClearLonger(TabStart, 1, "co", WaitEnd);
    ExciseWaitKeepsAbsent(t, TabStart);
  }

  /** A text without the navigation log keeps none through the wait excision. */
  lemma TabEndStaysGone(t: string)
    requires Absent(t, TabEnd)
    ensures Absent(ExciseWait(t), TabEnd)
  {
    TabEndOpens();
    WaitEndOpens();
    NoWaitCommentOpens();
    NoWaitCommentNoStartCons();
    ClearLonger(NoWaitComment, 0, "cons", TabEnd);
    NoStartAbsent(NoWaitComment, TabEnd);
    TabEndNoSeamComment();
    ClearLonger(TabEnd, 1, "//", NoWaitComment);
    TabEndNoSeamCo();
    ClearLonger(TabEnd, 1, "co", WaitEnd);
    ExciseWaitKeepsAbsent(t, TabEnd);
  }

  /**
   * The condition for a second run to change nothing: after the rules, no
   * tab comment follows the first navigation log, and after the tab
   * excision, no wait comment follows the first completion log.
   */
  predicate ExcisesOnce(region: string)
  {
    var r1 := ApplyRules(region, Table);
    EndsLast(r1, TabStart, TabEnd) && EndsLast(ExciseTab(r1), WaitStart, WaitEnd)
  }

  /** Rewriting a rewritten region again changes nothing. */
  lemma TransformSettles(region: string)
    requires ExcisesOnce(region)
    ensures Transform(Transform(region)) == Transform(region)
  {
    var r1 := ApplyRules(region, Table);
    var t := ExciseTab(r1);
    var x := Transform(region);
    TransformRemovesAll(region);
    ApplyRulesNoop(x, Table);
    ExciseTabSettles(r1);
    if Absent(t, TabStart) {
      TabStartStaysGone(t);
    } else {
      TabEndStaysGone(t);
    }
    assert ExciseTab(x) == x;
    ExciseWaitSettles(t);
  }

  // ---------------------------------------------------------------------
  // The whole script on its own output

  /** What keeps the comment marker at the head of the region through the rewrite. */
  lemma CommentHeadFacts()
    ensures NoStartIn(InternalComment, "pr") && NoStartIn(InternalComment, "// G")
    ensures NoStartIn(InternalComment, "// W") && NoStartIn(InternalComment, Exports)
  {
    InternalCommentNoStartPr();
    InternalCommentNoStartCommentG();
    InternalCommentNoStartCommentW();
    InternalCommentNoStartMo();
    ExportsOpens();
    ClearLonger(InternalComment, 0, "mo", Exports);
  }

  /** What keeps the signature at the head of the region through the rewrite. */
  lemma SignatureHeadFacts()
    ensures NoStartIn(Signature, "pr") && NoStartIn(Signature, "// G")
    ensures NoStartIn(Signature, "// W") && NoStartIn(Signature, Exports)
  {
    SignatureNoStartPr();
    SignatureNoStartSlash();
    ClearLonger(Signature, 0, "/", "// G");
    ClearLonger(Signature, 0, "/", "// W");
    SignatureNoStartMo();
    ExportsOpens();
    ClearLonger(Signature, 0, "mo", Exports);
  }

  /** The exports marker can be run into by no table pattern and by neither log. */
  lemma ExportsNoSeamProbes()
    ensures NoSeam(Exports, "pa") && NoSeam(Exports, "co") && NoSeam(Exports, "//")
  {
    ExportsNoSeam("pa");
    ExportsNoSeam("co");
    ExportsNoSeam("//");
  }

  /** The rewrite forms no exports marker. */
  lemma ExportsKeptOut(region: string)
    requires Absent(region, Exports)
    ensures Absent(Transform(region), Exports)
  {
    ExportsOpens();
    NoWaitCommentNoStartMo();
    ClearLonger(NoWaitComment, 0, "mo", Exports);
    NoStartAbsent(NoWaitComment, Exports);
    ExportsNoSeamProbes();
    TransformKeepsAbsent(region, Exports);
  }

  /** The rewrite forms no comment marker. */
  lemma CommentKeptOut(region: string)
    requires Absent(region, InternalComment)
    ensures Absent(Transform(region), InternalComment)
  {
    InternalCommentOpens();
    NoWaitCommentNoStartCommentI();
    ClearLonger(NoWaitComment, 0, "// I", InternalComment);
    NoStartAbsent(NoWaitComment, InternalComment);
    InternalCommentNoSeamPa();
    InternalCommentNoSeamCo();
    InternalCommentNoSeamComment();
    TransformKeepsAbsent(region, InternalComment);
  }

  /** With the comment marker, the rewritten region still opens with it. */
  lemma CommentRegionKept(content: string, b: Bounds)
    requires Within(b, content)
    requires OccursAt(content, InternalComment, b.start) && OccursAt(content, Exports, b.end)
    ensures var x := Transform(content[b.start..b.end]);
      |InternalComment| <= |x| && x[..|InternalComment|] == InternalComment
  {
    CommentHeadFacts();
    OpenerInside(content, InternalComment, Exports, b.start, b.end);
    TransformKeepsHead(content[b.start..b.end], InternalComment);
  }

  /** Without the comment marker, the rewritten region still opens with the signature and has no comment marker. */
  lemma SignatureRegionKept(content: string, b: Bounds)
    requires Within(b, content) && Absent(content, InternalComment)
    requires OccursAt(content, Signature, b.start) && OccursAt(content, Exports, b.end)
    ensures var x := Transform(content[b.start..b.end]);
      |Signature| <= |x| && x[..|Signature|] == Signature && Absent(x, InternalComment)
  {
    var region := content[b.start..b.end];
    SignatureHeadFacts();
    OpenerInside(content, Signature, Exports, b.start, b.end);
    TransformKeepsHead(region, Signature);
    AbsentSlice(content, InternalComment, b.start, b.end);
    CommentKeptOut(region);
  }

  /** The rewritten region has no exports marker. */
  lemma ExportsRegionKept(content: string, b: Bounds)
    requires Within(b, content) && Find(content, Exports, b.start) == Some(b.end)
    ensures Absent(Transform(content[b.start..b.end]), Exports)
  {
    ExportsOpens();
    AbsentBetween(content, Exports, b.start, b.end);
    ExportsKeptOut(content[b.start..b.end]);
  }

  /**
   * What the rewrite keeps of the markers: the region still opens with the
   * marker it started with, a missing comment marker stays missing, and no
   * exports marker appears.
   */
  ghost predicate KeepsMarkers(content: string, x: string)
  {
    OpensAsBefore(content, x) && Absent(x, Exports)
  }

  /** The rewrite of the located region keeps the markers. */
  lemma TransformKeepsMarkers(content: string, b: Bounds)
    requires Located(content, b)
    ensures KeepsMarkers(content, Transform(content[b.start..b.end]))
  {
    FindIff(content, Exports, b.start, b.end);
    if Find(content, InternalComment, 0).Some? {
      CommentRegionKept(content, b);
    } else {
      SignatureRegionKept(content, b);
    }
    ExportsRegionKept(content, b);
  }

  /** Run on its own output, the script finds a rewritten region that keeps the markers. */
  lemma LocateAgain(content: string, b: Bounds, x: string)
    requires Located(content, b) && KeepsMarkers(content, x)
    ensures Locate(Reassemble(content, b, x)) == Some(Bounds(b.start, b.start + |x|))
  {
    CommentSeams();
    StartAgain(content, b, x, Exports);
    ExportsFoundAgain(content, b, x);
    ReassembledLocated(content, b, x);
  }

  lemma ReassembledLocated(content: string, b: Bounds, x: string)
    requires Within(b, content)
    requires FunctionStart(Reassemble(content, b, x)) == Some(b.start)
    requires Find(Reassemble(content, b, x), Exports, b.start) == Some(b.start + |x|)
    ensures Locate(Reassemble(content, b, x)) == Some(Bounds(b.start, b.start + |x|))
  {
    LocateFrom(Reassemble(content, b, x), b.start, b.start + |x|);
  }

  /** A reassembled file whose region keeps the markers and is settled under the rewrite is written back unchanged. */
  lemma PatchAgain(content: string, b: Bounds, x: string)
    requires Located(content, b) && KeepsMarkers(content, x) && Transform(x) == x
    ensures Patch(Reassemble(content, b, x)) == Some(Reassemble(content, b, x))
  {
    LocateAgain(content, b, x);
    SettledAgain(content, b, x);
  }

  lemma SettledAgain(content: string, b: Bounds, x: string)
    requires Within(b, content) && Transform(x) == x
    requires Locate(Reassemble(content, b, x)) == Some(Bounds(b.start, b.start + |x|))
    ensures Patch(Reassemble(content, b, x)) == Some(Reassemble(content, b, x))
  {
    var o := Reassemble(content, b, x);
    var b2 := Bounds(b.start, b.start + |x|);
    assert o[b2.start..b2.end] == x;
    PatchSettled(o, b2);
  }

  /**
   * Running the script on its own output writes back the same text, when
   * each excision start marker lies before its end marker in the first run.
   */
  lemma PatchIdempotent(content: string)
    requires Locate(content).Some?
    requires var b := Locate(content).value; ExcisesOnce(content[b.start..b.end])
    ensures Patch(content).Some? && Patch(Patch(content).value) == Patch(content)
  {
    var b := Locate(content).value;
    var region := content[b.start..b.end];
    LocateParts(content, b);
    TransformKeepsMarkers(content, b);
    TransformSettles(region);
    PatchAgain(content, b, Transform(region));
  }
}
