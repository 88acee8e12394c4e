/**
 * `fix-bot-tabs.py` run on its own output. The table forms no marker and
 * reaches into neither start marker, so the second run finds the same
 * region start, the same end marker right after the rewritten region, and
 * no pattern left to rewrite: it writes back the same text.
 */
module BotTabRerun {
  import opened Wrappers
  import opened Text
  import opened Rewriter
  import opened PageMethods
  import opened Markers
  import opened Region
  import opened BotTabMarkers
  import opened FixBotTabs

  // ---------------------------------------------------------------------
  // What the rule table cannot touch

  /** Every pattern opens with `aw` or ` p`. */
  lemma PatternOpens(k: nat)
    requires k < |Table|
    ensures |Table[k].pattern| >= 2
    ensures Table[k].pattern[..2] == "aw" || Table[k].pattern[..2] == " p"
  {
    if k < |Methods| {
      AwaitPatternOpens(k);
    } else {
      SpacePatternOpens(k - |Methods|);
    }
  }

  lemma AwaitPatternOpens(k: nat)
    requires k < |Methods|
    ensures |Table[k].pattern| >= 2 && Table[k].pattern[..2] == "aw"
  {
    AwaitRule(k);
    PatternPrefixFacts();
    OpensWith("await page.", Methods[k], "aw");
  }

  lemma SpacePatternOpens(k: nat)
    requires k < |Methods|
    ensures |Table[|Methods| + k].pattern| >= 2 && Table[|Methods| + k].pattern[..2] == " p"
  {
    SpaceRule(k);
    PatternPrefixFacts();
    OpensWith(" page.", Methods[k], " p");
  }

  lemma PatternPrefixFacts()
    ensures |"await page."| >= 2 && "await page."[..2] == "aw"
    ensures |" page."| >= 2 && " page."[..2] == " p"
  {
  }

  lemma PatternNoStartIn(h: string, k: nat)
    requires k < |Table| && NoStartIn(h, "aw") && NoStartIn(h, " p")
    ensures |Table[k].pattern| > 0 && NoStartIn(h, Table[k].pattern)
  {
    PatternOpens(k);
    if Table[k].pattern[..2] == "aw" {
      ClearLonger(h, 0, "aw", Table[k].pattern);
    } else {
      ClearLonger(h, 0, " p", Table[k].pattern);
    }
  }

  /** No pattern holds an opening parenthesis. */
  lemma PatternLacksParen(k: nat)
    requires k < |Table|
    ensures '(' !in Table[k].pattern
  {
    TableSize();
    if k < |Methods| {
      AwaitPatternLacksParen(k);
    } else {
      SpacePatternLacksParen(k, k - |Methods|);
    }
  }

  lemma AwaitPatternLacksParen(k: nat)
    requires k < |Methods|
    ensures '(' !in Table[k].pattern
  {
    AwaitRule(k);
    PrefixesLackParen();
    CallLacksParen("await page.", k, Table[k].pattern);
  }

  lemma SpacePatternLacksParen(k: nat, i: nat)
    requires i < |Methods| && k == |Methods| + i
    ensures '(' !in Table[k].pattern
  {
    SpaceRuleAt(k, i);
    PrefixesLackParen();
    CallLacksParen(" page.", i, Table[k].pattern);
  }

  lemma PrefixesLackParen()
    ensures '(' !in "await page." && '(' !in " page."
  {
  }

  lemma CallLacksParen(prefix: string, i: nat, call: string)
    requires i < |Methods| && '(' !in prefix && call == prefix + Methods[i]
    ensures '(' !in call
  {
    MethodNoMarkChar(i);
  }

  /** Neither `aw` nor ` p` starts inside a call `(page.<m>`. */
  lemma ParenCallClear(i: nat)
    requires i < |Methods|
    ensures NoStartIn("(page." + Methods[i], "aw") && NoStartIn("(page." + Methods[i], " p")
  {
    assert Scan("(page.", 0, "aw");
    ScanSound("(page.", 0, "aw");
    CallClear("(page.", i, 0, "aw", "aw", "aw");
    ClearByChar("(page.", " ");
    CallClear("(page.", i, 0, " ", " ", " p");
  }

  /**
   * A call on `page` right after an opening parenthesis is not rewritten,
   * and the text on either side of it is rewritten as if on its own: only
   * a `page.` after a space is a match.
   */
  lemma ParenthesizedCallKept(a: string, i: nat, b: string)
    requires i < |Methods|
    ensures Transform(a + ("(page." + Methods[i]) + b) == Transform(a) + ("(page." + Methods[i]) + Transform(b)
  {
    var w := "(page." + Methods[i];
    ParenCallClear(i);
    forall k | 0 <= k < |Table|
      ensures |Table[k].pattern| > 0 && NoSeam(Table[k].pattern, w) && NoStartIn(w, Table[k].pattern)
    {
      PatternNoStartIn(w, k);
      PatternLacksParen(k);
      ClearByChar(Table[k].pattern, w);
    }
    ApplyRulesAround(a, w, b, Table);
  }

  /** The rule table never reaches into an opening inside which neither `aw` nor ` p` can start. */
  lemma RulesKeepHead(h: string, rest: string)
    requires NoStartIn(h, "aw") && NoStartIn(h, " p")
    ensures Transform(h + rest) == h + Transform(rest)
  {
    forall k | 0 <= k < |Table|
      ensures |Table[k].pattern| > 0 && NoStartIn(h, Table[k].pattern)
    {
      PatternNoStartIn(h, k);
    }
    ApplyRulesKeepsHead(h, rest, Table);
  }

  /** A call `rp + <m>` cannot form a marker whose first character `rp` lacks and that cannot run into the opening `qr` of `rp`. */
  lemma CallIsolated(q: string, rp: string, j: nat, qr: string)
    requires j < |Methods| && |q| > 0 && (q[..1] == "/" || q[..1] == "m") && q[0] !in rp
    requires |qr| <= |rp| && rp[..|qr|] == qr && NoSeam(q, qr)
    ensures Isolated(q, rp + Methods[j])
  {
    var qm := q[..1];
    ClearByChar(rp, qm);
    OpensWith(rp, Methods[j], qr);
    ClearLonger(q, 1, qr, rp + Methods[j]);
    CallClear(rp, j, 0, qm, qm, q);
  }

  lemma ReplacementIsolated(j: nat, q: string)
    requires j < |Table| && NoSeam(q, "aw") && NoSeam(q, " p")
    requires |q| > 0 && (q[..1] == "/" || q[..1] == "m")
    ensures |Table[j].pattern| > 0 && Isolated(q, Table[j].replacement)
  {
    TableNonEmpty();
    if j < |Methods| {
      AwaitReplacementIsolated(j, q);
    } else {
      SpaceReplacementIsolated(j, q);
    }
  }

  lemma AwaitReplacementIsolated(j: nat, q: string)
    requires j < |Methods| && NoSeam(q, "aw")
    requires |q| > 0 && (q[..1] == "/" || q[..1] == "m")
    ensures Isolated(q, Table[j].replacement)
  {
    AwaitRule(j);
    AwaitCallIsolated(j, q);
  }

  /**
   * An `await productPage.<m>` call is isolated from `q`; proved apart from the table to keep the query small.
   * This lemma and its twin for the other prefix stay separate: folded into
   * their callers, the facts about `Table` there make each proof too costly.
   */
  lemma AwaitCallIsolated(j: nat, q: string)
    requires j < |Methods| && NoSeam(q, "aw")
    requires |q| > 0 && (q[..1] == "/" || q[..1] == "m")
    ensures Isolated(q, "await productPage." + Methods[j])
  {
    ReplacementPrefixFacts();
    CallIsolated(q, "await productPage.", j, "aw");
  }

  lemma SpaceReplacementIsolated(j: nat, q: string)
    requires |Methods| <= j < |Table| && NoSeam(q, " p")
    requires |q| > 0 && (q[..1] == "/" || q[..1] == "m")
    ensures Isolated(q, Table[j].replacement)
  {
    var k := j - |Methods|;
    SpaceRule(k);
    assert Table[|Methods| + k] == Table[j];
    SpaceCallIsolated(k, q);
  }

  /**
   * A ` productPage.<m>` call is isolated from `q`; proved apart from the table to keep the query small.
   * This lemma and its twin for the other prefix stay separate: folded into
   * their callers, the facts about `Table` there make each proof too costly.
   */
  lemma SpaceCallIsolated(j: nat, q: string)
    requires j < |Methods| && NoSeam(q, " p")
    requires |q| > 0 && (q[..1] == "/" || q[..1] == "m")
    ensures Isolated(q, " productPage." + Methods[j])
  {
    ReplacementPrefixFacts();
    CallIsolated(q, " productPage.", j, " p");
  }

  /** The replacement prefixes hold neither `/` nor `m`. */
  lemma ReplacementPrefixFacts()
    ensures '/' !in "await productPage." && 'm' !in "await productPage."
    ensures '/' !in " productPage." && 'm' !in " productPage."
    ensures "await productPage."[..2] == "aw" && " productPage."[..2] == " p"
  {
  }

  /** The rule table forms no marker that opens with `/` or `m` and can run into neither `aw` nor ` p`. */
  lemma RulesKeepAbsent(region: string, q: string)
    requires Absent(region, q) && NoSeam(q, "aw") && NoSeam(q, " p")
    requires |q| > 0 && (q[..1] == "/" || q[..1] == "m")
    ensures Absent(Transform(region), q)
  {
    forall j | 0 <= j < |Table|
      ensures |Table[j].pattern| > 0 && Isolated(q, Table[j].replacement)
    {
      ReplacementIsolated(j, q);
    }
    ApplyRulesKeepsAbsent(region, Table, q);
  }

  // ---------------------------------------------------------------------
  // The markers

  /** The rewrite forms no API comment. */
  lemma ApiKeptOut(region: string)
    requires Absent(region, ApiComment)
    ensures Absent(Transform(region), ApiComment)
  {
    ApiCommentOpens();
    ApiCommentNoSeamAw();
    ApiCommentNoSeamSpaceP();
    RulesKeepAbsent(region, ApiComment);
  }

  /** The rewrite forms no exports marker. */
  lemma ExportsKeptOut(region: string)
    requires Absent(region, Exports)
    ensures Absent(Transform(region), Exports)
  {
    ExportsOpens();
    ExportsNoSeam("aw");
    ExportsNoSeam(" p");
    RulesKeepAbsent(region, Exports);
  }

  /** The rewrite forms no comment marker. */
  lemma CommentKeptOut(region: string)
    requires Absent(region, InternalComment)
    ensures Absent(Transform(region), InternalComment)
  {
    InternalCommentOpens();
    InternalCommentNoSeamAw();
    InternalCommentNoSeamSpaceP();
    RulesKeepAbsent(region, InternalComment);
  }

  /** What keeps the comment marker at the head of the region through the rewrite. */
  lemma CommentHeadFacts()
    ensures NoStartIn(InternalComment, "aw") && NoStartIn(InternalComment, " p")
    ensures NoStartIn(InternalComment, ApiComment) && NoStartIn(InternalComment, Exports)
  {
    InternalCommentNoStartAw();
    InternalCommentNoStartSpaceP();
    InternalCommentNoStartCommentA();
    ApiCommentOpens();
    ClearLonger(InternalComment, 0, "// A", ApiComment);
    InternalCommentNoStartMo();
    ExportsOpens();
    ClearLonger(InternalComment, 0, "mo", Exports);
  }

  /** What keeps the signature at the head of the region through the rewrite. */
  lemma SignatureHeadFacts()
    ensures NoStartIn(Signature, "aw") && NoStartIn(Signature, " p")
    ensures NoStartIn(Signature, ApiComment) && NoStartIn(Signature, Exports)
  {
    SignatureNoStartAw();
    SignatureNoStartSpaceP();
    SignatureNoStartSlash();
    ApiCommentOpens();
    ClearLonger(Signature, 0, "/", ApiComment);
    SignatureNoStartMo();
    ExportsOpens();
    ClearLonger(Signature, 0, "mo", Exports);
  }

  /** Neither a comment marker nor an API comment can run into an API comment or an exports marker. */
  lemma ApiSeams()
    ensures NoSeam(InternalComment, ApiComment) && NoSeam(ApiComment, ApiComment)
    ensures NoSeam(ApiComment, Exports)
  {
    ApiCommentOpens();
    InternalCommentNoSeamComment();
    ClearLonger(InternalComment, 1, "//", ApiComment);
    ApiCommentNoSeamComment();
    ClearLonger(ApiComment, 1, "//", ApiComment);
    ApiCommentNoSeamMo();
    ExportsOpens();
    ClearLonger(ApiComment, 1, "mo", Exports);
  }

  // ---------------------------------------------------------------------
  // The rewritten region

  /** The rewrite keeps an opening inside which neither `aw` nor ` p` can start. */
  lemma TransformKeepsHead(region: string, h: string)
    requires |h| <= |region| && region[..|h|] == h
    requires NoStartIn(h, "aw") && NoStartIn(h, " p")
    ensures |h| <= |Transform(region)| && Transform(region)[..|h|] == h
  {
    assert region == h + region[|h|..];
    RulesKeepHead(h, region[|h|..]);
  }

  /** With the comment marker, the rewritten region closed by `m` still opens with it. */
  lemma CommentRegionKept(content: string, b: Bounds, m: string)
    requires Within(b, content) && NoStartIn(InternalComment, m)
    requires OccursAt(content, InternalComment, b.start) && OccursAt(content, m, b.end)
    ensures var x := Transform(content[b.start..b.end]);
      |InternalComment| <= |x| && x[..|InternalComment|] == InternalComment
  {
    CommentHeadFacts();
    OpenerInside(content, InternalComment, m, b.start, b.end);
    TransformKeepsHead(content[b.start..b.end], InternalComment);
  }

  /** Without the comment marker, the rewritten region closed by `m` still opens with the signature and has no comment marker. */
  lemma SignatureRegionKept(content: string, b: Bounds, m: string)
    requires Within(b, content) && Absent(content, InternalComment) && NoStartIn(Signature, m)
    requires OccursAt(content, Signature, b.start) && OccursAt(content, m, b.end)
    ensures var x := Transform(content[b.start..b.end]);
      |Signature| <= |x| && x[..|Signature|] == Signature && Absent(x, InternalComment)
  {
    var region := content[b.start..b.end];
    SignatureHeadFacts();
    OpenerInside(content, Signature, m, b.start, b.end);
    TransformKeepsHead(region, Signature);
    AbsentSlice(content, InternalComment, b.start, b.end);
    CommentKeptOut(region);
  }

  /** The rewritten region closed by `m` opens as the region did. */
  lemma HeadKept(content: string, b: Bounds, m: string)
    requires Within(b, content) && FunctionStart(content) == Some(b.start) && OccursAt(content, m, b.end)
    requires NoStartIn(InternalComment, m) && NoStartIn(Signature, m)
    ensures OpensAsBefore(content, Transform(content[b.start..b.end]))
  {
    StartCases(content, b.start);
    if Find(content, InternalComment, 0).Some? {
      CommentRegionKept(content, b, m);
    } else {
      SignatureRegionKept(content, b, m);
    }
  }

  /** A search from `s` that fails sees no occurrence between `s` and `e`, nor after `e`. */
  lemma NoneBetween(content: string, q: string, s: nat, e: nat)
    requires s <= e <= |content| && Find(content, q, s) == None
    ensures Absent(content[s..e], q) && Absent(content[e..], q)
  {
    AbsentAfter(content, q, s);
    var tail := content[s..];
    AbsentSlice(tail, q, 0, e - s);
    AbsentSlice(tail, q, e - s, |tail|);
    assert tail[0..e - s] == content[s..e];
    assert tail[e - s..|tail|] == content[e..];
  }

  /**
   * What the rewrite keeps of the markers: the region still opens as it
   * did, it has no API comment, and, when the region was closed by the
   * exports marker, no exports marker either.
   */
  ghost predicate KeepsMarkers(content: string, b: Bounds, x: string)
  {
    OpensAsBefore(content, x) && Absent(x, ApiComment) &&
    (Find(content, ApiComment, b.start).None? ==> Absent(x, Exports))
  }

  /** A region closed by the API comment: its rewrite keeps the markers. */
  lemma ApiRegionKept(content: string, b: Bounds)
    requires Within(b, content) && FunctionStart(content) == Some(b.start)
    requires Find(content, ApiComment, b.start) == Some(b.end)
    ensures KeepsMarkers(content, b, Transform(content[b.start..b.end]))
  {
    CommentHeadFacts();
    SignatureHeadFacts();
    HeadKept(content, b, ApiComment);
    ApiCommentOpens();
    AbsentBetween(content, ApiComment, b.start, b.end);
    ApiKeptOut(content[b.start..b.end]);
  }

  /** A region closed by the exports marker: its rewrite keeps the markers. */
  lemma ExportsRegionKept(content: string, b: Bounds)
    requires Within(b, content) && FunctionStart(content) == Some(b.start)
    requires Find(content, ApiComment, b.start) == None && Find(content, Exports, b.start) == Some(b.end)
    ensures KeepsMarkers(content, b, Transform(content[b.start..b.end]))
  {
    var region := content[b.start..b.end];
    CommentHeadFacts();
    SignatureHeadFacts();
    HeadKept(content, b, Exports);
    NoneBetween(content, ApiComment, b.start, b.end);
    ApiKeptOut(region);
    ExportsOpens();
    AbsentBetween(content, Exports, b.start, b.end);
    ExportsKeptOut(region);
  }

  /** The rewrite of the located region keeps the markers. */
  lemma TransformKeepsMarkers(content: string, b: Bounds)
    requires Located(content, b)
    ensures KeepsMarkers(content, b, Transform(content[b.start..b.end]))
  {
    if Find(content, ApiComment, b.start).Some? {
      ApiRegionKept(content, b);
    } else {
      ExportsRegionKept(content, b);
    }
  }

  // ---------------------------------------------------------------------
  // Finding the region again

  /** Run on its own output, the script finds the API comment right after the rewritten region. */
  lemma ApiEndAgain(content: string, b: Bounds, x: string)
    requires Within(b, content) && OccursAt(content, ApiComment, b.end) && Absent(x, ApiComment)
    ensures RegionEnd(Reassemble(content, b, x), b.start) == Some(b.start + |x|)
  {
    ApiSeams();
    EndFoundAgain(content, b, x, ApiComment);
  }

  /** Run on its own output, the script again misses the API comment and finds the exports marker right after the rewritten region. */
  lemma ExportsEndAgain(content: string, b: Bounds, x: string)
    requires Within(b, content) && Find(content, ApiComment, b.start) == None
    requires OccursAt(content, Exports, b.end) && Absent(x, ApiComment) && Absent(x, Exports)
    ensures RegionEnd(Reassemble(content, b, x), b.start) == Some(b.start + |x|)
  {
    ApiSeams();
    NoneBetween(content, ApiComment, b.start, b.end);
    EndAbsentAgain(content, b, x, ApiComment, Exports);
    ExportsFoundAgain(content, b, x);
  }

  /** Run on its own output, the script finds the region start where it found it before. */
  lemma RegionStartAgain(content: string, b: Bounds, x: string)
    requires Located(content, b) && KeepsMarkers(content, b, x)
    ensures FunctionStart(Reassemble(content, b, x)) == Some(b.start)
  {
    if Find(content, ApiComment, b.start).Some? {
      ApiSeams();
      StartAgain(content, b, x, ApiComment);
    } else {
      CommentSeams();
      StartAgain(content, b, x, Exports);
    }
  }

  /** Run on its own output, the script finds the same end marker right after the rewritten region. */
  lemma RegionEndAgain(content: string, b: Bounds, x: string)
    requires Located(content, b) && KeepsMarkers(content, b, x)
    ensures RegionEnd(Reassemble(content, b, x), b.start) == Some(b.start + |x|)
  {
    if Find(content, ApiComment, b.start).Some? {
      ApiEndAgain(content, b, x);
    } else {
      ExportsEndAgain(content, b, x);
    }
  }

  /** Run on its own output, the script finds a rewritten region that keeps the markers. */
  lemma LocateAgain(content: string, b: Bounds, x: string)
    requires Located(content, b) && KeepsMarkers(content, b, x)
    ensures Locate(Reassemble(content, b, x)) == Some(Bounds(b.start, b.start + |x|))
  {
    RegionStartAgain(content, b, x);
    RegionEndAgain(content, b, x);
    ReassembledLocated(content, b, x);
  }

  lemma ReassembledLocated(content: string, b: Bounds, x: string)
    requires Within(b, content)
    requires FunctionStart(Reassemble(content, b, x)) == Some(b.start)
    requires RegionEnd(Reassemble(content, b, x), b.start) == Some(b.start + |x|)
    ensures Locate(Reassemble(content, b, x)) == Some(Bounds(b.start, b.start + |x|))
  {
    LocateFrom(Reassemble(content, b, x), b.start, b.start + |x|);
  }

  /** A reassembled file whose region keeps the markers and is settled under the rewrite is written back unchanged. */
  lemma PatchAgain(content: string, b: Bounds, x: string)
    requires Located(content, b) && KeepsMarkers(content, b, x) && Transform(x) == x
    ensures Patch(Reassemble(content, b, x)) == Some(Reassemble(content, b, x))
  {
    LocateAgain(content, b, x);
    SettledAgain(content, b, x);
  }

  lemma SettledAgain(content: string, b: Bounds, x: string)
    requires Within(b, content) && Transform(x) == x
    requires Locate(Reassemble(content, b, x)) == Some(Bounds(b.start, b.start + |x|))
    ensures Patch(Reassemble(content, b, x)) == Some(Reassemble(content, b, x))
  {
    var o := Reassemble(content, b, x);
    var b2 := Bounds(b.start, b.start + |x|);
    assert o[b2.start..b2.end] == x;
    PatchSettled(o, b2);
  }

  /** Running the script on its own output writes back the same text. */
  lemma PatchIdempotent(content: string)
    ensures Patch(content).Some? ==> Patch(Patch(content).value) == Patch(content)
  {
    if Locate(content).Some? {
      var b := Locate(content).value;
      var region := content[b.start..b.end];
      LocateParts(content, b);
      TransformKeepsMarkers(content, b);
      RewriteSettles(region);
      PatchAgain(content, b, Transform(region));
    }
  }
}
