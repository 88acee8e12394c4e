/**
 * The Puppeteer page methods whose calls both scripts retarget, listed once:
 * the two rule tables pair the same nine names in the same order, and the
 * facts below about which characters the names contain are what keeps a
 * rewritten call from forming a marker or another rule's pattern.
 */
module PageMethods {
  import opened Text
  import opened Rewriter

  /** The method names, in the order of both rule tables. */
  const Methods: seq<string> :=
    ["evaluate", "goto", "screenshot", "waitForSelector", "waitForFunction",
     "keyboard", "type", "click", "evaluateHandle"]

  /** A name without `/`, `m`, a space or an opening parenthesis. */
  predicate NoMarkChar(m: string)
  {
    '/' !in m && 'm' !in m && ' ' !in m && '(' !in m
  }

  lemma MethodNoMarkChar(i: nat)
    requires i < |Methods|
    ensures NoMarkChar(Methods[i])
  {
  }

  /** Neither `pa` nor `pr` starts anywhere in `m`. */
  predicate ClearOfP(m: string)
  {
    Scan(m, 0, "pa") && Scan(m, 0, "pr")
  }

  /** Neither `co` nor `aw` starts anywhere in `m`. */
  predicate ClearOfCoAw(m: string)
  {
    Scan(m, 0, "co") && Scan(m, 0, "aw")
  }

  /** No method name holds any of the two-letter openings `pa`, `pr`, `co`, `aw`. */
  lemma MethodNameClear(i: nat)
    requires i < |Methods|
    ensures ClearOfP(Methods[i]) && ClearOfCoAw(Methods[i])
  {
    if i == 0 {
      EvaluateClearOfP();
      EvaluateClearOfCoAw();
    } else if i == 1 {
      GotoClearOfP();
      GotoClearOfCoAw();
    } else if i == 2 {
      ScreenshotClearOfP();
      ScreenshotClearOfCoAw();
    } else if i == 3 {
      WaitForSelectorClearOfP();
      WaitForSelectorClearOfCoAw();
    } else if i == 4 {
      WaitForFunctionClearOfP();
      WaitForFunctionClearOfCoAw();
    } else if i == 5 {
      KeyboardClearOfP();
      KeyboardClearOfCoAw();
    } else if i == 6 {
      TypeClearOfP();
      TypeClearOfCoAw();
    } else if i == 7 {
      ClickClearOfP();
      ClickClearOfCoAw();
    } else {
      EvaluateHandleClearOfP();
      EvaluateHandleClearOfCoAw();
    }
  }

  lemma EvaluateClearOfP()
    ensures ClearOfP("evaluate")
  {
    assert Scan("evaluate", 4, "pa");
    assert Scan("evaluate", 0, "pa");
    assert Scan("evaluate", 4, "pr");
    assert Scan("evaluate", 0, "pr");
  }

  lemma EvaluateClearOfCoAw()
    ensures ClearOfCoAw("evaluate")
  {
    assert Scan("evaluate", 4, "co");
    assert Scan("evaluate", 0, "co");
    assert Scan("evaluate", 4, "aw");
    assert Scan("evaluate", 0, "aw");
  }

  lemma GotoClearOfP()
    ensures ClearOfP("goto")
  {
    assert Scan("goto", 0, "pa");
    assert Scan("goto", 0, "pr");
  }

  lemma GotoClearOfCoAw()
    ensures ClearOfCoAw("goto")
  {
    assert Scan("goto", 0, "co");
    assert Scan("goto", 0, "aw");
  }

  lemma ScreenshotClearOfP()
    ensures ClearOfP("screenshot")
  {
    assert Scan("screenshot", 6, "pa");
    assert Scan("screenshot", 2, "pa");
    assert Scan("screenshot", 0, "pa");
    assert Scan("screenshot", 6, "pr");
    assert Scan("screenshot", 2, "pr");
    assert Scan("screenshot", 0, "pr");
  }

  lemma ScreenshotClearOfCoAw()
    ensures ClearOfCoAw("screenshot")
  {
    assert Scan("screenshot", 6, "co");
    assert Scan("screenshot", 2, "co");
    assert Scan("screenshot", 0, "co");
    assert Scan("screenshot", 6, "aw");
    assert Scan("screenshot", 2, "aw");
    assert Scan("screenshot", 0, "aw");
  }

  lemma WaitForSelectorClearOfP()
    ensures ClearOfP("waitForSelector")
  {
    assert Scan("waitForSelector", 11, "pa");
    assert Scan("waitForSelector", 7, "pa");
    assert Scan("waitForSelector", 3, "pa");
    assert Scan("waitForSelector", 0, "pa");
    assert Scan("waitForSelector", 11, "pr");
    assert Scan("waitForSelector", 7, "pr");
    assert Scan("waitForSelector", 3, "pr");
    assert Scan("waitForSelector", 0, "pr");
  }

  lemma WaitForSelectorClearOfCoAw()
    ensures ClearOfCoAw("waitForSelector")
  {
    assert Scan("waitForSelector", 11, "co");
    assert Scan("waitForSelector", 7, "co");
    assert Scan("waitForSelector", 3, "co");
    assert Scan("waitForSelector", 0, "co");
    assert Scan("waitForSelector", 11, "aw");
    assert Scan("waitForSelector", 7, "aw");
    assert Scan("waitForSelector", 3, "aw");
    assert Scan("waitForSelector", 0, "aw");
  }

  lemma WaitForFunctionClearOfP()
    ensures ClearOfP("waitForFunction")
  {
    assert Scan("waitForFunction", 11, "pa");
    assert Scan("waitForFunction", 7, "pa");
    assert Scan("waitForFunction", 3, "pa");
    assert Scan("waitForFunction", 0, "pa");
    assert Scan("waitForFunction", 11, "pr");
    assert Scan("waitForFunction", 7, "pr");
    assert Scan("waitForFunction", 3, "pr");
    assert Scan("waitForFunction", 0, "pr");
  }

  lemma WaitForFunctionClearOfCoAw()
    ensures ClearOfCoAw("waitForFunction")
  {
    assert Scan("waitForFunction", 11, "co");
    assert Scan("waitForFunction", 7, "co");
    assert Scan("waitForFunction", 3, "co");
    assert Scan("waitForFunction", 0, "co");
    assert Scan("waitForFunction", 11, "aw");
    assert Scan("waitForFunction", 7, "aw");
    assert Scan("waitForFunction", 3, "aw");
    assert Scan("waitForFunction", 0, "aw");
  }

  lemma KeyboardClearOfP()
    ensures ClearOfP("keyboard")
  {
    assert Scan("keyboard", 4, "pa");
    assert Scan("keyboard", 0, "pa");
    assert Scan("keyboard", 4, "pr");
    assert Scan("keyboard", 0, "pr");
  }

  lemma KeyboardClearOfCoAw()
    ensures ClearOfCoAw("keyboard")
  {
    assert Scan("keyboard", 4, "co");
    assert Scan("keyboard", 0, "co");
    assert Scan("keyboard", 4, "aw");
    assert Scan("keyboard", 0, "aw");
  }

  lemma TypeClearOfP()
    ensures ClearOfP("type")
  {
    assert Scan("type", 0, "pa");
    assert Scan("type", 0, "pr");
  }

  lemma TypeClearOfCoAw()
    ensures ClearOfCoAw("type")
  {
    assert Scan("type", 0, "co");
    assert Scan("type", 0, "aw");
  }

  lemma ClickClearOfP()
    ensures ClearOfP("click")
  {
    assert Scan("click", 0, "pa");
    assert Scan("click", 0, "pr");
  }

  lemma ClickClearOfCoAw()
    ensures ClearOfCoAw("click")
  {
    assert Scan("click", 0, "co");
    assert Scan("click", 0, "aw");
  }

  lemma EvaluateHandleClearOfP()
    ensures ClearOfP("evaluateHandle")
  {
    assert Scan("evaluateHandle", 10, "pa");
    assert Scan("evaluateHandle", 6, "pa");
    assert Scan("evaluateHandle", 2, "pa");
    assert Scan("evaluateHandle", 0, "pa");
    assert Scan("evaluateHandle", 10, "pr");
    assert Scan("evaluateHandle", 6, "pr");
    assert Scan("evaluateHandle", 2, "pr");
    assert Scan("evaluateHandle", 0, "pr");
  }

  lemma EvaluateHandleClearOfCoAw()
    ensures ClearOfCoAw("evaluateHandle")
  {
    assert Scan("evaluateHandle", 10, "co");
    assert Scan("evaluateHandle", 6, "co");
    assert Scan("evaluateHandle", 2, "co");
    assert Scan("evaluateHandle", 0, "co");
    assert Scan("evaluateHandle", 10, "aw");
    assert Scan("evaluateHandle", 6, "aw");
    assert Scan("evaluateHandle", 2, "aw");
    assert Scan("evaluateHandle", 0, "aw");
  }

  /** None of these openings occurs inside a method name. */
  lemma MethodClear(i: nat, qm: string)
    requires i < |Methods| && qm in ["/", "m", " ", "pa", "pr", "co", "aw"]
    ensures ClearFrom(Methods[i], 0, qm)
  {
    var m := Methods[i];
    if qm == "/" || qm == "m" || qm == " " {
      MethodNoMarkChar(i);
      ClearByChar(m, qm);
    } else if qm == "pa" {
      MethodNameClear(i);
      ScanSound(m, 0, "pa");
    } else if qm == "pr" {
      MethodNameClear(i);
      ScanSound(m, 0, "pr");
    } else if qm == "co" {
      MethodNameClear(i);
      ScanSound(m, 0, "co");
    } else {
      MethodNameClear(i);
      ScanSound(m, 0, "aw");
    }
  }

  /**
   * No occurrence of `q` starts at or after `lo` in a call `prefix + name`,
   * when neither the prefix holds one starting with `qp` nor a method name
   * one starting with `qm`, both openings of `q`.
   */
  lemma CallClear(prefix: string, i: nat, lo: nat, qp: string, qm: string, q: string)
    requires i < |Methods| && lo <= |prefix|
    requires |qp| <= |q| && q[..|qp|] == qp && ClearFrom(prefix, lo, qp)
    requires |qm| <= |q| && q[..|qm|] == qm && qm in ["/", "m", " ", "pa", "pr", "co", "aw"]
    ensures ClearFrom(prefix + Methods[i], lo, q)
  {
    MethodClear(i, qm);
    ClearLonger(Methods[i], 0, qm, q);
    ClearLonger(prefix, lo, qp, q);
    ClearAppend(prefix, Methods[i], lo, q);
  }

  /**
   * A call `rp + <m'>` cannot form or run into a call `pp + <m>`: no
   * opening `qr` of `rp` starts in `pp` after its first character, and no
   * opening `qp` of `pp` starts in `rp`.
   */
  lemma CallsIsolated(pp: string, k: nat, rp: string, j: nat, qr: string, mr: string, qp: string, mp: string)
    requires k < |Methods| && j < |Methods| && 1 <= |pp|
    requires |qr| <= |rp| && rp[..|qr|] == qr && ClearFrom(pp, 1, qr)
    requires |mr| <= |qr| && qr[..|mr|] == mr && mr in ["/", "m", " ", "pa", "pr", "co", "aw"]
    requires |qp| <= |pp| && pp[..|qp|] == qp && ClearFrom(rp, 0, qp)
    requires |mp| <= |qp| && qp[..|mp|] == mp && mp in ["/", "m", " ", "pa", "pr", "co", "aw"]
    ensures Isolated(pp + Methods[k], rp + Methods[j])
  {
    OpensWith(rp, Methods[j], qr);
    OpensWith(pp, Methods[k], qp);
    CallClear(pp, k, 1, qr, mr, rp + Methods[j]);
    CallClear(rp, j, 0, qp, mp, pp + Methods[k]);
  }

  /** The table that retargets every method call: `<from><m>` becomes `<to><m>`, one rule per name, in order. */
  function Retarget(from: string, to: string, methods: seq<string>): (rules: seq<Rule>)
    ensures |rules| == |methods|
    ensures forall i :: 0 <= i < |methods| ==> rules[i] == Rule(from + methods[i], to + methods[i])
  {
    if methods == [] then [] else [Rule(from + methods[0], to + methods[0])] + Retarget(from, to, methods[1..])
  }

  /** `evaluate` is a prefix of `evaluateHandle`, so the first rule of a table shadows the last. */
  lemma EvaluateShadowsHandle()
    ensures Methods[8] == Methods[0] + "Handle"
  {
  }
}
