/**
 * The literal markers of the single-tab script's two excisions and the
 * comment line it splices in, with the facts about which marker openings
 * cannot occur inside them.
 */
module SingleTabMarkers {
  import opened Text

  const TabStartParts: seq<string> := ["// Get", " or create", " the", " product-", "specific tab"]
  /** `// Get or create the product-specific tab`, where the tab section begins. */
  const TabStart: string := Join(TabStartParts)

  const TabEndParts: seq<string> := ["console.log(", "`\U{1F50D} Navigating", " \"${product", "Name}\" tab", " to channel", "...`);"]
  /** The navigation log line that ends the tab section and is kept. */
  const TabEnd: string := Join(TabEndParts)

  const WaitStartParts: seq<string> := ["// Wait", " for", " confirmation", " message"]
  /** `// Wait for confirmation message`, where the wait section begins. */
  const WaitStart: string := Join(WaitStartParts)

  /** The quoted text of the completion log, searched for inside the kept tail. */
  const Completion: string := "'\U{2705} Submission complete!"

  /** The completion log call that ends the wait section and is kept. */
  const WaitEnd: string := "console.log(" + Completion

  const NoWaitCommentParts: seq<string> := ["// No", " confirmation", " wait -", " submission", " complete", " immediately", "\n    "]
  /** The comment line spliced in where the wait section was, with the indentation that follows it. */
  const NoWaitComment: string := Join(NoWaitCommentParts)

  /** The literal the script splices in: the comment line, then the completion log call up to its text. */
  const NoWaitInsert: string := NoWaitComment + WaitEnd

  lemma TabStartNoSeamCoPieces1()
    ensures Scan("// Get", 1, "co") && Scan(" or create", 0, "co") && Scan(" the", 0, "co")
  {
  }

  lemma TabStartNoSeamCoPieces2()
    ensures Scan(" product-", 0, "co") && Scan("specific tab", 0, "co")
  {
    assert Scan("specific tab", 6, "co");
  }

  lemma TabStartNoSeamCo()
    ensures NoSeam(TabStart, "co")
  {
    TabStartNoSeamCoPieces1();
    TabStartNoSeamCoPieces2();
    ClearJoin(TabStartParts, 1, "co");
  }

  lemma TabStartNoSeamCommentPieces1()
    ensures Scan("// Get", 1, "//") && Scan(" or create", 0, "//") && Scan(" the", 0, "//")
  {
  }

  lemma TabStartNoSeamCommentPieces2()
    ensures Scan(" product-", 0, "//") && Scan("specific tab", 0, "//")
  {
    assert Scan("specific tab", 6, "//");
  }

  lemma TabStartNoSeamComment()
    ensures NoSeam(TabStart, "//")
  {
    TabStartNoSeamCommentPieces1();
    TabStartNoSeamCommentPieces2();
    ClearJoin(TabStartParts, 1, "//");
  }

  lemma TabEndNoSeamCoPieces1()
    ensures Scan("console.log(", 1, "co") && Scan("`\U{1F50D} Navigating", 0, "co") && Scan(" \"${product", 0, "co")
  {
    assert Scan("console.log(", 6, "co");
    assert Scan("`\U{1F50D} Navigating", 6, "co");
    assert Scan(" \"${product", 6, "co");
  }

  lemma TabEndNoSeamCoPieces2()
    ensures Scan("Name}\" tab", 0, "co") && Scan(" to channel", 0, "co") && Scan("...`);", 0, "co")
  {
    assert Scan(" to channel", 6, "co");
  }

  lemma TabEndNoSeamCo()
    ensures NoSeam(TabEnd, "co")
  {
    TabEndNoSeamCoPieces1();
    TabEndNoSeamCoPieces2();
    ClearJoin(TabEndParts, 1, "co");
  }

  lemma TabEndNoSeamCommentPieces1()
    ensures Scan("console.log(", 1, "//") && Scan("`\U{1F50D} Navigating", 0, "//") && Scan(" \"${product", 0, "//")
  {
    assert Scan("console.log(", 6, "//");
    assert Scan("`\U{1F50D} Navigating", 6, "//");
    assert Scan(" \"${product", 6, "//");
  }

  lemma TabEndNoSeamCommentPieces2()
    ensures Scan("Name}\" tab", 0, "//") && Scan(" to channel", 0, "//") && Scan("...`);", 0, "//")
  {
    assert Scan(" to channel", 6, "//");
  }

  lemma TabEndNoSeamComment()
    ensures NoSeam(TabEnd, "//")
  {
    TabEndNoSeamCommentPieces1();
    TabEndNoSeamCommentPieces2();
    ClearJoin(TabEndParts, 1, "//");
  }

  lemma WaitStartNoSeamConsPieces1()
    ensures Scan("// Wait", 1, "cons") && Scan(" for", 0, "cons") && Scan(" message", 0, "cons")
  {
    assert Scan(" message", 4, "cons");
  }

  lemma WaitStartNoSeamConsPieces2()
    ensures Scan(" confirmation", 0, "cons")
  {
    assert Scan(" confirmation", 10, "cons");
    assert Scan(" confirmation", 7, "cons");
    assert Scan(" confirmation", 4, "cons");
    assert Scan(" confirmation", 1, "cons");
  }

  lemma WaitStartNoSeamCons()
    ensures NoSeam(WaitStart, "cons")
  {
    WaitStartNoSeamConsPieces1();
    WaitStartNoSeamConsPieces2();
    ClearJoin(WaitStartParts, 1, "cons");
  }

  lemma WaitStartNoSeamCommentPieces1()
    ensures Scan("// Wait", 1, "//") && Scan(" for", 0, "//") && Scan(" message", 0, "//")
  {
    assert Scan(" message", 4, "//");
  }

  lemma WaitStartNoSeamCommentPieces2()
    ensures Scan(" confirmation", 0, "//")
  {
    assert Scan(" confirmation", 10, "//");
    assert Scan(" confirmation", 7, "//");
    assert Scan(" confirmation", 4, "//");
    assert Scan(" confirmation", 1, "//");
  }

  lemma WaitStartNoSeamComment()
    ensures NoSeam(WaitStart, "//")
  {
    WaitStartNoSeamCommentPieces1();
    WaitStartNoSeamCommentPieces2();
    ClearJoin(WaitStartParts, 1, "//");
  }

  lemma NoWaitCommentNoStartCommentIPieces1()
    ensures Scan("// No", 0, "// I") && Scan(" confirmation", 0, "// I") && Scan(" wait -", 0, "// I")
  {
    assert Scan(" confirmation", 6, "// I");
  }

  lemma NoWaitCommentNoStartCommentIPieces2()
    ensures Scan(" submission", 0, "// I") && Scan(" complete", 0, "// I") && Scan(" immediately", 0, "// I") && Scan("\n    ", 0, "// I")
  {
    assert Scan(" submission", 6, "// I");
    assert Scan(" immediately", 6, "// I");
  }

  lemma NoWaitCommentNoStartCommentI()
    ensures NoStartIn(NoWaitComment, "// I")
  {
    NoWaitCommentNoStartCommentIPieces1();
    NoWaitCommentNoStartCommentIPieces2();
    ClearJoin(NoWaitCommentParts, 0, "// I");
  }

  lemma NoWaitCommentNoStartMoPieces1()
    ensures Scan("// No", 0, "mo") && Scan(" confirmation", 0, "mo") && Scan(" wait -", 0, "mo")
  {
    assert Scan(" confirmation", 6, "mo");
  }

  lemma NoWaitCommentNoStartMoPieces2()
    ensures Scan(" submission", 0, "mo") && Scan(" complete", 0, "mo") && Scan(" immediately", 0, "mo") && Scan("\n    ", 0, "mo")
  {
    assert Scan(" submission", 6, "mo");
    assert Scan(" immediately", 6, "mo");
  }

  lemma NoWaitCommentNoStartMo()
    ensures NoStartIn(NoWaitComment, "mo")
  {
    NoWaitCommentNoStartMoPieces1();
    NoWaitCommentNoStartMoPieces2();
    ClearJoin(NoWaitCommentParts, 0, "mo");
  }

  lemma NoWaitCommentNoStartPrPieces1()
    ensures Scan("// No", 0, "pr") && Scan(" confirmation", 0, "pr") && Scan(" wait -", 0, "pr")
  {
    assert Scan(" confirmation", 6, "pr");
  }

  lemma NoWaitCommentNoStartPrPieces2()
    ensures Scan(" submission", 0, "pr") && Scan(" complete", 0, "pr") && Scan(" immediately", 0, "pr") && Scan("\n    ", 0, "pr")
  {
    assert Scan(" submission", 6, "pr");
    assert Scan(" immediately", 6, "pr");
  }

  lemma NoWaitCommentNoStartPr()
    ensures NoStartIn(NoWaitComment, "pr")
  {
    NoWaitCommentNoStartPrPieces1();
    NoWaitCommentNoStartPrPieces2();
    ClearJoin(NoWaitCommentParts, 0, "pr");
  }

  lemma NoWaitCommentNoStartCommentGPieces1()
    ensures Scan("// No", 0, "// G") && Scan(" confirmation", 0, "// G") && Scan(" wait -", 0, "// G")
  {
    assert Scan(" confirmation", 6, "// G");
  }

  lemma NoWaitCommentNoStartCommentGPieces2()
    ensures Scan(" submission", 0, "// G") && Scan(" complete", 0, "// G") && Scan(" immediately", 0, "// G") && Scan("\n    ", 0, "// G")
  {
    assert Scan(" submission", 6, "// G");
    assert Scan(" immediately", 6, "// G");
  }

  lemma NoWaitCommentNoStartCommentG()
    ensures NoStartIn(NoWaitComment, "// G")
  {
    NoWaitCommentNoStartCommentGPieces1();
    NoWaitCommentNoStartCommentGPieces2();
    ClearJoin(NoWaitCommentParts, 0, "// G");
  }

  lemma NoWaitCommentNoStartConsPieces1()
    ensures Scan("// No", 0, "cons") && Scan(" confirmation", 0, "cons") && Scan(" wait -", 0, "cons")
  {
    assert Scan(" confirmation", 6, "cons");
  }

  lemma NoWaitCommentNoStartConsPieces2()
    ensures Scan(" submission", 0, "cons") && Scan(" complete", 0, "cons") && Scan(" immediately", 0, "cons") && Scan("\n    ", 0, "cons")
  {
    assert Scan(" submission", 6, "cons");
    assert Scan(" immediately", 6, "cons");
  }

  lemma NoWaitCommentNoStartCons()
    ensures NoStartIn(NoWaitComment, "cons")
  {
    NoWaitCommentNoStartConsPieces1();
    NoWaitCommentNoStartConsPieces2();
    ClearJoin(NoWaitCommentParts, 0, "cons");
  }

  lemma NoWaitCommentNoStartCommentWPieces1()
    ensures Scan("// No", 0, "// W") && Scan(" confirmation", 0, "// W") && Scan(" wait -", 0, "// W")
  {
    assert Scan(" confirmation", 6, "// W");
  }

  lemma NoWaitCommentNoStartCommentWPieces2()
    ensures Scan(" submission", 0, "// W") && Scan(" complete", 0, "// W") && Scan(" immediately", 0, "// W") && Scan("\n    ", 0, "// W")
  {
    assert Scan(" submission", 6, "// W");
    assert Scan(" immediately", 6, "// W");
  }

  lemma NoWaitCommentNoStartCommentW()
    ensures NoStartIn(NoWaitComment, "// W")
  {
    NoWaitCommentNoStartCommentWPieces1();
    NoWaitCommentNoStartCommentWPieces2();
    ClearJoin(NoWaitCommentParts, 0, "// W");
  }

  /** The completion text cannot start inside `console.log(`: its opening quote is not there. */
  lemma CompletionAfterCall()
    ensures NoStartIn("console.log(", Completion)
  {
    assert Completion[0] == '\'';
    ClearByChar("console.log(", Completion);
  }
}
