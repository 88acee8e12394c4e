/**
 * The markers both scripts use to find the `submitToSparxNowInternal`
 * function, and which short marker openings cannot occur inside them.
 * Each marker is written as pieces short enough for `Scan` to decide such
 * facts; the pieces join to the literal the scripts search for.
 */
module Markers {
  import opened Text

  const InternalCommentParts: seq<string> := ["// Internal", " submission", " function", " (can retry", " if frame", " detaches)"]
  /** `// Internal submission function (can retry if frame detaches)`, the comment line searched for first. */
  const InternalComment: string := Join(InternalCommentParts)

  const SignatureParts: seq<string> := ["asyn", "c function", " submitTo", "SparxNow", "Internal("]
  /** `async function submitToSparxNowInternal(`, the fallback start marker. */
  const Signature: string := Join(SignatureParts)

  const ExportsParts: seq<string> := ["module.", "exports ="]
  /** `module.exports =`, the statement that closes the region. */
  const Exports: string := Join(ExportsParts)

  // Which openings cannot start inside a marker (`NoStartIn`) and which
  // texts an occurrence of a marker cannot run into (`NoSeam`); callers
  // lengthen the opening to a whole pattern with `ClearLonger`.

  lemma InternalCommentNoStartPrPieces1()
    ensures Scan("// Internal", 0, "pr") && Scan(" submission", 0, "pr") && Scan(" function", 0, "pr")
  {
    assert Scan("// Internal", 6, "pr");
    assert Scan(" submission", 6, "pr");
  }

  lemma InternalCommentNoStartPrPieces2()
    ensures Scan(" (can retry", 0, "pr") && Scan(" if frame", 0, "pr") && Scan(" detaches)", 0, "pr")
  {
    assert Scan(" (can retry", 6, "pr");
  }

  lemma InternalCommentNoStartPr()
    ensures NoStartIn(InternalComment, "pr")
  {
    InternalCommentNoStartPrPieces1();
    InternalCommentNoStartPrPieces2();
    ClearJoin(InternalCommentParts, 0, "pr");
  }

  lemma InternalCommentNoStartCommentGPieces1()
    ensures Scan("// Internal", 0, "// G") && Scan(" submission", 0, "// G") && Scan(" function", 0, "// G")
  {
    assert Scan("// Internal", 6, "// G");
    assert Scan(" submission", 6, "// G");
  }

  lemma InternalCommentNoStartCommentGPieces2()
    ensures Scan(" (can retry", 0, "// G") && Scan(" if frame", 0, "// G") && Scan(" detaches)", 0, "// G")
  {
    assert Scan(" (can retry", 6, "// G");
  }

  lemma InternalCommentNoStartCommentG()
    ensures NoStartIn(InternalComment, "// G")
  {
    InternalCommentNoStartCommentGPieces1();
    InternalCommentNoStartCommentGPieces2();
    ClearJoin(InternalCommentParts, 0, "// G");
  }

  lemma InternalCommentNoStartCoPieces1()
    ensures Scan("// Internal", 0, "co") && Scan(" submission", 0, "co") && Scan(" function", 0, "co")
  {
    assert Scan("// Internal", 6, "co");
    assert Scan(" submission", 6, "co");
  }

  lemma InternalCommentNoStartCoPieces2()
    ensures Scan(" (can retry", 0, "co") && Scan(" if frame", 0, "co") && Scan(" detaches)", 0, "co")
  {
    assert Scan(" (can retry", 6, "co");
  }

  lemma InternalCommentNoStartCo()
    ensures NoStartIn(InternalComment, "co")
  {
    InternalCommentNoStartCoPieces1();
    InternalCommentNoStartCoPieces2();
    ClearJoin(InternalCommentParts, 0, "co");
  }

  lemma InternalCommentNoStartCommentWPieces1()
    ensures Scan("// Internal", 0, "// W") && Scan(" submission", 0, "// W") && Scan(" function", 0, "// W")
  {
    assert Scan("// Internal", 6, "// W");
    assert Scan(" submission", 6, "// W");
  }

  lemma InternalCommentNoStartCommentWPieces2()
    ensures Scan(" (can retry", 0, "// W") && Scan(" if frame", 0, "// W") && Scan(" detaches)", 0, "// W")
  {
    assert Scan(" (can retry", 6, "// W");
  }

  lemma InternalCommentNoStartCommentW()
    ensures NoStartIn(InternalComment, "// W")
  {
    InternalCommentNoStartCommentWPieces1();
    InternalCommentNoStartCommentWPieces2();
    ClearJoin(InternalCommentParts, 0, "// W");
  }

  lemma InternalCommentNoStartCommentAPieces1()
    ensures Scan("// Internal", 0, "// A") && Scan(" submission", 0, "// A") && Scan(" function", 0, "// A")
  {
    assert Scan("// Internal", 6, "// A");
    assert Scan(" submission", 6, "// A");
  }

  lemma InternalCommentNoStartCommentAPieces2()
    ensures Scan(" (can retry", 0, "// A") && Scan(" if frame", 0, "// A") && Scan(" detaches)", 0, "// A")
  {
    assert Scan(" (can retry", 6, "// A");
  }

  lemma InternalCommentNoStartCommentA()
    ensures NoStartIn(InternalComment, "// A")
  {
    InternalCommentNoStartCommentAPieces1();
    InternalCommentNoStartCommentAPieces2();
    ClearJoin(InternalCommentParts, 0, "// A");
  }

  lemma InternalCommentNoStartMoPieces1()
    ensures Scan("// Internal", 0, "mo") && Scan(" submission", 0, "mo") && Scan(" function", 0, "mo")
  {
    assert Scan("// Internal", 6, "mo");
    assert Scan(" submission", 6, "mo");
  }

  lemma InternalCommentNoStartMoPieces2()
    ensures Scan(" (can retry", 0, "mo") && Scan(" if frame", 0, "mo") && Scan(" detaches)", 0, "mo")
  {
    assert Scan(" (can retry", 6, "mo");
  }

  lemma InternalCommentNoStartMo()
    ensures NoStartIn(InternalComment, "mo")
  {
    InternalCommentNoStartMoPieces1();
    InternalCommentNoStartMoPieces2();
    ClearJoin(InternalCommentParts, 0, "mo");
  }

  lemma InternalCommentNoStartAwPieces1()
    ensures Scan("// Internal", 0, "aw") && Scan(" submission", 0, "aw") && Scan(" function", 0, "aw")
  {
    assert Scan("// Internal", 6, "aw");
    assert Scan(" submission", 6, "aw");
  }

  lemma InternalCommentNoStartAwPieces2()
    ensures Scan(" (can retry", 0, "aw") && Scan(" if frame", 0, "aw") && Scan(" detaches)", 0, "aw")
  {
    assert Scan(" (can retry", 6, "aw");
  }

  lemma InternalCommentNoStartAw()
    ensures NoStartIn(InternalComment, "aw")
  {
    InternalCommentNoStartAwPieces1();
    InternalCommentNoStartAwPieces2();
    ClearJoin(InternalCommentParts, 0, "aw");
  }

  lemma InternalCommentNoStartSpacePPieces1()
    ensures Scan("// Internal", 0, " p") && Scan(" submission", 0, " p") && Scan(" function", 0, " p")
  {
    assert Scan("// Internal", 6, " p");
    assert Scan(" submission", 6, " p");
  }

  lemma InternalCommentNoStartSpacePPieces2()
    ensures Scan(" (can retry", 0, " p") && Scan(" if frame", 0, " p") && Scan(" detaches)", 0, " p")
  {
    assert Scan(" (can retry", 6, " p");
  }

  lemma InternalCommentNoStartSpaceP()
    ensures NoStartIn(InternalComment, " p")
  {
    InternalCommentNoStartSpacePPieces1();
    InternalCommentNoStartSpacePPieces2();
    ClearJoin(InternalCommentParts, 0, " p");
  }

  lemma InternalCommentNoSeamPaPieces1()
    ensures Scan("// Internal", 1, "pa") && Scan(" submission", 0, "pa") && Scan(" function", 0, "pa")
  {
    assert Scan("// Internal", 6, "pa");
    assert Scan(" submission", 6, "pa");
  }

  lemma InternalCommentNoSeamPaPieces2()
    ensures Scan(" (can retry", 0, "pa") && Scan(" if frame", 0, "pa") && Scan(" detaches)", 0, "pa")
  {
    assert Scan(" (can retry", 6, "pa");
  }

  lemma InternalCommentNoSeamPa()
    ensures NoSeam(InternalComment, "pa")
  {
    InternalCommentNoSeamPaPieces1();
    InternalCommentNoSeamPaPieces2();
    ClearJoin(InternalCommentParts, 1, "pa");
  }

  lemma InternalCommentNoSeamCoPieces1()
    ensures Scan("// Internal", 1, "co") && Scan(" submission", 0, "co") && Scan(" function", 0, "co")
  {
    assert Scan("// Internal", 6, "co");
    assert Scan(" submission", 6, "co");
  }

  lemma InternalCommentNoSeamCoPieces2()
    ensures Scan(" (can retry", 0, "co") && Scan(" if frame", 0, "co") && Scan(" detaches)", 0, "co")
  {
    assert Scan(" (can retry", 6, "co");
  }

  lemma InternalCommentNoSeamCo()
    ensures NoSeam(InternalComment, "co")
  {
    InternalCommentNoSeamCoPieces1();
    InternalCommentNoSeamCoPieces2();
    ClearJoin(InternalCommentParts, 1, "co");
  }

  lemma InternalCommentNoSeamCommentPieces1()
    ensures Scan("// Internal", 1, "//") && Scan(" submission", 0, "//") && Scan(" function", 0, "//")
  {
    assert Scan("// Internal", 6, "//");
    assert Scan(" submission", 6, "//");
  }

  lemma InternalCommentNoSeamCommentPieces2()
    ensures Scan(" (can retry", 0, "//") && Scan(" if frame", 0, "//") && Scan(" detaches)", 0, "//")
  {
    assert Scan(" (can retry", 6, "//");
  }

  lemma InternalCommentNoSeamComment()
    ensures NoSeam(InternalComment, "//")
  {
    InternalCommentNoSeamCommentPieces1();
    InternalCommentNoSeamCommentPieces2();
    ClearJoin(InternalCommentParts, 1, "//");
  }

  lemma InternalCommentNoSeamAsPieces1()
    ensures Scan("// Internal", 1, "as") && Scan(" submission", 0, "as") && Scan(" function", 0, "as")
  {
    assert Scan("// Internal", 6, "as");
    assert Scan(" submission", 6, "as");
  }

  lemma InternalCommentNoSeamAsPieces2()
    ensures Scan(" (can retry", 0, "as") && Scan(" if frame", 0, "as") && Scan(" detaches)", 0, "as")
  {
    assert Scan(" (can retry", 6, "as");
  }

  lemma InternalCommentNoSeamAs()
    ensures NoSeam(InternalComment, "as")
  {
    InternalCommentNoSeamAsPieces1();
    InternalCommentNoSeamAsPieces2();
    ClearJoin(InternalCommentParts, 1, "as");
  }

  lemma InternalCommentNoSeamMoPieces1()
    ensures Scan("// Internal", 1, "mo") && Scan(" submission", 0, "mo") && Scan(" function", 0, "mo")
  {
    assert Scan("// Internal", 6, "mo");
    assert Scan(" submission", 6, "mo");
  }

  lemma InternalCommentNoSeamMoPieces2()
    ensures Scan(" (can retry", 0, "mo") && Scan(" if frame", 0, "mo") && Scan(" detaches)", 0, "mo")
  {
    assert Scan(" (can retry", 6, "mo");
  }

  lemma InternalCommentNoSeamMo()
    ensures NoSeam(InternalComment, "mo")
  {
    InternalCommentNoSeamMoPieces1();
    InternalCommentNoSeamMoPieces2();
    ClearJoin(InternalCommentParts, 1, "mo");
  }

  lemma InternalCommentNoSeamAwPieces1()
    ensures Scan("// Internal", 1, "aw") && Scan(" submission", 0, "aw") && Scan(" function", 0, "aw")
  {
    assert Scan("// Internal", 6, "aw");
    assert Scan(" submission", 6, "aw");
  }

  lemma InternalCommentNoSeamAwPieces2()
    ensures Scan(" (can retry", 0, "aw") && Scan(" if frame", 0, "aw") && Scan(" detaches)", 0, "aw")
  {
    assert Scan(" (can retry", 6, "aw");
  }

  lemma InternalCommentNoSeamAw()
    ensures NoSeam(InternalComment, "aw")
  {
    InternalCommentNoSeamAwPieces1();
    InternalCommentNoSeamAwPieces2();
    ClearJoin(InternalCommentParts, 1, "aw");
  }

  lemma InternalCommentNoSeamSpacePPieces1()
    ensures Scan("// Internal", 1, " p") && Scan(" submission", 0, " p") && Scan(" function", 0, " p")
  {
    assert Scan("// Internal", 6, " p");
    assert Scan(" submission", 6, " p");
  }

  lemma InternalCommentNoSeamSpacePPieces2()
    ensures Scan(" (can retry", 0, " p") && Scan(" if frame", 0, " p") && Scan(" detaches)", 0, " p")
  {
    assert Scan(" (can retry", 6, " p");
  }

  lemma InternalCommentNoSeamSpaceP()
    ensures NoSeam(InternalComment, " p")
  {
    InternalCommentNoSeamSpacePPieces1();
    InternalCommentNoSeamSpacePPieces2();
    ClearJoin(InternalCommentParts, 1, " p");
  }

  lemma SignatureNoStartPrPieces1()
    ensures Scan("asyn", 0, "pr") && Scan("c function", 0, "pr") && Scan(" submitTo", 0, "pr")
  {
  }

  lemma SignatureNoStartPrPieces2()
    ensures Scan("SparxNow", 0, "pr") && Scan("Internal(", 0, "pr")
  {
  }

  lemma SignatureNoStartPr()
    ensures NoStartIn(Signature, "pr")
  {
    SignatureNoStartPrPieces1();
    SignatureNoStartPrPieces2();
    ClearJoin(SignatureParts, 0, "pr");
  }

  lemma SignatureNoStartSlashPieces1()
    ensures Scan("asyn", 0, "/") && Scan("c function", 0, "/") && Scan(" submitTo", 0, "/")
  {
  }

  lemma SignatureNoStartSlashPieces2()
    ensures Scan("SparxNow", 0, "/") && Scan("Internal(", 0, "/")
  {
  }

  lemma SignatureNoStartSlash()
    ensures NoStartIn(Signature, "/")
  {
    SignatureNoStartSlashPieces1();
    SignatureNoStartSlashPieces2();
    ClearJoin(SignatureParts, 0, "/");
  }

  lemma SignatureNoStartMoPieces1()
    ensures Scan("asyn", 0, "mo") && Scan("c function", 0, "mo") && Scan(" submitTo", 0, "mo")
  {
  }

  lemma SignatureNoStartMoPieces2()
    ensures Scan("SparxNow", 0, "mo") && Scan("Internal(", 0, "mo")
  {
  }

  lemma SignatureNoStartMo()
    ensures NoStartIn(Signature, "mo")
  {
    SignatureNoStartMoPieces1();
    SignatureNoStartMoPieces2();
    ClearJoin(SignatureParts, 0, "mo");
  }

  lemma SignatureNoStartAwPieces1()
    ensures Scan("asyn", 0, "aw") && Scan("c function", 0, "aw") && Scan(" submitTo", 0, "aw")
  {
  }

  lemma SignatureNoStartAwPieces2()
    ensures Scan("SparxNow", 0, "aw") && Scan("Internal(", 0, "aw")
  {
  }

  lemma SignatureNoStartAw()
    ensures NoStartIn(Signature, "aw")
  {
    SignatureNoStartAwPieces1();
    SignatureNoStartAwPieces2();
    ClearJoin(SignatureParts, 0, "aw");
  }

  lemma SignatureNoStartSpacePPieces1()
    ensures Scan("asyn", 0, " p") && Scan("c function", 0, " p") && Scan(" submitTo", 0, " p")
  {
  }

  lemma SignatureNoStartSpacePPieces2()
    ensures Scan("SparxNow", 0, " p") && Scan("Internal(", 0, " p")
  {
  }

  lemma SignatureNoStartSpaceP()
    ensures NoStartIn(Signature, " p")
  {
    SignatureNoStartSpacePPieces1();
    SignatureNoStartSpacePPieces2();
    ClearJoin(SignatureParts, 0, " p");
  }

  /**
   * No `q` can start inside the exports marker past its first character:
   * the probe is decided on the two literal parts of the marker.
   */
  lemma ExportsNoSeam(q: string)
    requires Scan("module.", 1, q) && Scan("exports =", 0, q)
    ensures NoSeam(Exports, q)
  {
    ClearJoin(ExportsParts, 1, q);
  }

  // The openings callers lengthen with `ClearLonger`.

  lemma InternalCommentOpens()
    ensures |InternalComment| >= 4 && InternalComment[..4] == "// I" && InternalComment[..1] == "/"
  {
    assert InternalComment[..11] == "// Internal";
  }

  lemma SignatureOpens()
    ensures |Signature| >= 2 && Signature[..2] == "as"
  {
    assert Signature[..4] == "asyn";
  }

  lemma ExportsOpens()
    ensures |Exports| >= 2 && Exports[..2] == "mo" && Exports[..1] == "m"
  {
    assert Exports[..7] == "module.";
  }
}
