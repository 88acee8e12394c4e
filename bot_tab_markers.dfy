/**
 * The extra end marker of the bot-tabs script, with the facts about which
 * marker openings cannot occur inside it.
 */
module BotTabMarkers {
  import opened Text

  const ApiCommentParts: seq<string> := ["// API", " endpoints", " for", " Express", " server"]
  /** `// API endpoints for Express server`, the end marker searched for first. */
  const ApiComment: string := Join(ApiCommentParts)

  lemma ApiCommentNoSeamAwPieces1()
    ensures Scan("// API", 1, "aw") && Scan(" endpoints", 0, "aw") && Scan(" for", 0, "aw")
  {
  }

  lemma ApiCommentNoSeamAwPieces2()
    ensures Scan(" Express", 0, "aw") && Scan(" server", 0, "aw")
  {
  }

  lemma ApiCommentNoSeamAw()
    ensures NoSeam(ApiComment, "aw")
  {
    ApiCommentNoSeamAwPieces1();
    ApiCommentNoSeamAwPieces2();
    ClearJoin(ApiCommentParts, 1, "aw");
  }

  lemma ApiCommentNoSeamSpacePPieces1()
    ensures Scan("// API", 1, " p") && Scan(" endpoints", 0, " p") && Scan(" for", 0, " p")
  {
  }

  lemma ApiCommentNoSeamSpacePPieces2()
    ensures Scan(" Express", 0, " p") && Scan(" server", 0, " p")
  {
  }

  lemma ApiCommentNoSeamSpaceP()
    ensures NoSeam(ApiComment, " p")
  {
    ApiCommentNoSeamSpacePPieces1();
    ApiCommentNoSeamSpacePPieces2();
    ClearJoin(ApiCommentParts, 1, " p");
  }

  lemma ApiCommentNoSeamCommentPieces1()
    ensures Scan("// API", 1, "//") && Scan(" endpoints", 0, "//") && Scan(" for", 0, "//")
  {
  }

  lemma ApiCommentNoSeamCommentPieces2()
    ensures Scan(" Express", 0, "//") && Scan(" server", 0, "//")
  {
  }

  lemma ApiCommentNoSeamComment()
    ensures NoSeam(ApiComment, "//")
  {
    ApiCommentNoSeamCommentPieces1();
    ApiCommentNoSeamCommentPieces2();
    ClearJoin(ApiCommentParts, 1, "//");
  }

  lemma ApiCommentNoSeamMoPieces1()
    ensures Scan("// API", 1, "mo") && Scan(" endpoints", 0, "mo") && Scan(" for", 0, "mo")
  {
  }

  lemma ApiCommentNoSeamMoPieces2()
    ensures Scan(" Express", 0, "mo") && Scan(" server", 0, "mo")
  {
  }

  lemma ApiCommentNoSeamMo()
    ensures NoSeam(ApiComment, "mo")
  {
    ApiCommentNoSeamMoPieces1();
    ApiCommentNoSeamMoPieces2();
    ClearJoin(ApiCommentParts, 1, "mo");
  }

  lemma ApiCommentOpens()
    ensures |ApiComment| >= 4 && ApiComment[..2] == "//" && ApiComment[..4] == "// A" && ApiComment[..1] == "/"
  {
    assert ApiComment[..6] == "// API";
  }
}
