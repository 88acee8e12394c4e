/**
 * The region both scripts cut out of the file, and the reassembly
 * `before_func + func_content + after_func` that puts the rewritten region
 * back. The lemmas say where the markers are found again when the scripts
 * run on their own output.
 */
module Region {
  import opened Wrappers
  import opened Text
  import opened Markers

  /**
   * `func_start`: the first occurrence of the comment marker, or, when the
   * comment is missing, the first occurrence of the signature.
   */
  function FunctionStart(content: string): Option<nat>
  {
    match Find(content, InternalComment, 0)
    case Some(i) => Some(i)
    case None => Find(content, Signature, 0)
  }

  /** The start is the first comment marker, or the first signature in a text without one; there is none when both are missing. */
  lemma FunctionStartSpec(content: string)
    ensures FunctionStart(content).Some? ==>
      var i := FunctionStart(content).value;
      FirstAt(content, InternalComment, 0, i) ||
      (Absent(content, InternalComment) && FirstAt(content, Signature, 0, i))
    ensures FunctionStart(content).None? <==>
      Absent(content, InternalComment) && Absent(content, Signature)
  {
    match Find(content, InternalComment, 0)
    case Some(i) =>
      FindIff(content, InternalComment, 0, i);
    case None =>
      if Find(content, Signature, 0).Some? {
        FindIff(content, Signature, 0, Find(content, Signature, 0).value);
      }
  }

  /** `func_start` and `func_end`: the region is `content[start..end]`. */
  datatype Bounds = Bounds(start: nat, end: nat)

  predicate Within(b: Bounds, content: string)
  {
    b.start <= b.end <= |content|
  }

  /** `out` begins with the text before the region and ends with the text after it. */
  predicate KeepsAround(content: string, b: Bounds, out: string)
    requires Within(b, content)
  {
    b.start + (|content| - b.end) <= |out| &&
    out[..b.start] == content[..b.start] &&
    out[|out| - (|content| - b.end)..] == content[b.end..]
  }

  /** The file rebuilt around a rewritten region: the text before and after it is kept. */
  function Reassemble(content: string, b: Bounds, region: string): (r: string)
    requires Within(b, content)
    ensures KeepsAround(content, b, r)
    ensures |r| == b.start + |region| + (|content| - b.end)
    ensures r[..b.start] == content[..b.start]
    ensures r[b.start..b.start + |region|] == region
    ensures r[b.start + |region|..] == content[b.end..]
  {
    content[..b.start] + region + content[b.end..]
  }

  /** Putting a region back where it was taken from gives the text back. */
  lemma ReassembleSame(content: string, b: Bounds)
    requires Within(b, content)
    ensures Reassemble(content, b, content[b.start..b.end]) == content
  {
    assert content == content[..b.start] + content[b.start..b.end] + content[b.end..];
  }

  /** A text that begins with an occurrence of `q` cannot be run into by another occurrence of `q`. */
  lemma NoSeamAtMarker(content: string, q: string, m: string, at: nat)
    requires OccursAt(content, m, at) && NoSeam(q, m)
    ensures NoSeam(q, content[at..])
  {
    assert content[at..] == m + content[at + |m|..];
    NoSeamExtend(q, m, content[at + |m|..]);
  }

  /**
   * The start marker is found at the same index in the rebuilt text when the
   * new region still opens with it.
   */
  lemma {:induction false} StartFoundAgain(content: string, b: Bounds, region: string, h: string)
    requires Within(b, content) && Find(content, h, 0) == Some(b.start)
    requires |h| <= |region| && region[..|h|] == h
    ensures Find(Reassemble(content, b, region), h, 0) == Some(b.start)
  {
    var before, after := content[..b.start], content[b.end..];
    var o := before + region + after;
    var n := b.start + |h|;
    assert OccursAt(content, h, b.start);
    assert content[..n] == before + h by {
      assert content[..n] == content[..b.start] + content[b.start..n];
    }
    assert o[..n] == before + region[..|h|] by {
      assert o == before + (region[..|h|] + (region[|h|..] + after));
    }
    FindKeepsPrefix(content, o, h, n, b.start);
  }

  /**
   * A marker absent from the file stays absent from the rebuilt text when
   * the new region has none and cannot be run into at either seam: the
   * region opens with `h` and the rest of the file with `m`.
   */
  lemma AbsentAgain(content: string, b: Bounds, region: string, q: string, h: string, m: string)
    requires Within(b, content) && Absent(content, q) && Absent(region, q)
    requires |h| <= |region| && region[..|h|] == h && NoSeam(q, h)
    requires OccursAt(content, m, b.end) && NoSeam(q, m)
    ensures Absent(Reassemble(content, b, region), q)
  {
    var before, after := content[..b.start], content[b.end..];
    AbsentSlice(content, q, 0, b.start);
    AbsentSlice(content, q, b.end, |content|);
    assert after == content[b.end..|content|];
    NoSeamAtMarker(content, q, m, b.end);
    AbsentJoin(region, after, q);
    assert region + after == h + region[|h|..] + after;
    NoSeamExtend(q, h, region[|h|..] + after);
    AbsentJoin(before, region + after, q);
    assert before + (region + after) == Reassemble(content, b, region);
  }

  /**
   * The end marker that closed the region is found again right after the new
   * region, when the new region has none.
   */
  lemma EndFoundAgain(content: string, b: Bounds, region: string, q: string)
    requires Within(b, content) && OccursAt(content, q, b.end) && NoSeam(q, q)
    requires Absent(region, q)
    ensures Find(Reassemble(content, b, region), q, b.start) == Some(b.start + |region|)
  {
    var after := content[b.end..];
    NoSeamAtMarker(content, q, q, b.end);
    assert OccursAt(after, q, 0) by {
      assert after[..|q|] == content[b.end..b.end + |q|];
    }
    FindAcross(content[..b.start], region, after, q);
  }

  /**
   * A marker missing from the new region and from the rest of the file is
   * not found from the region start, when the rest of the file opens with
   * `m`, which it cannot run into.
   */
  lemma EndAbsentAgain(content: string, b: Bounds, region: string, q: string, m: string)
    requires Within(b, content) && Absent(region, q) && Absent(content[b.end..], q)
    requires OccursAt(content, m, b.end) && NoSeam(q, m)
    ensures Find(Reassemble(content, b, region), q, b.start) == None
  {
    NoSeamAtMarker(content, q, m, b.end);
    AbsentJoin(region, content[b.end..], q);
    assert Reassemble(content, b, region) == content[..b.start] + (region + content[b.end..]);
    FindNoneAfter(content[..b.start], region + content[b.end..], q);
  }

  /** The region opens with its start marker when the end marker cannot start inside it. */
  lemma OpenerInside(content: string, h: string, m: string, s: nat, e: nat)
    requires OccursAt(content, h, s) && OccursAt(content, m, e) && s <= e && NoStartIn(h, m)
    ensures s + |h| <= e && |h| <= |content[s..e]| && content[s..e][..|h|] == h
  {
    AfterWhole(content, h, m, s, e);
    assert content[s..e][..|h|] == content[s..s + |h|];
  }

  /** The region starts at the signature in a text without the comment marker. */
  lemma StartsAtSignature(content: string, i: nat)
    requires Absent(content, InternalComment) && Find(content, Signature, 0) == Some(i)
    ensures FunctionStart(content) == Some(i)
  {
  }

  /** Which marker the region start came from. */
  lemma StartCases(content: string, i: nat)
    requires FunctionStart(content) == Some(i)
    ensures Find(content, InternalComment, 0).Some? ==> Find(content, InternalComment, 0) == Some(i)
    ensures Find(content, InternalComment, 0).None? ==>
      Absent(content, InternalComment) && Find(content, Signature, 0) == Some(i)
  {
  }

  /** One exports marker cannot run into another. */
  lemma ExportsNoSelfSeam()
    ensures |Exports| > 0 && NoSeam(Exports, Exports)
  {
    ExportsOpens();
    ExportsNoSeam("mo");
    ClearLonger(Exports, 1, "mo", Exports);
  }

  /** A comment marker cannot run into the signature or the exports marker. */
  lemma CommentSeams()
    ensures NoSeam(InternalComment, Signature) && NoSeam(InternalComment, Exports)
  {
    InternalCommentNoSeamAs();
    SignatureOpens();
    ClearLonger(InternalComment, 1, "as", Signature);
    InternalCommentNoSeamMo();
    ExportsOpens();
    ClearLonger(InternalComment, 1, "mo", Exports);
  }

  /**
   * A rewritten region `x` opens with the marker the region start was found
   * at, and a comment marker missing from the file is missing from `x`.
   */
  ghost predicate OpensAsBefore(content: string, x: string)
  {
    (Find(content, InternalComment, 0).Some? ==>
      |InternalComment| <= |x| && x[..|InternalComment|] == InternalComment) &&
    (Find(content, InternalComment, 0).None? ==>
      |Signature| <= |x| && x[..|Signature|] == Signature && Absent(x, InternalComment))
  }

  /** Run on its own output, a script finds the comment marker where it found it before. */
  lemma CommentFoundAgain(content: string, b: Bounds, x: string)
    requires Within(b, content) && Find(content, InternalComment, 0) == Some(b.start)
    requires |InternalComment| <= |x| && x[..|InternalComment|] == InternalComment
    ensures FunctionStart(Reassemble(content, b, x)) == Some(b.start)
  {
    StartFoundAgain(content, b, x, InternalComment);
  }

  /**
   * Run on its own output, a script still misses the comment marker and
   * finds the signature where it found it before, when the region was closed
   * by a marker `m` that a comment marker cannot run into.
   */
  lemma SignatureFoundAgain(content: string, b: Bounds, x: string, m: string)
    requires Within(b, content) && Absent(content, InternalComment)
    requires Find(content, Signature, 0) == Some(b.start)
    requires OccursAt(content, m, b.end) && NoSeam(InternalComment, m)
    requires |Signature| <= |x| && x[..|Signature|] == Signature && Absent(x, InternalComment)
    ensures FunctionStart(Reassemble(content, b, x)) == Some(b.start)
  {
    CommentSeams();
    AbsentAgain(content, b, x, InternalComment, Signature, m);
    StartFoundAgain(content, b, x, Signature);
    StartsAtSignature(Reassemble(content, b, x), b.start);
  }

  /** Run on its own output, a script finds the region start where it found it before. */
  lemma StartAgain(content: string, b: Bounds, x: string, m: string)
    requires Within(b, content) && FunctionStart(content) == Some(b.start)
    requires OccursAt(content, m, b.end) && NoSeam(InternalComment, m)
    requires OpensAsBefore(content, x)
    ensures FunctionStart(Reassemble(content, b, x)) == Some(b.start)
  {
    StartCases(content, b.start);
    if Find(content, InternalComment, 0).Some? {
      CommentFoundAgain(content, b, x);
    } else {
      SignatureFoundAgain(content, b, x, m);
    }
  }

  /** Run on its own output, a script finds the exports marker right after a new region without one. */
  lemma ExportsFoundAgain(content: string, b: Bounds, x: string)
    requires Within(b, content) && OccursAt(content, Exports, b.end) && Absent(x, Exports)
    ensures Find(Reassemble(content, b, x), Exports, b.start) == Some(b.start + |x|)
  {
    ExportsNoSelfSeam();
    EndFoundAgain(content, b, x, Exports);
  }
}
