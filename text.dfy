/**
 * Literal text primitives of the patch scripts, with Python's semantics:
 * `str.find`, `str.count` and `str.replace` on text held as `seq<char>`,
 * plus a small toolkit for proving that a marker cannot occur in text
 * built by splicing pieces together.
 */
module Text {
  import opened Wrappers

  /** `p` occurs in `s` starting at index `i`. */
  predicate OccursAt(s: string, p: string, i: int)
  {
    0 <= i && i + |p| <= |s| && s[i..i + |p|] == p
  }

  /** `p` occurs nowhere in `s`. */
  ghost predicate Absent(s: string, p: string)
  {
    forall i :: !OccursAt(s, p, i)
  }

  /**
   * Python's `s.find(p, from)` with `-1` turned into `None`: the first
   * index at or after `from` where `p` occurs.
   */
  function Find(s: string, p: string, from: nat): (r: Option<nat>)
    ensures r.Some? ==> from <= r.value && OccursAt(s, p, r.value)
    ensures r.Some? ==> forall i :: from <= i < r.value ==> !OccursAt(s, p, i)
    ensures r.None? ==> forall i :: from <= i ==> !OccursAt(s, p, i)
    decreases |s| - from
  {
    if from + |p| > |s| then None
    else if s[from..from + |p|] == p then Some(from)
    else Find(s, p, from + 1)
  }

  /** Python's `s.count(p)`: the number of non-overlapping occurrences, scanning left to right. */
  function Count(s: string, p: string): nat
    decreases |s|
  {
    if |p| == 0 then |s| + 1
    else if |s| < |p| then 0
    else if s[..|p|] == p then 1 + Count(s[|p|..], p)
    else Count(s[1..], p)
  }

  /** Python's `s.replace("", r)`: `r` before every character and at the end. */
  function Interleave(s: string, r: string): string
  {
    if s == [] then r else r + [s[0]] + Interleave(s[1..], r)
  }

  /**
   * Python's `s.replace(p, r)`: every non-overlapping occurrence of `p`,
   * found left to right, replaced by `r`.
   */
  function ReplaceAll(s: string, p: string, r: string): string
    decreases |s|
  {
    if |p| == 0 then Interleave(s, r)
    else if |s| < |p| then s
    else if s[..|p|] == p then r + ReplaceAll(s[|p|..], p, r)
    else [s[0]] + ReplaceAll(s[1..], p, r)
  }

  /** Non-overlapping occurrences of a non-empty pattern fit in the text side by side. */
  lemma {:induction false} CountBound(s: string, p: string)
    requires |p| > 0
    ensures Count(s, p) * |p| <= |s|
    decreases |s|
  {
    if |s| >= |p| {
      if s[..|p|] == p {
        CountBound(s[|p|..], p);
        assert (1 + Count(s[|p|..], p)) * |p| == |p| + Count(s[|p|..], p) * |p|;
      } else {
        CountBound(s[1..], p);
      }
    }
  }

  /** The empty pattern is inserted between all characters and at both ends. */
  lemma {:induction false} InterleaveLength(s: string, r: string)
    ensures |Interleave(s, r)| == |s| + (|s| + 1) * |r|
  {
    if s != [] {
      InterleaveLength(s[1..], r);
      assert (|s| + 1) * |r| == |r| + |s| * |r|;
    }
  }

  /** Each replaced occurrence changes the length by `|r| - |p|`. */
  lemma {:induction false} ReplaceAllLength(s: string, p: string, r: string)
    ensures |ReplaceAll(s, p, r)| == |s| + Count(s, p) * (|r| - |p|)
    decreases |s|
  {
    if |p| == 0 {
      InterleaveLength(s, r);
    } else if |s| >= |p| {
      if OccursAt(s, p, 0) {
        ReplaceAllHit(s, p, r);
        var rest := s[|p|..];
        ReplaceAllLength(rest, p, r);
        HitLength(|s|, |p|, |r|, |rest|, Count(rest, p), |ReplaceAll(rest, p, r)|);
      } else {
        ReplaceAllSkip(s, p, r);
        ReplaceAllLength(s[1..], p, r);
      }
    }
  }

  lemma HitLength(n: int, lp: int, lr: int, m: int, c: int, t: int)
    requires m == n - lp && t == m + c * (lr - lp)
    ensures lr + t == n + (1 + c) * (lr - lp)
  {
  }

  /** A pattern is counted zero times exactly when it does not occur. */
  lemma {:induction false} CountZeroIff(s: string, p: string)
    ensures Count(s, p) == 0 <==> Absent(s, p)
    decreases |s|
  {
    if |p| == 0 {
      assert OccursAt(s, p, 0);
    } else if |s| < |p| {
      OccursTooLong(s, p);
    } else if s[..|p|] == p {
      assert OccursAt(s, p, 0);
    } else {
      CountZeroIff(s[1..], p);
      OccursDropOne(s, p);
    }
  }

  /** Replacing a pattern that does not occur changes nothing. */
  lemma {:induction false} ReplaceAllAbsent(s: string, p: string, r: string)
    requires Absent(s, p)
    ensures ReplaceAll(s, p, r) == s
    decreases |s|
  {
    if |p| == 0 {
      assert OccursAt(s, p, 0);
    } else if |s| >= |p| {
      assert !OccursAt(s, p, 0);
      OccursDropOne(s, p);
      ReplaceAllAbsent(s[1..], p, r);
    }
  }

  /** `i` is the first index at or after `from` where `p` occurs. */
  ghost predicate FirstAt(s: string, p: string, from: nat, i: nat)
  {
    from <= i && OccursAt(s, p, i) && forall j :: from <= j < i ==> !OccursAt(s, p, j)
  }

  /** `Find` and `FirstAt` describe the same index, and `Find` fails exactly when nothing occurs. */
  lemma FindIff(s: string, p: string, from: nat, i: nat)
    ensures Find(s, p, from) == Some(i) <==> FirstAt(s, p, from, i)
    ensures Find(s, p, from) == None <==> forall j :: from <= j ==> !OccursAt(s, p, j)
  {
    if FirstAt(s, p, from, i) {
      FindIsFirst(s, p, from, i);
    }
  }

  /** `Find` returns exactly the first occurrence at or after `from`. */
  lemma FindIsFirst(s: string, p: string, from: nat, m: nat)
    requires from <= m && OccursAt(s, p, m)
    requires forall i :: from <= i < m ==> !OccursAt(s, p, i)
    ensures Find(s, p, from) == Some(m)
  {
  }

  /**
   * Left-to-right replacement splits at the first occurrence: the text
   * before it is kept, the occurrence becomes `r`, and the rest of the text
   * is rewritten on its own.
   */
  lemma {:induction false} ReplaceAllAtFirst(s: string, p: string, r: string, m: nat)
    requires |p| > 0 && Find(s, p, 0) == Some(m)
    ensures ReplaceAll(s, p, r) == s[..m] + r + ReplaceAll(s[m + |p|..], p, r)
    ensures Count(s, p) == 1 + Count(s[m + |p|..], p)
    decreases m, 1
  {
    if m == 0 {
      ReplaceAllHit(s, p, r);
    } else {
      ReplaceAllAtFirstStep(s, p, r, m);
    }
  }

  /** The inductive step of `ReplaceAllAtFirst`: a character before the first occurrence is kept. */
  lemma {:induction false} ReplaceAllAtFirstStep(s: string, p: string, r: string, m: nat)
    requires |p| > 0 && 0 < m && Find(s, p, 0) == Some(m)
    ensures ReplaceAll(s, p, r) == s[..m] + r + ReplaceAll(s[m + |p|..], p, r)
    ensures Count(s, p) == 1 + Count(s[m + |p|..], p)
    decreases m, 0
  {
    NoEarlierInTail(s, p, m);
    var tail, k := s[1..], m - 1;
    ReplaceAllAtFirst(tail, p, r, k);
    SkipReplace(s, tail, p, r, m, k);
    SkipCount(s, tail, p, m, k);
  }

  /** A kept first character, then the rest rewritten up to and past its first occurrence. */
  lemma SkipReplace(s: string, tail: string, p: string, r: string, m: nat, k: nat)
    requires |p| > 0 && 0 < m && m + |p| <= |s| && !OccursAt(s, p, 0)
    requires tail == s[1..] && k == m - 1
    requires ReplaceAll(tail, p, r) == tail[..k] + r + ReplaceAll(tail[k + |p|..], p, r)
    ensures ReplaceAll(s, p, r) == s[..m] + r + ReplaceAll(s[m + |p|..], p, r)
  {
    ReplaceAllSkip(s, p, r);
    DropOneSplit(s, m, |p|);
    assert tail[k + |p|..] == s[m + |p|..];
    ConsAssoc(s[0], tail[..k], r, ReplaceAll(s[m + |p|..], p, r), s[..m]);
  }

  /** A kept first character adds nothing to the count. */
  lemma SkipCount(s: string, tail: string, p: string, m: nat, k: nat)
    requires |p| > 0 && 0 < m && m + |p| <= |s| && !OccursAt(s, p, 0)
    requires tail == s[1..] && k == m - 1
    requires Count(tail, p) == 1 + Count(tail[k + |p|..], p)
    ensures Count(s, p) == 1 + Count(s[m + |p|..], p)
  {
    ReplaceAllSkip(s, p, []);
    DropOneSplit(s, m, |p|);
    assert tail[k + |p|..] == s[m + |p|..];
  }

  lemma ConsAssoc(x: char, a: string, r: string, b: string, h: string)
    requires [x] + a == h
    ensures [x] + (a + r + b) == h + r + b
  {
  }

  /** Where `p` starts, it becomes `r` and the scan resumes after it. */
  lemma ReplaceAllHit(s: string, p: string, r: string)
    requires |p| > 0 && OccursAt(s, p, 0)
    ensures ReplaceAll(s, p, r) == s[..0] + r + ReplaceAll(s[0 + |p|..], p, r)
    ensures Count(s, p) == 1 + Count(s[0 + |p|..], p)
  {
    assert s[..|p|] == p;
    assert s[..0] + r == r;
  }

  lemma DropOneSplit(s: string, m: nat, n: nat)
    requires 0 < m && m + n <= |s|
    ensures s[1..][m - 1 + n..] == s[m + n..]
    ensures [s[0]] + s[1..][..m - 1] == s[..m]
  {
  }

  /** Where `p` does not start, the first character is kept and the scan moves on. */
  lemma ReplaceAllSkip(s: string, p: string, r: string)
    requires |p| > 0 && |s| >= |p| && !OccursAt(s, p, 0)
    ensures ReplaceAll(s, p, r) == [s[0]] + ReplaceAll(s[1..], p, r)
    ensures Count(s, p) == Count(s[1..], p)
  {
    assert s[..|p|] != p;
  }

  lemma NoEarlierInTail(s: string, p: string, m: nat)
    requires 0 < m && Find(s, p, 0) == Some(m)
    ensures Find(s[1..], p, 0) == Some(m - 1)
    ensures m + |p| <= |s| && !OccursAt(s, p, 0)
  {
    assert !OccursAt(s, p, 0);
    OccursDropOne(s, p);
    FindIsFirst(s[1..], p, 0, m - 1);
  }

  /**
   * Replacing `p` by `r` leaves no occurrence of `q` when `q` cannot form
   * across or inside `r` and either `q` is `p` itself or did not occur.
   */
  lemma {:induction false} ReplaceAllKeepsAbsent(s: string, p: string, r: string, q: string)
    requires |p| > 0 && Isolated(q, r)
    requires q == p || Absent(s, q)
    ensures Absent(ReplaceAll(s, p, r), q)
    decreases |s|
  {
    match Find(s, p, 0)
    case None =>
      ReplaceAllAbsent(s, p, r);
    case Some(m) =>
      ReplaceAllAtFirst(s, p, r, m);
      var rest := s[m + |p|..];
      if q != p {
        AbsentSlice(s, q, m + |p|, |s|);
        AbsentSlice(s, q, 0, m);
        assert s[m + |p|..|s|] == rest && s[0..m] == s[..m];
      } else {
        AbsentBefore(s, p, m);
      }
      ReplaceAllKeepsAbsent(rest, p, r, q);
      AbsentSplice(s[..m], r, ReplaceAll(rest, p, r), q);
  }

  /** Splicing `r` between two texts without `q` creates no `q` when `q` is isolated from `r`. */
  lemma AbsentSplice(a: string, r: string, b: string, q: string)
    requires Absent(a, q) && Absent(b, q) && Isolated(q, r)
    ensures Absent(a + r + b, q)
  {
    AbsentHead(r, b, q);
    NoSeamExtend(q, r, b);
    AbsentJoin(a, r + b, q);
    assert a + r + b == a + (r + b);
  }

  /** The text before the first occurrence of `p` holds no `p`. */
  lemma AbsentBefore(s: string, p: string, m: nat)
    requires |p| > 0 && Find(s, p, 0) == Some(m)
    ensures Absent(s[..m], p)
  {
    forall i ensures !OccursAt(s[..m], p, i) {
      OccursInSlice(s, p, 0, m, i);
    }
  }

  /** Replacement never reaches into a head `w` inside which no `p` can start. */
  lemma {:induction false} ReplaceAllKeepsHead(w: string, s: string, p: string, r: string)
    requires |p| > 0 && NoStartIn(w, p)
    ensures ReplaceAll(w + s, p, r) == w + ReplaceAll(s, p, r)
    decreases |w|
  {
    if w != [] {
      AgreeAt(w, p, 0);
      HeadAgrees(w, s, p, 0);
      if |w + s| >= |p| {
        ReplaceAllSkip(w + s, p, r);
        NoStartInDrop(w, p, 1);
        ReplaceAllKeepsHead(w[1..], s, p, r);
        assert (w + s)[1..] == w[1..] + s;
        var t := ReplaceAll(s, p, r);
        assert [w[0]] + (w[1..] + t) == ([w[0]] + w[1..]) + t;
        assert [w[0]] + w[1..] == w;
      } else {
        assert ReplaceAll(s, p, r) == s;
      }
    } else {
      assert w + s == s;
    }
  }

  /**
   * Replacement splits around a middle `w` that no occurrence can start in
   * or run into: the text on each side is rewritten on its own.
   */
  lemma {:induction false} ReplaceAllAround(x: string, w: string, y: string, p: string, r: string)
    requires |p| > 0 && NoSeam(p, w) && NoStartIn(w, p)
    ensures ReplaceAll(x + w + y, p, r) == ReplaceAll(x, p, r) + w + ReplaceAll(y, p, r)
    decreases |x|
  {
    if x == [] {
      assert x + w + y == w + y;
      ReplaceAllKeepsHead(w, y, p, r);
    } else if OccursAt(x + w + y, p, 0) {
      NoStraddle(x, w, y, p);
      ReplaceAllAround(x[|p|..], w, y, p, r);
      AroundHit(x, w, y, p, r);
    } else if |x + w + y| >= |p| {
      ReplaceAllAround(x[1..], w, y, p, r);
      AroundSkip(x, w, y, p, r);
    } else {
      assert ReplaceAll(y, p, r) == y;
    }
  }

  /** An occurrence at the start of `x + w + y` lies inside `x`: it cannot run into `w`. */
  lemma NoStraddle(x: string, w: string, y: string, p: string)
    requires x != [] && NoSeam(p, w) && OccursAt(x + w + y, p, 0)
    ensures |p| <= |x| && OccursAt(x, p, 0)
  {
    NoSeamExtend(p, w, y);
    assert x + w + y == x + (w + y);
    StraddleAgrees(x, w + y, p, 0);
    assert (x + w + y)[..|p|] == x[..|p|];
  }

  lemma AroundHit(x: string, w: string, y: string, p: string, r: string)
    requires |p| > 0 && |p| <= |x| && OccursAt(x, p, 0) && OccursAt(x + w + y, p, 0)
    requires ReplaceAll(x[|p|..] + w + y, p, r) == ReplaceAll(x[|p|..], p, r) + w + ReplaceAll(y, p, r)
    ensures ReplaceAll(x + w + y, p, r) == ReplaceAll(x, p, r) + w + ReplaceAll(y, p, r)
  {
    HitFront(x, w, y, p, r);
    HitHead(x, p, r);
    PrefixAround(r, ReplaceAll(x + w + y, p, r), ReplaceAll(x[|p|..] + w + y, p, r), ReplaceAll(x, p, r), ReplaceAll(x[|p|..], p, r), w, ReplaceAll(y, p, r));
  }

  /** An occurrence at the start of `x` is replaced first, whatever follows `x`. */
  lemma HitFront(x: string, w: string, y: string, p: string, r: string)
    requires |p| > 0 && |p| <= |x| && OccursAt(x, p, 0)
    ensures ReplaceAll(x + w + y, p, r) == r + ReplaceAll(x[|p|..] + w + y, p, r)
  {
    var s := x + w + y;
    assert s[..|p|] == p;
    assert s[|p|..] == x[|p|..] + w + y;
  }

  /** An occurrence at the start of `x` is replaced first. */
  lemma HitHead(x: string, p: string, r: string)
    requires |p| > 0 && |p| <= |x| && OccursAt(x, p, 0)
    ensures ReplaceAll(x, p, r) == r + ReplaceAll(x[|p|..], p, r)
  {
    assert x[..|p|] == p;
  }

  lemma AroundSkip(x: string, w: string, y: string, p: string, r: string)
    requires |p| > 0 && x != [] && |x + w + y| >= |p| && !OccursAt(x + w + y, p, 0)
    requires ReplaceAll(x[1..] + w + y, p, r) == ReplaceAll(x[1..], p, r) + w + ReplaceAll(y, p, r)
    ensures ReplaceAll(x + w + y, p, r) == ReplaceAll(x, p, r) + w + ReplaceAll(y, p, r)
  {
    SkipFront(x, w, y, p, r);
    SkipHead(x, w, y, p, r);
    PrefixAround([x[0]], ReplaceAll(x + w + y, p, r), ReplaceAll(x[1..] + w + y, p, r), ReplaceAll(x, p, r), ReplaceAll(x[1..], p, r), w, ReplaceAll(y, p, r));
  }

  /** A text that does not open with `p` keeps its first character in front. */
  lemma SkipFront(x: string, w: string, y: string, p: string, r: string)
    requires |p| > 0 && x != [] && |x + w + y| >= |p| && !OccursAt(x + w + y, p, 0)
    ensures ReplaceAll(x + w + y, p, r) == [x[0]] + ReplaceAll(x[1..] + w + y, p, r)
  {
    var s := x + w + y;
    assert s[..|p|] != p;
    assert s[0] == x[0];
    assert s[1..] == x[1..] + w + y;
  }

  /** The front of a text that does not open with `p` does not open with it either. */
  lemma SkipHead(x: string, w: string, y: string, p: string, r: string)
    requires |p| > 0 && x != [] && !OccursAt(x + w + y, p, 0)
    ensures ReplaceAll(x, p, r) == [x[0]] + ReplaceAll(x[1..], p, r)
  {
    if |x| >= |p| {
      assert x[..|p|] == (x + w + y)[..|p|];
      assert x[..|p|] != p;
    } else {
      assert ReplaceAll(x[1..], p, r) == x[1..];
      assert x == [x[0]] + x[1..];
    }
  }

  /** Putting `h` in front of both sides of a split keeps the split. */
  lemma PrefixAround(h: string, whole: string, tail: string, head: string, rest: string, w: string, b: string)
    requires whole == h + tail && tail == rest + w + b && head == h + rest
    ensures whole == head + w + b
  {
  }

  /** Text without `q` holds nothing that contains `q`. */
  lemma AbsentWithin(s: string, q: string, a: string, b: string)
    requires Absent(s, q)
    ensures Absent(s, a + q + b)
  {
    forall i ensures !OccursAt(s, a + q + b, i) {
      ContainedOccurs(s, q, a, b, i);
    }
  }

  lemma ContainedOccurs(s: string, q: string, a: string, b: string, i: int)
    ensures OccursAt(s, a + q + b, i) ==> OccursAt(s, q, i + |a|)
  {
    if OccursAt(s, a + q + b, i) {
      var big := a + q + b;
      assert big[|a|..|a| + |q|] == q;
      SliceOfSlice(s, i, i + |big|, |a|, |a| + |q|);
    }
  }

  // ---------------------------------------------------------------------
  // Occurrences under slicing and concatenation

  lemma OccursTooLong(s: string, p: string)
    requires |s| < |p|
    ensures Absent(s, p)
  {
  }

  /** Occurrences in `s[1..]` are the occurrences in `s` shifted by one. */
  lemma OccursDropOne(s: string, p: string)
    requires |s| > 0
    ensures forall i :: i >= 0 ==> (OccursAt(s, p, i + 1) <==> OccursAt(s[1..], p, i))
    ensures Absent(s[1..], p) && !OccursAt(s, p, 0) ==> Absent(s, p)
    ensures Absent(s, p) ==> Absent(s[1..], p)
  {
    forall i | i >= 0
      ensures OccursAt(s, p, i + 1) <==> OccursAt(s[1..], p, i)
    {
      if i + 1 + |p| <= |s| {
        SliceOfSlice(s, 1, |s|, i, i + |p|);
      }
    }
    forall i | i >= 1 ensures OccursAt(s, p, i) <==> OccursAt(s[1..], p, i - 1) {
      assert i == (i - 1) + 1;
    }
  }

  /** An occurrence inside `s[lo..hi]` is an occurrence in `s`. */
  lemma OccursInSlice(s: string, p: string, lo: nat, hi: nat, i: int)
    requires lo <= hi <= |s|
    ensures OccursAt(s[lo..hi], p, i) ==> OccursAt(s, p, lo + i) && i + |p| <= hi - lo
  {
    if OccursAt(s[lo..hi], p, i) {
      SliceOfSlice(s, lo, hi, i, i + |p|);
    }
  }

  lemma AbsentSlice(s: string, p: string, lo: nat, hi: nat)
    requires lo <= hi <= |s|
    requires Absent(s, p)
    ensures Absent(s[lo..hi], p)
  {
    forall i ensures !OccursAt(s[lo..hi], p, i) {
      OccursInSlice(s, p, lo, hi, i);
    }
  }

  lemma SliceOfSlice(s: string, lo: nat, hi: nat, a: nat, b: nat)
    requires lo <= hi <= |s| && a <= b <= hi - lo
    ensures s[lo..hi][a..b] == s[lo + a..lo + b]
  {
    forall k | 0 <= k < b - a ensures s[lo..hi][a..b][k] == s[lo + a..lo + b][k] {
      assert s[lo..hi][a..b][k] == s[lo..hi][a + k] == s[lo + a + k];
    }
  }

  /** The occurrences of `p` lying wholly inside `a` or wholly inside `b` in `a + b`. */
  lemma OccursInConcat(a: string, b: string, p: string, i: int)
    ensures i + |p| <= |a| ==> (OccursAt(a + b, p, i) <==> OccursAt(a, p, i))
    ensures i >= |a| ==> (OccursAt(a + b, p, i) <==> OccursAt(b, p, i - |a|))
  {
    if 0 <= i && i + |p| <= |a| {
      assert (a + b)[i..i + |p|] == a[i..i + |p|];
    }
    if i >= |a| && i + |p| <= |a| + |b| {
      assert (a + b)[i..i + |p|] == b[i - |a|..i - |a| + |p|];
    }
  }

  // ---------------------------------------------------------------------
  // Where a marker can and cannot start

  /** One of `a`, `b` is a prefix of the other. */
  predicate Agree(a: string, b: string)
  {
    if |a| <= |b| then a == b[..|a|] else a[..|b|] == b
  }

  /** No occurrence of `q` starts inside `w`, not even one running past the end of `w`. */
  predicate NoStartIn(w: string, q: string)
  {
    ClearFrom(w, 0, q)
  }

  /** No occurrence of `q` can start before a text that begins with `w` and run into it. */
  predicate NoSeam(q: string, w: string)
  {
    ClearFrom(q, 1, w)
  }

  /** `q` cannot appear in a text spliced out of `w`: the text it replaces is all `w` contributes. */
  predicate Isolated(q: string, w: string)
  {
    NoSeam(q, w) && NoStartIn(w, q)
  }

  /** Agreeing with `w + rest` implies agreeing with `w`. */
  lemma AgreePrefix(a: string, w: string, rest: string)
    ensures Agree(a, w + rest) ==> Agree(a, w)
  {
    if Agree(a, w + rest) {
      if |a| <= |w| {
        assert a == (w + rest)[..|a|] == w[..|a|];
      } else {
        assert a[..|w|] == (w + rest)[..|w|] == w;
      }
    }
  }

  /** `NoSeam` against a prefix of a text holds against the whole text. */
  lemma NoSeamExtend(q: string, w: string, rest: string)
    requires NoSeam(q, w)
    ensures NoSeam(q, w + rest)
  {
    forall k | 1 <= k < |q| ensures !Agree(q[k..], w + rest) {
      AgreePrefix(q[k..], w, rest);
    }
  }

  lemma NoStartInDrop(w: string, q: string, n: nat)
    requires n <= |w| && NoStartIn(w, q)
    ensures NoStartIn(w[n..], q)
  {
    forall j | 0 <= j < |w[n..]| ensures !Agree(w[n..][j..], q) {
      assert w[n..][j..] == w[n + j..];
    }
  }

  /** An occurrence of `q` in `a + b` that straddles the join makes a tail of `q` agree with `b`. */
  lemma StraddleAgrees(a: string, b: string, q: string, i: int)
    ensures OccursAt(a + b, q, i) && i < |a| < i + |q| ==> Agree(q[|a| - i..], b)
  {
    if OccursAt(a + b, q, i) && i < |a| < i + |q| {
      var k := |a| - i;
      assert q[k..] == (a + b)[|a|..i + |q|] == b[..|q| - k];
    }
  }

  /** An occurrence of `q` in `w + b` that starts inside `w` makes a tail of `w` agree with `q`. */
  lemma HeadAgrees(w: string, b: string, q: string, i: int)
    ensures OccursAt(w + b, q, i) && i < |w| ==> Agree(w[i..], q)
  {
    if OccursAt(w + b, q, i) && i < |w| {
      var t := w[i..];
      if |t| <= |q| {
        assert t == (w + b)[i..|w|] == q[..|t|];
      } else {
        assert t[..|q|] == (w + b)[i..i + |q|] == q;
      }
    }
  }

  /** Gluing two texts without `q` creates no `q` when `q` cannot run into the second one. */
  lemma AbsentJoin(a: string, b: string, q: string)
    requires Absent(a, q) && Absent(b, q) && NoSeam(q, b)
    ensures Absent(a + b, q)
  {
    forall i ensures !OccursAt(a + b, q, i) {
      OccursInConcat(a, b, q, i);
      StraddleAgrees(a, b, q, i);
    }
  }

  /** Putting `w` in front of a text without `q` creates no `q` when no `q` starts inside `w`. */
  lemma AbsentHead(w: string, b: string, q: string)
    requires NoStartIn(w, q) && Absent(b, q)
    ensures Absent(w + b, q)
  {
    forall i ensures !OccursAt(w + b, q, i) {
      OccursInConcat(w, b, q, i);
      HeadAgrees(w, b, q, i);
    }
  }

  lemma AgreeAt(a: string, b: string, i: nat)
    ensures Agree(a, b) && i < |a| && i < |b| ==> a[i] == b[i]
  {
    if Agree(a, b) && i < |a| && i < |b| {
      if |a| <= |b| {
        assert a[i] == b[..|a|][i];
      } else {
        assert a[..|b|][i] == b[i];
      }
    }
  }

  /** Agreeing with a longer text implies agreeing with its prefix, whichever side the prefix is on. */
  lemma AgreeShorter(x: string, y: string, q: string)
    ensures Agree(x + y, q) ==> Agree(x, q)
  {
    if Agree(x + y, q) {
      if |x| <= |q| {
        assert x == (x + y)[..|x|];
      } else {
        assert x[..|q|] == (x + y)[..|q|];
      }
    }
  }

  /** No occurrence of `q` starts in `w` at or after offset `lo`. */
  predicate ClearFrom(w: string, lo: nat, q: string)
  {
    forall k :: lo <= k < |w| ==> !Agree(w[k..], q)
  }

  // ---------------------------------------------------------------------
  // Deciding `ClearFrom` on literal markers, a short piece at a time

  /** Some offset at or after `i`, inside both `w[j..]` and `q`, holds different characters. */
  function Mismatch(w: string, j: nat, q: string, i: nat): bool
    decreases |q| - i
  {
    if j + i >= |w| || i >= |q| then false
    else if w[j + i] != q[i] then true
    else Mismatch(w, j, q, i + 1)
  }

  /** Every offset of `w` at or after `j` holds a text that `q` mismatches. */
  function Scan(w: string, j: nat, q: string): bool
    decreases |w| - j
  {
    if j >= |w| then true else Mismatch(w, j, q, 0) && Scan(w, j + 1, q)
  }

  lemma {:induction false} MismatchSound(w: string, j: nat, q: string, i: nat)
    requires j <= |w| && Mismatch(w, j, q, i)
    ensures !Agree(w[j..], q)
    decreases |q| - i
  {
    if w[j + i] != q[i] {
      AgreeAt(w[j..], q, i);
    } else {
      MismatchSound(w, j, q, i + 1);
    }
  }

  lemma {:induction false} ScanSound(w: string, j: nat, q: string)
    requires Scan(w, j, q)
    ensures ClearFrom(w, j, q)
    decreases |w| - j
  {
    if j < |w| {
      MismatchSound(w, j, q, 0);
      ScanSound(w, j + 1, q);
    }
  }

  /** Concatenation of the pieces, in order; long markers are written as pieces short enough to `Scan`. */
  function Join(parts: seq<string>): (r: string)
    ensures |parts| > 0 ==> |parts[0]| <= |r| && r[..|parts[0]|] == parts[0]
  {
    if |parts| == 0 then [] else parts[0] + Join(parts[1..])
  }

  lemma ClearAppend(a: string, b: string, lo: nat, q: string)
    requires lo <= |a| && ClearFrom(a, lo, q) && ClearFrom(b, 0, q)
    ensures ClearFrom(a + b, lo, q)
  {
    forall k | lo <= k < |a + b| ensures !Agree((a + b)[k..], q) {
      if k < |a| {
        assert (a + b)[k..] == a[k..] + b;
        AgreeShorter(a[k..], b, q);
      } else {
        assert (a + b)[k..] == b[k - |a|..];
      }
    }
  }

  /** `ClearFrom` on a joined marker follows from a `Scan` of every piece. */
  lemma {:induction false} ClearJoin(parts: seq<string>, lo: nat, q: string)
    requires |parts| > 0 && lo <= |parts[0]| && Scan(parts[0], lo, q)
    requires forall i :: 1 <= i < |parts| ==> Scan(parts[i], 0, q)
    ensures ClearFrom(Join(parts), lo, q)
  {
    ScanSound(parts[0], lo, q);
    if |parts| == 1 {
      assert Join(parts) == parts[0] + [];
      assert ClearFrom([], 0, q);
    } else {
      var rest := parts[1..];
      assert forall i :: 1 <= i < |rest| ==> Scan(rest[i], 0, q) by {
        forall i | 1 <= i < |rest| ensures Scan(rest[i], 0, q) {
          assert rest[i] == parts[i + 1];
        }
      }
      ClearJoin(rest, 0, q);
    }
    ClearAppend(parts[0], Join(parts[1..]), lo, q);
  }

  /** `ClearFrom` against a prefix of `q` gives it against `q`. */
  lemma ClearLonger(w: string, lo: nat, qh: string, q: string)
    requires |qh| <= |q| && q[..|qh|] == qh && ClearFrom(w, lo, qh)
    ensures ClearFrom(w, lo, q)
  {
    assert q == qh + q[|qh|..];
    forall k | lo <= k < |w| ensures !Agree(w[k..], q) {
      AgreePrefix(w[k..], qh, q[|qh|..]);
    }
  }

  /** A text without one of the characters of `q` holds no `q`. */
  lemma CharAbsent(s: string, q: string, j: nat)
    requires j < |q| && q[j] !in s
    ensures Absent(s, q)
  {
    forall i ensures !OccursAt(s, q, i) {
      if 0 <= i && i + |q| <= |s| {
        assert s[i..i + |q|][j] == s[i + j];
      }
    }
  }

  /** A character that no piece holds is not in the joined text. */
  lemma {:induction false} JoinLacks(parts: seq<string>, c: char)
    requires forall i :: 0 <= i < |parts| ==> c !in parts[i]
    ensures c !in Join(parts)
  {
    if |parts| > 0 {
      assert c !in parts[0];
      JoinLacks(parts[1..], c);
    }
  }

  /** A marker whose first character does not occur in `w` starts nowhere in `w`. */
  lemma ClearByChar(w: string, q: string)
    requires |q| > 0 && q[0] !in w
    ensures ClearFrom(w, 0, q)
  {
    forall k | 0 <= k < |w| ensures !Agree(w[k..], q) {
      AgreeAt(w[k..], q, 0);
      assert w[k..][0] == w[k];
    }
  }

  // ---------------------------------------------------------------------
  // Searching again in a text rebuilt around a found marker

  /** A search that stops at `m` saw no occurrence in between. */
  lemma AbsentBetween(s: string, p: string, from: nat, m: nat)
    requires |p| > 0 && Find(s, p, from) == Some(m)
    ensures Absent(s[from..m], p)
  {
    forall i ensures !OccursAt(s[from..m], p, i) {
      OccursInSlice(s, p, from, m, i);
    }
  }

  /** A search that fails saw no occurrence in the rest of the text. */
  lemma AbsentAfter(s: string, p: string, from: nat)
    requires from <= |s| && Find(s, p, from) == None
    ensures Absent(s[from..], p)
  {
    forall i ensures !OccursAt(s[from..], p, i) {
      OccursInSlice(s, p, from, |s|, i);
      assert s[from..] == s[from..|s|];
    }
  }

  /** The first occurrence is found again in any text that keeps the prefix it lies in. */
  lemma FindKeepsPrefix(a: string, b: string, q: string, n: nat, i: nat)
    requires n <= |a| && n <= |b| && a[..n] == b[..n]
    requires Find(a, q, 0) == Some(i) && i + |q| <= n
    ensures Find(b, q, 0) == Some(i)
  {
    forall k | 0 <= k <= i ensures OccursAt(b, q, k) == OccursAt(a, q, k) {
      assert a[k..k + |q|] == a[..n][k..k + |q|];
      assert b[k..k + |q|] == b[..n][k..k + |q|];
    }
    FindIsFirst(b, q, 0, i);
  }

  /** No occurrence starts inside `x` in `a + x + s`: it would lie in `x` or run into `s`. */
  lemma NoneInMiddle(a: string, x: string, s: string, q: string, i: int)
    requires Absent(x, q) && NoSeam(q, s) && |a| <= i < |a| + |x|
    ensures !OccursAt(a + x + s, q, i)
  {
    var y := a + x;
    if i + |q| <= |y| {
      OccursInConcat(y, s, q, i);
      OccursInConcat(a, x, q, i);
      assert !OccursAt(x, q, i - |a|);
    } else {
      StraddleAgrees(y, s, q, i);
    }
  }

  /** No occurrence starts inside `x` in `a + x + s`. */
  lemma NoneInRange(a: string, x: string, s: string, q: string)
    requires Absent(x, q) && NoSeam(q, s)
    ensures forall i :: |a| <= i < |a| + |x| ==> !OccursAt(a + x + s, q, i)
  {
    forall i | |a| <= i < |a| + |x| ensures !OccursAt(a + x + s, q, i) {
      NoneInMiddle(a, x, s, q, i);
    }
  }

  /** Searching from the start of `x` in `a + x + s` finds the marker that opens `s`. */
  lemma {:induction false} FindAcross(a: string, x: string, s: string, q: string)
    requires Absent(x, q) && NoSeam(q, s) && OccursAt(s, q, 0)
    ensures Find(a + x + s, q, |a|) == Some(|a| + |x|)
  {
    var t := a + x + s;
    OccursInConcat(a + x, s, q, |a| + |x|);
    assert OccursAt(t, q, |a| + |x|);
    NoneInRange(a, x, s, q);
    FindIsFirst(t, q, |a|, |a| + |x|);
  }

  /** Searching from the start of `t` in `a + t` finds nothing when `t` has no occurrence. */
  lemma FindNoneAfter(a: string, t: string, q: string)
    requires Absent(t, q)
    ensures Find(a + t, q, |a|) == None
  {
    forall i | |a| <= i ensures !OccursAt(a + t, q, i) {
      OccursInConcat(a, t, q, i);
    }
  }

  /** An occurrence of `q` that starts inside an occurrence of `h` makes a tail of `h` agree with `q`. */
  lemma OverlapAgrees(c: string, h: string, q: string, s: int, e: int)
    ensures OccursAt(c, h, s) && OccursAt(c, q, e) && s <= e < s + |h| ==> Agree(h[e - s..], q)
  {
    if OccursAt(c, h, s) && OccursAt(c, q, e) && s <= e < s + |h| {
      var t := h[e - s..];
      assert t == c[s..s + |h|][e - s..] == c[e..s + |h|];
      if |t| <= |q| {
        assert q[..|t|] == c[e..e + |q|][..|t|] == c[e..s + |h|];
      } else {
        assert t[..|q|] == c[e..s + |h|][..|q|] == c[e..e + |q|];
      }
    }
  }

  /** A marker that cannot start inside `h` lies wholly after an occurrence of `h` it follows. */
  lemma AfterWhole(c: string, h: string, q: string, s: nat, e: nat)
    requires OccursAt(c, h, s) && OccursAt(c, q, e) && s <= e && NoStartIn(h, q)
    ensures s + |h| <= e
  {
    OverlapAgrees(c, h, q, s, e);
  }

  /** A marker that cannot start inside `w` does not occur in it. */
  lemma NoStartAbsent(w: string, q: string)
    requires |q| > 0 && NoStartIn(w, q)
    ensures Absent(w, q)
  {
    assert w + [] == w;
    forall i ensures !OccursAt(w, q, i) {
      HeadAgrees(w, [], q, i);
    }
  }

  /** Dropping `t[s..e]` from a text without `q` creates none when `q` cannot run into the `m` at `e`. */
  lemma CutAbsent(t: string, s: nat, e: nat, q: string, m: string)
    requires s <= |t| && OccursAt(t, m, e) && NoSeam(q, m)
    requires Absent(t[..s], q) && Absent(t[e..], q)
    ensures Absent(t[..s] + t[e..], q)
  {
    assert t[e..] == m + t[e + |m|..];
    NoSeamExtend(q, m, t[e + |m|..]);
    AbsentJoin(t[..s], t[e..], q);
  }

  /** Splicing `c` in place of `t[s..e]` creates no `q` when `q` can run into neither `c` nor the `m` at `e`. */
  lemma SpliceAbsent(t: string, s: nat, e: nat, c: string, q: string, m: string)
    requires s <= |t| && OccursAt(t, m, e) && NoSeam(q, m)
    requires Absent(t[..s], q) && Absent(t[e..], q)
    requires Absent(c, q) && NoSeam(q, c)
    ensures Absent(t[..s] + c + t[e..], q)
  {
    assert t[e..] == m + t[e + |m|..];
    NoSeamExtend(q, m, t[e + |m|..]);
    AbsentJoin(c, t[e..], q);
    assert c + t[e..] == c + [] + t[e..];
    NoSeamExtend(q, c, t[e..]);
    AbsentJoin(t[..s], c + t[e..], q);
    assert t[..s] + c + t[e..] == t[..s] + (c + t[e..]);
  }

  /** A text that opens with `h` keeps that opening when it is cut at an occurrence of `q`, which cannot start inside `h`. */
  lemma CutKeepsHead(t: string, h: string, s: nat, q: string, mid: string, rest: string)
    requires |h| <= |t| && t[..|h|] == h
    requires OccursAt(t, q, s) && NoStartIn(h, q)
    ensures |h| <= |t[..s] + mid + rest| && (t[..s] + mid + rest)[..|h|] == h
  {
    assert OccursAt(t, h, 0);
    AfterWhole(t, h, q, 0, s);
    assert (t[..s] + mid + rest)[..|h|] == t[..s][..|h|];
  }

  /** A text that opens with `q` still does once something is appended. */
  lemma OpensWith(a: string, b: string, q: string)
    requires |q| <= |a| && a[..|q|] == q
    ensures |q| <= |a + b| && (a + b)[..|q|] == q
  {
    assert (a + b)[..|q|] == a[..|q|];
  }
}
