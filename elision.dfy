/** remove_string and the clean-up of the preprocessed file: every line
    continuation (backslash, an optional CR, LF) and every `#pragma once`
    line is cut out of the preprocessor's output before the converter reads
    it. */
module Elision {
  import opened Text

  /** What remove_string computes, step by step as the C loop does: find p
      from the cursor, cut it out, and search again from the same cursor in
      the shortened text. */
  function Elided(s: seq<byte>, p: seq<byte>, from: nat): seq<byte>
    requires |p| > 0
    decreases |s|
  {
    match Find(s, p, from)
    case None => s
    case Some(k) => Elided(Cut(s, k, |p|), p, k)
  }

  /** s without the n bytes at k. */
  function Cut(s: seq<byte>, k: nat, n: nat): (r: seq<byte>)
    requires k + n <= |s|
    ensures |r| == |s| - n
  {
    s[..k] + s[k + n..]
  }

  /** The reference reading of that clean-up: one left-to-right pass that
      drops each occurrence of p it meets and keeps every other byte; text
      that a cut brings together is not looked at again. */
  function Spliced(t: seq<byte>, p: seq<byte>): (r: seq<byte>)
    requires |p| > 0
    ensures |r| <= |t|
    decreases |t|
  {
    if OccursAt(t, p, 0) then Spliced(t[|p|..], p)
    else if t == [] then []
    else [t[0]] + Spliced(t[1..], p)
  }

  lemma OccursInSuffix(s: seq<byte>, p: seq<byte>, d: nat, j: nat)
    requires d <= |s|
    ensures OccursAt(s[d..], p, j) <==> OccursAt(s, p, d + j)
  {
    if OccursAt(s, p, d + j) {
      assert s[d..][j..j + |p|] == s[d + j..d + j + |p|];
    }
    if OccursAt(s[d..], p, j) {
      assert s[d..][j..j + |p|] == s[d + j..d + j + |p|];
    }
  }

  /** p occurs nowhere in t before index m. */
  predicate NoneBefore(t: seq<byte>, p: seq<byte>, m: nat)
  {
    forall j :: 0 <= j < m ==> !OccursAt(t, p, j)
  }

  lemma NoneBeforeTail(t: seq<byte>, p: seq<byte>, m: nat)
    requires 0 < m <= |t| && NoneBefore(t, p, m)
    ensures NoneBefore(t[1..], p, m - 1)
  {
    forall j | 0 <= j < m - 1
      ensures !OccursAt(t[1..], p, j)
    {
      OccursInSuffix(t, p, 1, j);
    }
  }

  /** Bytes before the first occurrence are copied through unchanged. */
  lemma {:induction false} SplicedPlainPrefix(t: seq<byte>, p: seq<byte>, m: nat)
    requires |p| > 0 && m <= |t| && NoneBefore(t, p, m)
    ensures Spliced(t, p) == t[..m] + Spliced(t[m..], p)
  {
    if m > 0 {
      assert !OccursAt(t, p, 0);
      assert Spliced(t, p) == [t[0]] + Spliced(t[1..], p);
      NoneBeforeTail(t, p, m);
      SplicedPlainPrefix(t[1..], p, m - 1);
      assert t[1..][m - 1..] == t[m..];
      assert t[..m] == [t[0]] + t[1..][..m - 1];
      AppendAssoc([t[0]], t[1..][..m - 1], Spliced(t[m..], p));
    }
  }

  /** Text in which p does not occur passes through unchanged. */
  lemma SplicedNoOccurrence(t: seq<byte>, p: seq<byte>)
    requires |p| > 0 && forall j :: 0 <= j <= |t| ==> !OccursAt(t, p, j)
    ensures Spliced(t, p) == t
  {
    assert NoneBefore(t, p, |t|);
    SplicedPlainPrefix(t, p, |t|);
    assert t[..|t|] == t && t[|t|..] == [];
  }

  /** The search-and-restart loop of remove_string computes the single-pass
      splice: the text before the cursor is kept and the rest is spliced. */
  lemma {:induction false} ElidedIsSpliced(s: seq<byte>, p: seq<byte>, from: nat)
    requires |p| > 0 && from <= |s|
    ensures Elided(s, p, from) == s[..from] + Spliced(s[from..], p)
    decreases |s|
  {
    var t := s[from..];
    var r := Find(s, p, from);
    if r.None? {
      assert Elided(s, p, from) == s;
      NoneBeforeSuffix(s, p, from, |s|);
      SplicedPlainPrefix(t, p, |t|);
      assert t[..|t|] == t && t[|t|..] == [];
      assert s == s[..from] + t;
    } else {
      var k := r.value;
      var s' := Cut(s, k, |p|);
      ElidedStep(s, p, from, k);
      ElidedIsSpliced(s', p, k);
      CutParts(s, k, |p|);
      assert Elided(s, p, from) == s[..k] + Spliced(s[k + |p|..], p);
      SplicedAfterFirst(s, p, from, k);
    }
  }

  lemma CutParts(s: seq<byte>, k: nat, n: nat)
    requires k + n <= |s|
    ensures Cut(s, k, n)[..k] == s[..k] && Cut(s, k, n)[k..] == s[k + n..]
  {
  }

  /** Splicing from `from` copies up to the first occurrence k and resumes
      after it. */
  lemma SplicedAfterFirst(s: seq<byte>, p: seq<byte>, from: nat, k: nat)
    requires |p| > 0 && from <= k && OccursAt(s, p, k)
    requires forall j :: from <= j < k ==> !OccursAt(s, p, j)
    ensures s[..from] + Spliced(s[from..], p) == s[..k] + Spliced(s[k + |p|..], p)
  {
    SplicedToFirst(s, p, from, k);
    PrefixSplit(s, from, k);
    AppendAssoc(s[..from], s[from..][..k - from], Spliced(s[k + |p|..], p));
  }

  /** The splice of the text from `from` is the text up to the first
      occurrence k, then the splice of what follows that occurrence. */
  lemma SplicedToFirst(s: seq<byte>, p: seq<byte>, from: nat, k: nat)
    requires |p| > 0 && from <= k && OccursAt(s, p, k)
    requires forall j :: from <= j < k ==> !OccursAt(s, p, j)
    ensures Spliced(s[from..], p) == s[from..][..k - from] + Spliced(s[k + |p|..], p)
  {
    var t := s[from..];
    NoneBeforeSuffix(s, p, from, k);
    SplicedPlainPrefix(t, p, k - from);
    assert t[k - from..] == s[k..];
    SplicedAtOccurrence(s, p, k);
  }

  lemma PrefixSplit(s: seq<byte>, from: nat, k: nat)
    requires from <= k <= |s|
    ensures s[..from] + s[from..][..k - from] == s[..k]
  {
  }

  lemma NoneBeforeSuffix(s: seq<byte>, p: seq<byte>, from: nat, k: nat)
    requires from <= k <= |s|
    requires forall j :: from <= j < k ==> !OccursAt(s, p, j)
    ensures NoneBefore(s[from..], p, k - from)
  {
    forall j | 0 <= j < k - from
      ensures !OccursAt(s[from..], p, j)
    {
      OccursInSuffix(s, p, from, j);
    }
  }

  /** At an occurrence the splice drops it and carries on after it. */
  lemma SplicedAtOccurrence(s: seq<byte>, p: seq<byte>, k: nat)
    requires |p| > 0 && OccursAt(s, p, k)
    ensures Spliced(s[k..], p) == Spliced(s[k + |p|..], p)
  {
    var u := s[k..];
    assert u[..|p|] == s[k..k + |p|];
    assert OccursAt(u, p, 0);
    assert u[|p|..] == s[k + |p|..];
  }

  /** One turn of remove_string's loop: cutting the occurrence found leaves
      the rest of the work unchanged. */
  lemma ElidedStep(s: seq<byte>, p: seq<byte>, from: nat, k: nat)
    requires |p| > 0 && Find(s, p, from) == Some(k)
    ensures Elided(s, p, from) == Elided(Cut(s, k, |p|), p, k)
  {
  }

  /** A splice that shortens nothing removed nothing: the text holds no
      occurrence of p, and conversely. */
  lemma {:induction false} SplicedSameLength(t: seq<byte>, p: seq<byte>)
    requires |p| > 0
    ensures |Spliced(t, p)| == |t| <==> forall j :: 0 <= j <= |t| ==> !OccursAt(t, p, j)
    ensures |Spliced(t, p)| == |t| <==> Spliced(t, p) == t
    decreases |t|
  {
    if forall j :: 0 <= j <= |t| ==> !OccursAt(t, p, j) {
      SplicedNoOccurrence(t, p);
    } else {
      var j :| 0 <= j <= |t| && OccursAt(t, p, j);
      SplicedShorter(t, p, j);
    }
  }

  lemma {:induction false} SplicedShorter(t: seq<byte>, p: seq<byte>, j: nat)
    requires |p| > 0 && OccursAt(t, p, j)
    ensures |Spliced(t, p)| < |t|
    decreases |t|
  {
    if !OccursAt(t, p, 0) {
      assert j > 0;
      OccursInSuffix(t, p, 1, j - 1);
      SplicedShorter(t[1..], p, j - 1);
    }
  }

  /** The splice is one pass: a backslash before a line continuation leaves a
      new line continuation behind, and splicing again would remove it. */
  lemma SplicedSinglePass()
    ensures Spliced([0x5C, 0x5C, 0x0A, 0x0A], LineContLf) == [0x5C, 0x0A]
    ensures Spliced(Spliced([0x5C, 0x5C, 0x0A, 0x0A], LineContLf), LineContLf) == []
  {
    var t: seq<byte> := [0x5C, 0x5C, 0x0A, 0x0A];
    assert t[0..2][1] != LineContLf[1];
    assert t[1..][..2] == LineContLf;
    assert t[1..][2..] == [0x0A];
    assert !OccursAt([0x0A], LineContLf, 0);
    assert [0x0A][1..] == [];
    assert [0x5C, 0x0A][..2] == LineContLf;
    assert [0x5C, 0x0A][2..] == [];
  }

  /** Backslash, CR, LF. */
  const LineContCrLf: seq<byte> := [0x5C, 0x0D, 0x0A]
  /** Backslash, LF. */
  const LineContLf: seq<byte> := [0x5C, 0x0A]
  /** The bytes of `#pragma once` followed by CR LF. */
  const PragmaOnceCrLf: seq<byte> :=
    [0x23, 0x70, 0x72, 0x61, 0x67, 0x6D, 0x61, 0x20, 0x6F, 0x6E, 0x63, 0x65, 0x0D, 0x0A]
  /** The bytes of `#pragma once` followed by LF. */
  const PragmaOnceLf: seq<byte> :=
    [0x23, 0x70, 0x72, 0x61, 0x67, 0x6D, 0x61, 0x20, 0x6F, 0x6E, 0x63, 0x65, 0x0A]

  /** The preprocessed text after the four removals, in the order main
      applies them. */
  function Normalized(s: seq<byte>): seq<byte>
  {
    Spliced(Spliced(Spliced(Spliced(s, LineContCrLf), LineContLf), PragmaOnceCrLf), PragmaOnceLf)
  }

  /** The clean-up only ever shortens the text, and it changes the text
      exactly when it shortens it: comparing sizes, as main does before
      writing the file back, detects every change. */
  lemma NormalizedChangedIffShorter(s: seq<byte>)
    ensures |Normalized(s)| <= |s|
    ensures |Normalized(s)| == |s| <==> Normalized(s) == s
  {
    var s1 := Spliced(s, LineContCrLf);
    var s2 := Spliced(s1, LineContLf);
    var s3 := Spliced(s2, PragmaOnceCrLf);
    SplicedSameLength(s, LineContCrLf);
    SplicedSameLength(s1, LineContLf);
    SplicedSameLength(s2, PragmaOnceCrLf);
    SplicedSameLength(s3, PragmaOnceLf);
  }

  lemma AbsentLead(s: seq<byte>, p: seq<byte>)
    requires |p| > 0 && p[0] !in s
    ensures forall j :: 0 <= j <= |s| ==> !OccursAt(s, p, j)
  {
    forall j | 0 <= j <= |s|
      ensures !OccursAt(s, p, j)
    {
      if j + |p| <= |s| {
        assert s[j..j + |p|][0] == s[j];
      }
    }
  }

  /** Text with no backslash and no '#' is never rewritten. */
  lemma NormalizedPlainText(s: seq<byte>)
    requires 0x5C !in s && 0x23 !in s
    ensures Normalized(s) == s
  {
    AbsentLead(s, LineContCrLf);
    AbsentLead(s, LineContLf);
    AbsentLead(s, PragmaOnceCrLf);
    AbsentLead(s, PragmaOnceLf);
    SplicedNoOccurrence(s, LineContCrLf);
    SplicedNoOccurrence(s, LineContLf);
    SplicedNoOccurrence(s, PragmaOnceCrLf);
    SplicedNoOccurrence(s, PragmaOnceLf);
  }

  /** One cut as remove_string makes it: memmove of the `remain` bytes after
      the occurrence at k (the rest of the text and its NUL) down onto it. */
  method CutAt(input: array<byte>, ghost cur: seq<byte>, k: nat, sz: nat, remain: nat)
    requires k + sz <= |cur| < input.Length && remain == |cur| + 1 - k - sz
    requires input[..|cur| + 1] == cur + [0]
    modifies input
    ensures input[..|cur| - sz + 1] == Cut(cur, k, sz) + [0]
    ensures forall j :: |cur| + 1 - sz <= j < input.Length ==> input[j] == old(input[j])
  {
    ghost var before := input[..];
    forall j | k <= j < k + remain {
      input[j] := input[j + sz];
    }
    CutText(before, input[..], cur, k, sz);
  }

  /** After the cut the buffer holds the text without the occurrence at k,
      still NUL-terminated. */
  lemma CutText(before: seq<byte>, after: seq<byte>, cur: seq<byte>, k: nat, sz: nat)
    requires |after| == |before| && k + sz <= |cur| < |before|
    requires before[..|cur| + 1] == cur + [0]
    requires forall j :: 0 <= j < k ==> after[j] == before[j]
    requires forall j :: k <= j < |cur| + 1 - sz ==> after[j] == before[j + sz]
    ensures after[..|cur| - sz + 1] == Cut(cur, k, sz) + [0]
  {
    var next := Cut(cur, k, sz) + [0];
    forall j | 0 <= j < |cur| - sz + 1
      ensures after[j] == next[j]
    {
      if j >= k {
        assert before[j + sz] == (cur + [0])[j + sz];
      } else {
        assert before[j] == (cur + [0])[j];
      }
    }
  }

  /** The state remove_string's loop keeps: the buffer holds cur and its NUL,
      nothing at or beyond the original terminator has moved, and the cut
      still to come gives the same text as the whole call. */
  ghost predicate Cutting(input: seq<byte>, orig: seq<byte>, initialSz: nat, s0: seq<byte>, cur: seq<byte>,
                          p: seq<byte>, oldCursor: nat)
    requires |p| > 0
  {
    && oldCursor <= |cur| < initialSz <= |input| == |orig|
    && input[..|cur| + 1] == cur + [0] && 0 !in cur
    && (forall j :: initialSz <= j < |input| ==> input[j] == orig[j])
    && Elided(cur, p, oldCursor) == Elided(s0, p, 0)
  }

  /** One cut keeps the loop's state: the buffer after the cut holds the
      shorter text, and the cut still to come is unchanged. */
  lemma CuttingStep(after: seq<byte>, before: seq<byte>, orig: seq<byte>, initialSz: nat, s0: seq<byte>,
                    cur: seq<byte>, p: seq<byte>, oldCursor: nat, k: nat)
    requires |p| > 0 && Cutting(before, orig, initialSz, s0, cur, p, oldCursor)
    requires Find(cur, p, oldCursor) == Some(k) && |after| == |before|
    requires after[..|cur| - |p| + 1] == Cut(cur, k, |p|) + [0]
    requires forall j :: |cur| + 1 - |p| <= j < |after| ==> after[j] == before[j]
    ensures Cutting(after, orig, initialSz, s0, Cut(cur, k, |p|), p, k)
  {
    var next := Cut(cur, k, |p|);
    ElidedStep(cur, p, oldCursor, k);
    assert 0 !in next by {
      assert forall b :: b in next ==> b in cur;
    }
  }

  /** remove_string: cuts every occurrence of toRemove out of the C string
      held in input, searching again from the cut after each removal. It
      returns strlen + 1 before (through initialSz) and after. */
  method RemoveString(input: array<byte>, toRemove: seq<byte>) returns (finalSz: nat, initialSz: nat)
    requires 0 in input[..]
    requires |toRemove| > 0 && 0 !in toRemove
    modifies input
    ensures initialSz == |old(CString(input[..]))| + 1
    ensures finalSz == |Spliced(old(CString(input[..])), toRemove)| + 1
    ensures input[..finalSz] == Spliced(old(CString(input[..])), toRemove) + [0]
    ensures CString(input[..]) == Spliced(old(CString(input[..])), toRemove)
    ensures input[initialSz..] == old(input[initialSz..])
  {
    ghost var orig := input[..];
    ghost var s0 := CString(input[..]);
    ghost var cur := s0;
    assert |s0| < input.Length;
    assert input[..|s0| + 1] == s0 + [0];
    var oldCursor: nat := 0;
    var cursor := Find(CString(input[..]), toRemove, 0);
    var remain: nat := |CString(input[..])| + 1;
    finalSz := remain;
    var toRemoveSz := |toRemove|;
    initialSz := remain;
    while cursor.Some?
      invariant Cutting(input[..], orig, initialSz, s0, cur, toRemove, oldCursor)
      invariant cursor == Find(cur, toRemove, oldCursor)
      invariant remain == |cur| + 1 - oldCursor && finalSz == |cur| + 1
      decreases |cur|
    {
      var k := cursor.value;
      var gap := k - oldCursor;
      remain := remain - (gap + toRemoveSz);
      finalSz := finalSz - toRemoveSz;
      ghost var before := input[..];
      CutAt(input, cur, k, toRemoveSz, remain);
      ghost var next := Cut(cur, k, toRemoveSz);
      CuttingStep(input[..], before, orig, initialSz, s0, cur, toRemove, oldCursor, k);
      cur := next;
      oldCursor := k;
      CStringOfTerminated(input[..], cur);
      cursor := Find(CString(input[..]), toRemove, oldCursor);
    }
    ElidedIsSpliced(s0, toRemove, 0);
    assert s0[..0] == [] && s0[0..] == s0;
    assert cur == Spliced(s0, toRemove);
    CStringOfTerminated(input[..], cur);
    TailUnchanged(input[..], orig, initialSz);
  }

  lemma TailUnchanged(a: seq<byte>, b: seq<byte>, n: nat)
    requires |a| == |b| && n <= |a|
    requires forall j :: n <= j < |a| ==> a[j] == b[j]
    ensures a[n..] == b[n..]
  {
  }

  /** The clean-up main makes of the preprocessed buffer: the four
      remove_string calls, and whether the file must be written back (its
      size changed). The text written back is what precedes the NUL. */
  method NormalizeBuffer(preprocOut: array<byte>) returns (writeBack: bool, text: seq<byte>)
    requires 0 in preprocOut[..]
    modifies preprocOut
    ensures text == Normalized(old(CString(preprocOut[..])))
    ensures writeBack <==> text != old(CString(preprocOut[..]))
  {
    ghost var s := CString(preprocOut[..]);
    var initialSz, finalSz1, finalSz2, finalSz3, finalSz4;
    finalSz1, initialSz := RemoveString(preprocOut, LineContCrLf);
    finalSz2, finalSz1 := RemoveString(preprocOut, LineContLf);
    finalSz3, finalSz2 := RemoveString(preprocOut, PragmaOnceCrLf);
    finalSz4, finalSz3 := RemoveString(preprocOut, PragmaOnceLf);
    NormalizedChangedIffShorter(s);
    writeBack := finalSz4 != initialSz;
    text := preprocOut[..finalSz4 - 1];
  }
}
