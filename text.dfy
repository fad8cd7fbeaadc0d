/** Byte buffers, C-string views of them and the libc string primitives the
    compiler wrapper relies on (strcmp, strncmp, strlen, strstr). */
module Text {

  /** One byte of a file buffer (an `unsigned char`). */
  newtype byte = x: int | 0 <= x < 256

  datatype Option<T> = None | Some(value: T)

  /** The first n elements of s, or all of s when it is shorter:
      the part of a string that strncmp looks at. */
  function Take<T>(s: seq<T>, n: nat): (r: seq<T>)
    ensures |r| == if n <= |s| then n else |s|
    ensures r <= s
  {
    if n <= |s| then s[..n] else s
  }

  /** strcmp on two C strings: the difference of the first pair of characters
      that differ, and a string that ends first compares below the other.
      (C strings hold no NUL, so "ends first" is what NUL-termination gives.) */
  function StrCmp(a: string, b: string): (r: int)
    ensures r == 0 <==> a == b
    decreases |a|
  {
    if a == [] || b == [] then
      (if a == b then 0 else if a == [] then -1 else 1)
    else if a[0] != b[0] then a[0] as int - b[0] as int
    else
      var r := StrCmp(a[1..], b[1..]);
      assert a == [a[0]] + a[1..] && b == [b[0]] + b[1..];
      r
  }

  /** strncmp: like strcmp, but looking at no more than n characters. */
  function StrNCmp(a: string, b: string, n: nat): (r: int)
    ensures r == 0 <==> Take(a, n) == Take(b, n)
    decreases n
  {
    if n == 0 then 0
    else if a == [] || b == [] then
      (if a == b then 0 else if a == [] then -1 else 1)
    else if a[0] != b[0] then
      assert Take(a, n)[0] != Take(b, n)[0];
      a[0] as int - b[0] as int
    else
      var r := StrNCmp(a[1..], b[1..], n - 1);
      TakeCons(a, n);
      TakeCons(b, n);
      r
  }

  /** Extending a slice by one element adds exactly that element. */
  lemma InSliceStep<T>(s: seq<T>, lo: nat, hi: nat, x: T)
    requires lo <= hi < |s|
    ensures x in s[lo..hi + 1] <==> x in s[lo..hi] || s[hi] == x
  {
    assert s[lo..hi + 1] == s[lo..hi] + [s[hi]];
  }

  /** Concatenation regrouped; stated once so that proofs over long
      concatenations need not rediscover it. */
  lemma AppendAssoc<T>(a: seq<T>, b: seq<T>, c: seq<T>)
    ensures a + (b + c) == (a + b) + c
  {
  }

  lemma TakeCons<T>(s: seq<T>, n: nat)
    requires n > 0 && s != []
    ensures Take(s, n) == [s[0]] + Take(s[1..], n - 1)
  {
    if n <= |s| {
      assert s[..n] == [s[0]] + s[1..][..n - 1];
    } else {
      assert s == [s[0]] + s[1..];
    }
  }

  /** Everything before the first occurrence of byte c: what is left of a
      buffer once a NUL is written over its first c (strchr, then `= '\0'`). */
  function CutAtFirst(b: seq<byte>, c: byte): (r: seq<byte>)
    ensures r <= b && c !in r
    ensures |r| < |b| ==> b[|r|] == c
  {
    if b == [] || b[0] == c then []
    else
      var r := [b[0]] + CutAtFirst(b[1..], c);
      assert b == [b[0]] + b[1..];
      r
  }

  /** The text that the C string functions see in a buffer: everything before
      its first NUL byte (strlen of the buffer is the length of this). */
  function CString(b: seq<byte>): (r: seq<byte>)
    ensures r <= b && 0 !in r
    ensures |r| < |b| ==> b[|r|] == 0
  {
    CutAtFirst(b, 0)
  }

  /** Appending the byte a cut stops at does not change what the cut keeps:
      the terminator read_file appends is invisible to the C string. */
  lemma {:induction false} CutAtFirstAppend(b: seq<byte>, c: byte)
    ensures CutAtFirst(b + [c], c) == CutAtFirst(b, c)
  {
    if b != [] && b[0] != c {
      assert (b + [c])[1..] == b[1..] + [c];
      CutAtFirstAppend(b[1..], c);
    }
  }

  /** A buffer that holds the NUL-free text s followed by its terminator has
      s as its C string, whatever lies after the terminator. */
  lemma {:induction false} CStringOfTerminated(b: seq<byte>, s: seq<byte>)
    requires |s| < |b| && b[..|s| + 1] == s + [0] && 0 !in s
    ensures CString(b) == s
  {
    if s != [] {
      assert b[0] == s[0];
      assert b[1..][..|s| - 1 + 1] == s[1..] + [0];
      CStringOfTerminated(b[1..], s[1..]);
    }
  }

  /** p occurs in s at index k. */
  predicate OccursAt(s: seq<byte>, p: seq<byte>, k: nat)
  {
    k + |p| <= |s| && s[k..k + |p|] == p
  }

  /** strstr started at index `from`: the first index at or after `from`
      where p occurs in s. */
  function Find(s: seq<byte>, p: seq<byte>, from: nat): (r: Option<nat>)
    ensures r.Some? ==> from <= r.value && OccursAt(s, p, r.value)
    ensures r.Some? ==> forall k :: from <= k < r.value ==> !OccursAt(s, p, k)
    ensures r.None? ==> forall k :: from <= k ==> !OccursAt(s, p, k)
    decreases |s| - from
  {
    if from + |p| > |s| then None
    else if s[from..from + |p|] == p then Some(from)
    else Find(s, p, from + 1)
  }
}
