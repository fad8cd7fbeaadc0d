/** Dialect-tolerant flag comparison: flagstrcmp and flagstrncmp, which let
    a leading '-' and a leading '/' stand for each other, so that the POSIX
    spelling `-Fo` and the MSVC spelling `/Fo` of a flag compare equal. */
module Flags {
  import opened Text

  /** One leading character is '-' and the other '/'. */
  predicate Swapped(c1: char, c2: char)
  {
    (c1 == '-' && c2 == '/') || (c1 == '/' && c2 == '-')
  }

  /** The first character of a C string; the terminating NUL for "". */
  function Lead(s: string): char
  {
    if s == [] then '\0' else s[0]
  }

  /** flagstrcmp: 0 exactly when the strings are equal, or equal after their
      first characters once those are '-' and '/' in some order. */
  function FlagStrCmp(s1: string, s2: string): (r: int)
    ensures r == 0 <==>
      s1 == s2 || (s1 != [] && s2 != [] && Swapped(s1[0], s2[0]) && s1[1..] == s2[1..])
  {
    var realres := StrCmp(s1, s2);
    if realres == 0 then 0
    else if Swapped(Lead(s1), Lead(s2)) then StrCmp(s1[1..], s2[1..])
    else realres
  }

  /** flagstrncmp: the same over the first num characters, comparing num-1
      characters after a swapped first character. */
  function FlagStrNCmp(s1: string, s2: string, num: nat): (r: int)
    ensures r == 0 <==>
      Take(s1, num) == Take(s2, num) ||
      (num > 0 && s1 != [] && s2 != [] && Swapped(s1[0], s2[0]) &&
       Take(s1[1..], num - 1) == Take(s2[1..], num - 1))
  {
    var realres := StrNCmp(s1, s2, num);
    if realres == 0 then 0
    else if Swapped(Lead(s2), Lead(s1)) then StrNCmp(s1[1..], s2[1..], num - 1)
    else realres
  }

  /** `!flagstrcmp(t, f)`. */
  predicate IsFlag(t: string, f: string)
  {
    FlagStrCmp(t, f) == 0
  }

  /** `!flagstrncmp(t, f, n)`. */
  predicate HasFlagPrefix(t: string, f: string, n: nat)
  {
    FlagStrNCmp(t, f, n) == 0
  }

  /** Both comparisons are symmetric in their two strings. */
  lemma FlagStrCmpSymmetric(a: string, b: string, n: nat)
    ensures IsFlag(a, b) <==> IsFlag(b, a)
    ensures HasFlagPrefix(a, b, n) <==> HasFlagPrefix(b, a, n)
  {
  }

  /** Against a flag spelled with '-', a token matches exactly when it is
      that flag or the flag with '/' in place of '-'. */
  lemma {:induction false} IsFlagSpellings(t: string, f: string)
    requires f != [] && f[0] == '-'
    ensures IsFlag(t, f) <==> t == f || t == ['/'] + f[1..]
  {
    if t != [] && Swapped(t[0], f[0]) && t[1..] == f[1..] {
      assert t[0] == '/';
      assert t == [t[0]] + t[1..];
    }
    if t == ['/'] + f[1..] {
      assert t[1..] == f[1..];
    }
  }

  /** Against a flag spelled with '-', a token has the flag's first n
      characters as a prefix in one of its two spellings. */
  lemma {:induction false} HasFlagPrefixSpellings(t: string, f: string, n: nat)
    requires 0 < n <= |f| && f[0] == '-'
    ensures HasFlagPrefix(t, f, n) <==>
      n <= |t| && (t[..n] == f[..n] || t[..n] == ['/'] + f[1..n])
  {
    if Take(t, n) == Take(f, n) {
      assert |Take(t, n)| == n;
    }
    if t != [] && Swapped(t[0], f[0]) && Take(t[1..], n - 1) == Take(f[1..], n - 1) {
      assert |Take(t[1..], n - 1)| == n - 1;
      assert t[..n] == [t[0]] + t[1..][..n - 1];
      assert f[1..][..n - 1] == f[1..n];
    }
    if n <= |t| && t[..n] == ['/'] + f[1..n] {
      assert t[0] == '/';
      assert t[1..][..n - 1] == f[1..n] == f[1..][..n - 1];
    }
  }

  /** A token read with a leading '/' taken as '-': the one spelling the
      dialect-tolerant comparisons see. */
  function Canon(t: string): (c: string)
    ensures |c| == |t|
  {
    if t != [] && t[0] == '/' then "-" + t[1..] else t
  }

  /** Against a flag spelled with '-', flagstrcmp matches exactly the tokens
      whose canonical spelling is the flag. */
  lemma IsFlagCanon(t: string, f: string)
    requires f != [] && f[0] == '-'
    ensures IsFlag(t, f) <==> Canon(t) == f
  {
    IsFlagSpellings(t, f);
    if t != [] && t[0] == '/' && Canon(t) == f {
      assert t == ['/'] + f[1..];
    }
  }

  /** Against a flag spelled with '-', flagstrncmp over n characters matches
      exactly the tokens whose canonical spelling starts with the flag's
      first n characters. */
  lemma HasFlagPrefixCanon(t: string, f: string, n: nat)
    requires 0 < n <= |f| && f[0] == '-'
    ensures HasFlagPrefix(t, f, n) <==> n <= |t| && Canon(t)[..n] == f[..n]
  {
    HasFlagPrefixSpellings(t, f, n);
    if n <= |t| && t[0] == '/' {
      assert Canon(t)[..n] == ['-'] + t[1..n];
      assert t[..n] == ['/'] + t[1..n];
      assert f[..n] == ['-'] + f[1..n];
    }
  }
}
