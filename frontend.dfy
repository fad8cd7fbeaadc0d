/** The front end of main, before any argument is classified: the wrapper's
    own flags `-keep` and `-noconv`, the dialect of the driver named next,
    the path of the converter beside the wrapper, and the replacement of the
    arguments by the contents of a response file `@file`. */
module FrontEnd {
  import opened Text

  /** The name of the converter executable. */
  const Converter: string := "c99conv"

  /** One of the wrapper's own flags, compared exactly (strcmp, so `/keep`
      is not one). */
  predicate IsWrapperFlag(t: string)
  {
    t == "-keep" || t == "-noconv"
  }

  /** The index of the first token at or after i that is not a wrapper flag:
      where the driver's name stands. */
  function FirstOther(argv: seq<string>, i: nat): (j: nat)
    requires i <= |argv|
    ensures i <= j <= |argv|
    ensures forall k :: i <= k < j ==> IsWrapperFlag(argv[k])
    ensures j < |argv| ==> !IsWrapperFlag(argv[j])
    decreases |argv| - i
  {
    if i < |argv| && IsWrapperFlag(argv[i]) then FirstOther(argv, i + 1) else i
  }

  /** The loop that consumes the wrapper flags after the program name, in
      any order and any number, up to the first other token. keep may
      already be set by the environment. */
  method StripFlags(argv: seq<string>, envKeep: bool) returns (i: nat, keep: bool, noconv: bool)
    requires |argv| >= 1
    ensures i == FirstOther(argv, 1)
    ensures keep <==> envKeep || "-keep" in argv[1..i]
    ensures noconv <==> "-noconv" in argv[1..i]
  {
    i, keep, noconv := 1, envKeep, false;
    while i < |argv|
      invariant 1 <= i <= |argv|
      invariant FirstOther(argv, i) == FirstOther(argv, 1)
      invariant keep <==> envKeep || "-keep" in argv[1..i]
      invariant noconv <==> "-noconv" in argv[1..i]
      decreases |argv| - i
    {
      InSliceStep(argv, 1, i, "-keep");
      InSliceStep(argv, 1, i, "-noconv");
      if StrCmp(argv[i], "-keep") == 0 {
        keep := true;
      } else if StrCmp(argv[i], "-noconv") == 0 {
        noconv := true;
      } else {
        break;
      }
      i := i + 1;
    }
  }

  /** The driver named after the wrapper flags. */
  datatype Dialect = Cl | Icl | OtherDriver

  /** The token is the driver `name`: strncmp over the name's length, then
      a '.' or the end of the token. */
  predicate NamesDriver(t: string, name: string)
  {
    StrNCmp(t, name, |name|) == 0 && (|t| == |name| || t[|name|] == '.')
  }

  /** The dialect test of main; cl is tried before icl. */
  function DetectDialect(argv: seq<string>, i: nat): Dialect
  {
    if i < |argv| && NamesDriver(argv[i], "cl") then Cl
    else if i < |argv| && NamesDriver(argv[i], "icl") then Icl
    else OtherDriver
  }

  /** `cl` is recognised as the whole token or before a '.', and so is `icl`;
      `clang`, `cl-x` or `icc` are neither, and no token is both. */
  lemma DriverNames(t: string)
    ensures NamesDriver(t, "cl") <==> t == "cl" || (|t| > 2 && t[..3] == "cl.")
    ensures NamesDriver(t, "icl") <==> t == "icl" || (|t| > 3 && t[..4] == "icl.")
    ensures !(NamesDriver(t, "cl") && NamesDriver(t, "icl"))
  {
    if NamesDriver(t, "cl") {
      assert t[..2] == "cl";
    }
    if NamesDriver(t, "icl") {
      assert t[..3] == "icl";
    }
    if |t| > 2 && t[..3] == "cl." {
      assert Take(t, 2) == t[..3][..2];
    }
    if |t| > 3 && t[..4] == "icl." {
      assert Take(t, 3) == t[..4][..3];
    }
  }

  /** The option main passes to the converter: `-ms` for cl only. */
  function ConverterOptions(d: Dialect): (opts: string)
    ensures opts == "-ms" <==> d == Cl
    ensures opts == "" <==> d != Cl
  {
    if d == Cl then "-ms" else ""
  }

  /** The index of the last c in s, as strrchr finds it. */
  function LastIndexOf(s: string, c: char): (r: Option<nat>)
    ensures r.Some? ==> r.value < |s| && s[r.value] == c
    ensures r.Some? ==> forall k :: r.value < k < |s| ==> s[k] != c
    ensures r.None? <==> c !in s
    decreases |s|
  {
    if s == [] then None
    else if s[|s| - 1] == c then Some(|s| - 1)
    else
      var r := LastIndexOf(s[..|s| - 1], c);
      assert s == s[..|s| - 1] + [s[|s| - 1]];
      r
  }

  /** The converter's path: argv[0] up to and including its last '\\', or
      failing that its last '/', followed by the converter's name; the bare
      name when argv[0] has neither. */
  function ConvTool(argv0: string): (tool: string)
    ensures |tool| >= |Converter| && tool[|tool| - |Converter|..] == Converter
    ensures var d := |tool| - |Converter|;
      d <= |argv0| && tool[..d] == argv0[..d]
      && ('\\' in argv0 ==> d > 0 && argv0[d - 1] == '\\' && '\\' !in argv0[d..])
      && ('\\' !in argv0 && '/' in argv0 ==> d > 0 && argv0[d - 1] == '/' && '/' !in argv0[d..])
      && ('\\' !in argv0 && '/' !in argv0 ==> d == 0)
  {
    var back := LastIndexOf(argv0, '\\');
    var cut := if back.Some? then back else LastIndexOf(argv0, '/');
    var dir := if cut.Some? then argv0[..cut.value + 1] else "";
    assert (dir + Converter)[..|dir|] == dir;
    dir + Converter
  }

  /** The text split_commandline hands to the tokenizer: the buffer's C
      string cut at its first CR, then at its first LF. It is the longest
      prefix of the buffer free of NUL, CR and LF, so the order of the two
      cuts does not matter. */
  function ResponseLine(buf: seq<byte>): (line: seq<byte>)
    ensures line <= buf
    ensures 0 !in line && 0x0D !in line && 0x0A !in line
    ensures |line| < |buf| ==> buf[|line|] in {0, 0x0D, 0x0A}
  {
    var s := CString(buf);
    var cr := CutAtFirst(s, 0x0D);
    var line := CutAtFirst(cr, 0x0A);
    assert |line| < |cr| ==> buf[|line|] == cr[|line|];
    assert |line| == |cr| < |s| ==> buf[|line|] == s[|line|];
    line
  }

  /** The two truncations of split_commandline, in place: a NUL over the
      first CR of the C string, then over the first LF of what is left. */
  method TruncateAtNewline(cmdline: array<byte>)
    requires 0 in cmdline[..]
    modifies cmdline
    ensures CString(cmdline[..]) == ResponseLine(old(cmdline[..]))
  {
    var s := CString(cmdline[..]);
    var cr := CutAtFirst(s, 0x0D);
    if |cr| < |s| {
      cmdline[|cr|] := 0;
      assert cmdline[..][..|cr| + 1] == cr + [0];
      CStringOfTerminated(cmdline[..], cr);
    }
    assert CString(cmdline[..]) == cr;
    var lf := CutAtFirst(cr, 0x0A);
    if |lf| < |cr| {
      cmdline[|lf|] := 0;
      assert cmdline[..][..|lf| + 1] == lf + [0];
      CStringOfTerminated(cmdline[..], lf);
    }
  }

  /** The last token names a response file: it starts with '@'. */
  predicate NamesResponseFile(argv: seq<string>)
  {
    |argv| > 0 && |argv[|argv| - 1]| > 0 && argv[|argv| - 1][0] == '@'
  }

  /** An argument vector main can process: it holds the program name, and a
      response file is not named by the program name alone (then the driver
      slot main reads lies past the last argument). */
  predicate Launchable(argv: seq<string>)
  {
    |argv| >= 1 && !(|argv| == 1 && NamesResponseFile(argv))
  }

  /** What the front end hands to the classifier: the wrapper's two flags,
      the dialect, and the token vector with the index of its first token to
      classify (the driver's name). */
  datatype Invocation = Invocation(keep: bool, noconv: bool, dialect: Dialect,
                                   args: seq<string>, start: nat)

  /** The front end of main. None: `-keep` together with `-noconv` (either
      of them possibly set from the environment for keep), for which main
      returns 1 before anything runs. read(p) is what read_file returns for
      the path p; split is the shell-style tokenizer that split_commandline
      applies to the truncated text. A readable response file replaces every
      argument: the driver's name followed by the file's tokens. */
  function Prepare(argv: seq<string>, envKeep: bool,
                   read: string -> Option<seq<byte>>,
                   split: seq<byte> -> seq<string>): (r: Option<Invocation>)
    requires Launchable(argv)
    ensures r.Some? ==> r.value.start <= |r.value.args|
    ensures r.Some? && FirstOther(argv, 1) < |argv| ==>
      r.value.start < |r.value.args| && r.value.args[r.value.start] == argv[FirstOther(argv, 1)]
  {
    var i := FirstOther(argv, 1);
    var keep := envKeep || "-keep" in argv[1..i];
    var noconv := "-noconv" in argv[1..i];
    if keep && noconv then None
    else
      var d := DetectDialect(argv, i);
      var text := if NamesResponseFile(argv) then read(argv[|argv| - 1][1..]) else None;
      if text.Some? then
        Some(Invocation(keep, noconv, d, [argv[i]] + split(ResponseLine(text.value)), 0))
      else
        Some(Invocation(keep, noconv, d, argv, i))
  }

  /** The wrapper flags are refused together however they are ordered, and
      otherwise reported as seen. */
  lemma {:induction false} WrapperFlags(argv: seq<string>, envKeep: bool,
                                        read: string -> Option<seq<byte>>,
                                        split: seq<byte> -> seq<string>)
    requires Launchable(argv)
    ensures var i := FirstOther(argv, 1);
      var keep := envKeep || "-keep" in argv[1..i];
      var noconv := "-noconv" in argv[1..i];
      (Prepare(argv, envKeep, read, split).None? <==> keep && noconv)
      && (Prepare(argv, envKeep, read, split).Some? ==>
            Prepare(argv, envKeep, read, split).value.keep == keep
            && Prepare(argv, envKeep, read, split).value.noconv == noconv
            && Prepare(argv, envKeep, read, split).value.dialect == DetectDialect(argv, i))
  {
  }

  /** A response file that reads back replaces the whole invocation by the
      driver's name followed by its tokens, from which the classifier
      starts; without one the classifier starts at the driver's name in the
      original vector. */
  lemma ResponseSplice(argv: seq<string>, envKeep: bool,
                       read: string -> Option<seq<byte>>,
                       split: seq<byte> -> seq<string>)
    requires Launchable(argv) && Prepare(argv, envKeep, read, split).Some?
    ensures var inv := Prepare(argv, envKeep, read, split).value;
      var i := FirstOther(argv, 1);
      if NamesResponseFile(argv) && read(argv[|argv| - 1][1..]).Some? then
        inv.start == 0 && i < |argv|
        && inv.args == [argv[i]] + split(ResponseLine(read(argv[|argv| - 1][1..]).value))
      else
        inv.start == i && inv.args == argv
  {
  }
}
