/** The wrapper's main as a whole (src/main version): the front end, the
    bitness probe, the classifier, and then either the single passthrough
    command or the preprocess → convert → compile pipeline with its
    temporary files, normalisation and clean-up.

    Processes, files and the environment are the world's answers: the exit
    code each command returns, what the probe and the preprocessor left in
    their output files, and the contents of a response file. What the
    wrapper does is the ordered list of its effects. */
module Driver {
  import opened Text
  import opened Encoding
  import opened Elision
  import opened Classifier
  import opened FrontEnd
  import opened Effects

  /** The world's answers. envKeep: C99_TO_C89_WRAP_SAVE_TEMPS holds a
      nonzero number; noLineDirectives: C99_TO_C89_WRAP_NO_LINE_DIRECTIVES
      does; files: the contents of a file the response token names (None:
      it cannot be opened); split: the shell-style tokenizer; probeOut and
      preprocOut: what the probe and the preprocessor left in their output
      files; the four codes: what each command returns when it is run. */
  datatype World = World(
    pid: string, envKeep: bool, noLineDirectives: bool,
    files: string -> Option<seq<byte>>, split: seq<byte> -> seq<string>,
    probeOut: Option<seq<byte>>, preprocOut: Option<seq<byte>>,
    cppCode: int, convCode: int, ccCode: int, passCode: int)

  /** The text the probe output is searched for. */
  const Marker: seq<byte> := [0x38, 0x30, 0x78, 0x38, 0x36]  // "80x86"

  /** The driver run without arguments to find out its target. */
  function ProbeDriver(d: Dialect): string
  {
    if d == Icl then "icl" else "cl"
  }

  /** The file the probe's output is captured in. */
  function ProbeFile(pid: string): string
  {
    "bitness_" + pid + ".c"
  }

  /** The converter's bitness option: `-32` when the probe's output could
      be read and mentions 80x86, `-64` otherwise. */
  function Bitness(probe: Option<seq<byte>>): (b: string)
    ensures b == "-32" || b == "-64"
    ensures b == "-32" <==> probe.Some? && exists k :: OccursAt(CString(probe.value), Marker, k)
  {
    if probe.Some? && Find(CString(probe.value), Marker, 0).Some? then "-32" else "-64"
  }

  /** What happens after the scan, with exit_code as main leaves it.
      convHead is the converter's tool, options and bitness; the two temp
      files follow it. */
  function Stages(st: Scan, keep: bool, convHead: seq<string>, w: World): Outcome
  {
    if !Decomposed(st) then
      Outcome(w.passCode, [Exec(ResolveAll(st.pass, st), None)])
    else
      var cpp := [Exec(ResolveAll(st.cpp, st), Some(st.temp1))];
      if w.cppCode != 0 then
        Outcome(w.cppCode, cpp + UnlessKeep(keep, [Unlink(st.temp1)]))
      else
        var after := AfterPreprocess(st, keep, convHead, w);
        Outcome(after.code, cpp + after.effects)
  }

  /** What follows a successful preprocessor run: reading its output back
      (an unreadable or empty file ends the run with 1), writing the cleaned
      text back when the clean-up changed it, the converter, and then the
      compiler, with the clean-up of the temp files around them. */
  function AfterPreprocess(st: Scan, keep: bool, convHead: seq<string>, w: World): Outcome
  {
    match ReadFileSpec(w.preprocOut)
    case None => Outcome(1, [])
    case Some(text) =>
      var s := CString(text);
      var conv := Cleaned(st.temp1, s) + [Exec(convHead + [st.temp1, st.temp2], None)];
      if w.convCode != 0 then
        Outcome(w.convCode, conv + UnlessKeep(keep, [Unlink(st.temp1), Unlink(st.temp2)]))
      else
        Outcome(w.ccCode, conv + CompileStep(keep, st))
  }

  /** The write-back of the cleaned preprocessor output, when it differs. */
  function Cleaned(path: string, s: seq<byte>): seq<Effect>
  {
    if Normalized(s) != s then [WriteBack(path, Normalized(s))] else []
  }

  /** The classifier's configuration for an invocation. */
  function ConfigOf(inv: Invocation, w: World): Config
  {
    Config(inv.noconv, w.noLineDirectives)
  }

  /** The state the classifier ends in for an invocation. */
  function ScanOf(inv: Invocation, w: World): Scan
    requires inv.start <= |inv.args|
  {
    ScanFrom(inv.args, inv.start, ConfigOf(inv, w), Initial(w.pid))
  }

  /** The converter's tool, options and bitness. */
  function ConverterHead(argv0: string, inv: Invocation, w: World): (head: seq<string>)
    ensures |head| == 3
  {
    [ConvTool(argv0), ConverterOptions(inv.dialect), Bitness(ReadFileSpec(w.probeOut))]
  }

  /** What read_file makes of a file the response token names. */
  function ResponseReader(w: World): string -> Option<seq<byte>>
  {
    p => ReadFileSpec(w.files(p))
  }

  /** The wrapper's main: exit code and effects. The exit code is always
      0 or 1, and the only effect-free run is the refusal of `-keep` with
      `-noconv`. */
  function CompileWrap(argv: seq<string>, w: World): (o: Outcome)
    requires Launchable(argv)
    ensures o.code == 0 || o.code == 1
    ensures o.effects == [] <==> Prepare(argv, w.envKeep, ResponseReader(w), w.split).None?
    ensures o.effects == [] ==> o.code == 1
  {
    match Prepare(argv, w.envKeep, ResponseReader(w), w.split)
    case None => Outcome(1, [])
    case Some(inv) =>
      var probe := [Exec([ProbeDriver(inv.dialect)], Some(ProbeFile(w.pid))), Unlink(ProbeFile(w.pid))];
      var rest := Stages(ScanOf(inv, w), inv.keep, ConverterHead(argv[0], inv, w), w);
      Outcome(Collapse(rest.code), probe + rest.effects)
  }

  // ---------------------------------------------------------------------
  // The pipeline

  /** Without the pipeline the one command run is the passthrough vector;
      nothing is removed or written back and its code is the result. */
  lemma PassthroughOnly(st: Scan, keep: bool, convHead: seq<string>, w: World)
    requires !Decomposed(st)
    ensures var o := Stages(st, keep, convHead, w);
      Runs(o.effects) == [ResolveAll(st.pass, st)] && Unlinked(o.effects) == {}
      && WriteBacks(o.effects) == [] && o.code == w.passCode
  {
    ViewsOne(Exec(ResolveAll(st.pass, st), None));
  }

  /** The stages run in the order preprocess, convert, compile, and the
      first failure stops the run: an unreadable preprocessor output counts
      as one. The preprocessor's output goes to the first temp file, which
      with the second one are the converter's last two arguments. The run
      succeeds exactly when every stage does. */
  lemma StagesFailFast(st: Scan, keep: bool, convHead: seq<string>, w: World)
    requires Decomposed(st)
    ensures var o := Stages(st, keep, convHead, w);
      var cpp := ResolveAll(st.cpp, st);
      var conv := convHead + [st.temp1, st.temp2];
      var cc := ResolveAll(st.cc, st);
      var readable := ReadFileSpec(w.preprocOut).Some?;
      && o.effects[0] == Exec(cpp, Some(st.temp1))
      && (w.cppCode != 0 || !readable ==> Runs(o.effects) == [cpp])
      && (w.cppCode == 0 && readable && w.convCode != 0 ==> Runs(o.effects) == [cpp, conv])
      && (w.cppCode == 0 && readable && w.convCode == 0 ==> Runs(o.effects) == [cpp, conv, cc])
      && (o.code == 0 <==> w.cppCode == 0 && readable && w.convCode == 0 && w.ccCode == 0)
  {
    if w.cppCode == 0 && ReadFileSpec(w.preprocOut).Some? {
      StagesAfterRead(st, keep, convHead, w);
    } else {
      StagesStopEarly(st, keep, convHead, w);
    }
  }

  /** A failed preprocessor, or an output that cannot be read back: only
      the preprocessor ran, and at most the first temp file is removed. */
  lemma StagesStopEarly(st: Scan, keep: bool, convHead: seq<string>, w: World)
    requires Decomposed(st) && (w.cppCode != 0 || ReadFileSpec(w.preprocOut).None?)
    ensures var o := Stages(st, keep, convHead, w);
      && o.effects[0] == Exec(ResolveAll(st.cpp, st), Some(st.temp1))
      && Runs(o.effects) == [ResolveAll(st.cpp, st)] && WriteBacks(o.effects) == []
      && Unlinked(o.effects) == (if keep || w.cppCode == 0 then {} else {st.temp1})
      && o.code != 0
  {
    var cpp := [Exec(ResolveAll(st.cpp, st), Some(st.temp1))];
    ViewsOne(cpp[0]);
    ViewsCleanup(keep, st.temp1);
    ViewsAppend(cpp, UnlessKeep(keep, [Unlink(st.temp1)]));
    assert cpp + [] == cpp;
  }

  /** The pipeline after a readable preprocessor output. */
  lemma StagesAfterRead(st: Scan, keep: bool, convHead: seq<string>, w: World)
    requires Decomposed(st) && w.cppCode == 0 && ReadFileSpec(w.preprocOut).Some?
    ensures var o := Stages(st, keep, convHead, w);
      var cpp := ResolveAll(st.cpp, st);
      var conv := convHead + [st.temp1, st.temp2];
      var cc := ResolveAll(st.cc, st);
      var s := CString(ReadFileSpec(w.preprocOut).value);
      && o.effects[0] == Exec(cpp, Some(st.temp1))
      && Runs(o.effects) == (if w.convCode != 0 then [cpp, conv] else [cpp, conv, cc])
      && WriteBacks(o.effects) == Cleaned(st.temp1, s)
      && Unlinked(o.effects) == (if keep then {} else {st.temp1, st.temp2})
      && o.code == (if w.convCode != 0 then w.convCode else w.ccCode)
  {
    hide *;
    var cpp := [Exec(ResolveAll(st.cpp, st), Some(st.temp1))];
    var after := AfterPreprocess(st, keep, convHead, w);
    StagesRead(st, keep, convHead, w);
    ViewsOne(cpp[0]);
    AfterViews(st, keep, convHead, w);
    ViewsAppend(cpp, after.effects);
  }

  /** A readable preprocessor output: the preprocessor's run, then what
      follows it, whose code is the converter's or the compiler's. */
  lemma StagesRead(st: Scan, keep: bool, convHead: seq<string>, w: World)
    requires Decomposed(st) && w.cppCode == 0 && ReadFileSpec(w.preprocOut).Some?
    ensures var after := AfterPreprocess(st, keep, convHead, w);
      && Stages(st, keep, convHead, w) == Outcome(after.code, [Exec(ResolveAll(st.cpp, st), Some(st.temp1))] + after.effects)
      && after.code == (if w.convCode != 0 then w.convCode else w.ccCode)
  {
  }

  /** The views of what follows a readable preprocessor output. */
  lemma AfterViews(st: Scan, keep: bool, convHead: seq<string>, w: World)
    requires ReadFileSpec(w.preprocOut).Some?
    ensures var a := AfterPreprocess(st, keep, convHead, w);
      var conv := convHead + [st.temp1, st.temp2];
      var s := CString(ReadFileSpec(w.preprocOut).value);
      && Runs(a.effects) == (if w.convCode != 0 then [conv] else [conv, ResolveAll(st.cc, st)])
      && WriteBacks(a.effects) == Cleaned(st.temp1, s)
      && Unlinked(a.effects) == (if keep then {} else {st.temp1, st.temp2})
  {
    hide *;
    var s := CString(ReadFileSpec(w.preprocOut).value);
    var head := Cleaned(st.temp1, s) + [Exec(convHead + [st.temp1, st.temp2], None)];
    var tail := if w.convCode != 0 then UnlessKeep(keep, [Unlink(st.temp1), Unlink(st.temp2)])
      else CompileStep(keep, st);
    AfterEffects(st, keep, convHead, w);
    ConverterViews(st.temp1, s, convHead + [st.temp1, st.temp2]);
    if w.convCode != 0 {
      ViewsCleanupBoth(keep, st.temp1, st.temp2);
    } else {
      CompilerViews(keep, st);
    }
    ViewsAppend(head, tail);
  }

  /** The effects after a readable preprocessor output: the write-back and
      the converter's run, then the clean-up and the compiler's run. */
  lemma AfterEffects(st: Scan, keep: bool, convHead: seq<string>, w: World)
    requires ReadFileSpec(w.preprocOut).Some?
    ensures var s := CString(ReadFileSpec(w.preprocOut).value);
      AfterPreprocess(st, keep, convHead, w).effects ==
        Cleaned(st.temp1, s) + [Exec(convHead + [st.temp1, st.temp2], None)]
        + if w.convCode != 0 then UnlessKeep(keep, [Unlink(st.temp1), Unlink(st.temp2)]) else CompileStep(keep, st)
  {
  }

  /** The views of the write-back and the converter's run. */
  lemma ConverterViews(path: string, s: seq<byte>, conv: seq<string>)
    ensures var head := Cleaned(path, s) + [Exec(conv, None)];
      Runs(head) == [conv] && WriteBacks(head) == Cleaned(path, s) && Unlinked(head) == {}
  {
    var written := Cleaned(path, s);
    ViewsOne(Exec(conv, None));
    if written != [] {
      ViewsOne(written[0]);
      assert written == [written[0]];
    } else {
      assert WriteBacks(written) == [] && Runs(written) == [] && Unlinked(written) == {};
    }
    hide Runs, Unlinked, WriteBacks, Cleaned;
    ViewsAppend(written, [Exec(conv, None)]);
  }

  /** Clean-up: with keep nothing is removed; without it a failed
      preprocessor leaves no first temp file, a run that reaches the
      converter leaves neither, and an unreadable preprocessor output is
      left in place. */
  lemma StagesCleanup(st: Scan, keep: bool, convHead: seq<string>, w: World)
    ensures var o := Stages(st, keep, convHead, w);
      Unlinked(o.effects) ==
        if keep || !Decomposed(st) then {}
        else if w.cppCode != 0 then {st.temp1}
        else if ReadFileSpec(w.preprocOut).None? then {}
        else {st.temp1, st.temp2}
  {
    if !Decomposed(st) {
      PassthroughOnly(st, keep, convHead, w);
    } else if w.cppCode == 0 && ReadFileSpec(w.preprocOut).Some? {
      StagesAfterRead(st, keep, convHead, w);
    } else {
      StagesStopEarly(st, keep, convHead, w);
    }
  }

  /** On a successful run without keep the first temp file is removed
      before the compiler runs and the second one is the last thing
      removed. */
  lemma CleanupOrder(st: Scan, convHead: seq<string>, w: World)
    requires Decomposed(st) && w.cppCode == 0 && ReadFileSpec(w.preprocOut).Some? && w.convCode == 0
    ensures var es := Stages(st, false, convHead, w).effects;
      |es| >= 3 && es[|es| - 3] == Unlink(st.temp1)
      && es[|es| - 2] == Exec(ResolveAll(st.cc, st), None) && es[|es| - 1] == Unlink(st.temp2)
  {
  }

  /** The preprocessed file is written back exactly when the clean-up made
      it shorter, which is exactly when it changed, and then with the
      cleaned text; no other run writes anything back. */
  lemma StagesWriteBack(st: Scan, keep: bool, convHead: seq<string>, w: World)
    ensures var o := Stages(st, keep, convHead, w);
      if Decomposed(st) && w.cppCode == 0 && ReadFileSpec(w.preprocOut).Some? then
        var s := CString(ReadFileSpec(w.preprocOut).value);
        WriteBacks(o.effects) == (if |Normalized(s)| < |s| then [WriteBack(st.temp1, Normalized(s))] else [])
      else WriteBacks(o.effects) == []
  {
    if !Decomposed(st) {
      PassthroughOnly(st, keep, convHead, w);
    } else if w.cppCode == 0 && ReadFileSpec(w.preprocOut).Some? {
      StagesAfterRead(st, keep, convHead, w);
      NormalizedChangedIffShorter(CString(ReadFileSpec(w.preprocOut).value));
    } else {
      StagesStopEarly(st, keep, convHead, w);
    }
  }

  // ---------------------------------------------------------------------
  // The whole run

  /** The views of a run: the probe's command and its file come first, the
      rest is the pipeline's, and the exit code is the pipeline's collapsed. */
  lemma WrapViews(argv: seq<string>, w: World)
    requires Launchable(argv) && Prepare(argv, w.envKeep, ResponseReader(w), w.split).Some?
    ensures var inv := Prepare(argv, w.envKeep, ResponseReader(w), w.split).value;
      var o := CompileWrap(argv, w);
      var rest := Stages(ScanOf(inv, w), inv.keep, ConverterHead(argv[0], inv, w), w);
      && o.effects[..2] == [Exec([ProbeDriver(inv.dialect)], Some(ProbeFile(w.pid))), Unlink(ProbeFile(w.pid))]
      && Runs(o.effects) == [[ProbeDriver(inv.dialect)]] + Runs(rest.effects)
      && Unlinked(o.effects) == {ProbeFile(w.pid)} + Unlinked(rest.effects)
      && WriteBacks(o.effects) == WriteBacks(rest.effects)
      && o.code == Collapse(rest.code)
  {
    hide *;
    var inv := Prepare(argv, w.envKeep, ResponseReader(w), w.split).value;
    var probe := [Exec([ProbeDriver(inv.dialect)], Some(ProbeFile(w.pid))), Unlink(ProbeFile(w.pid))];
    var rest := Stages(ScanOf(inv, w), inv.keep, ConverterHead(argv[0], inv, w), w);
    WrapEffects(argv, w);
    ViewsOne(probe[0]);
    ViewsOne(probe[1]);
    ViewsTwo(probe[0], probe[1]);
    ViewsAppend(probe, rest.effects);
  }

  /** A run that gets past the front end: the probe, then the pipeline. */
  lemma WrapEffects(argv: seq<string>, w: World)
    requires Launchable(argv) && Prepare(argv, w.envKeep, ResponseReader(w), w.split).Some?
    ensures var inv := Prepare(argv, w.envKeep, ResponseReader(w), w.split).value;
      var rest := Stages(ScanOf(inv, w), inv.keep, ConverterHead(argv[0], inv, w), w);
      CompileWrap(argv, w) == Outcome(Collapse(rest.code),
        [Exec([ProbeDriver(inv.dialect)], Some(ProbeFile(w.pid))), Unlink(ProbeFile(w.pid))] + rest.effects)
  {
  }

  /** `-keep` together with `-noconv` (keep possibly from the environment)
      ends the run with 1 before anything is done, and nothing else does. */
  lemma ConflictExits(argv: seq<string>, w: World)
    requires Launchable(argv)
    ensures var i := FirstOther(argv, 1);
      CompileWrap(argv, w) == Outcome(1, []) <==>
        (w.envKeep || "-keep" in argv[1..i]) && "-noconv" in argv[1..i]
  {
    WrapperFlags(argv, w.envKeep, ResponseReader(w), w.split);
  }

  /** When the pipeline is not needed and no joined output flag was met,
      the command run after the probe is the driver's invocation itself,
      token for token, and its result decides the exit code. */
  lemma PassthroughIsInvocation(argv: seq<string>, w: World)
    requires Launchable(argv) && Prepare(argv, w.envKeep, ResponseReader(w), w.split).Some?
    requires var inv := Prepare(argv, w.envKeep, ResponseReader(w), w.split).value;
      !Decomposed(ScanOf(inv, w)) && AllLiteral(ScanOf(inv, w).pass)
    ensures var inv := Prepare(argv, w.envKeep, ResponseReader(w), w.split).value;
      var o := CompileWrap(argv, w);
      Runs(o.effects) == [[ProbeDriver(inv.dialect)], inv.args[inv.start..]]
      && Unlinked(o.effects) == {ProbeFile(w.pid)}
      && (o.code == 0 <==> w.passCode == 0)
  {
    hide *;
    var inv := Prepare(argv, w.envKeep, ResponseReader(w), w.split).value;
    var st := ScanOf(inv, w);
    var head := ConverterHead(argv[0], inv, w);
    PassthroughResolved(inv, w);
    WrapViews(argv, w);
    PassthroughOnly(st, inv.keep, head, w);
  }

  /** Without a joined output flag the passthrough vector is the
      invocation's arguments from the first non-wrapper one on. */
  lemma PassthroughResolved(inv: Invocation, w: World)
    requires inv.start <= |inv.args| && AllLiteral(ScanOf(inv, w).pass)
    ensures ResolveAll(ScanOf(inv, w).pass, ScanOf(inv, w)) == inv.args[inv.start..]
  {
    PassthroughVerbatim(inv.args, inv.start, ConfigOf(inv, w), w.pid);
  }

  /** The converter is run as the five-entry command: the converter beside
      the wrapper, `-ms` for cl, `-32` exactly when the probe's output
      mentions 80x86 (`-64` otherwise), then the preprocessed and the
      converted file named after the output. */
  lemma ConverterCommand(argv: seq<string>, w: World)
    requires Launchable(argv) && Prepare(argv, w.envKeep, ResponseReader(w), w.split).Some?
    requires var inv := Prepare(argv, w.envKeep, ResponseReader(w), w.split).value;
      Decomposed(ScanOf(inv, w)) && w.cppCode == 0 && ReadFileSpec(w.preprocOut).Some?
    ensures var inv := Prepare(argv, w.envKeep, ResponseReader(w), w.split).value;
      var name := ScanOf(inv, w).outname.value;
      var runs := Runs(CompileWrap(argv, w).effects);
      var probe := ReadFileSpec(w.probeOut);
      var bitness := Bitness(probe);
      |runs| >= 3 && runs[2] == [ConvTool(argv[0]), ConverterOptions(inv.dialect), bitness,
                                 name + "_preprocessed.c", name + "_converted.c"]
  {
    hide *;
    var inv := Prepare(argv, w.envKeep, ResponseReader(w), w.split).value;
    var st := ScanOf(inv, w);
    var head := ConverterHead(argv[0], inv, w);
    HeadEntries(argv[0], inv, w);
    ScanOfNamed(inv, w);
    WrapRuns(argv, w);
    ConverterRun(st, inv.keep, head, w);
  }

  /** The converter's head, entry by entry. */
  lemma HeadEntries(argv0: string, inv: Invocation, w: World)
    ensures ConverterHead(argv0, inv, w) == [ConvTool(argv0), ConverterOptions(inv.dialect), Bitness(ReadFileSpec(w.probeOut))]
  {
  }

  /** Once the classifier has seen an output name, the temp files are
      named after it. */
  lemma ScanOfNamed(inv: Invocation, w: World)
    requires inv.start <= |inv.args|
    ensures TempsNamed(ScanOf(inv, w))
    ensures Decomposed(ScanOf(inv, w)) ==> ScanOf(inv, w).outname.Some?
    ensures var st := ScanOf(inv, w);
      st.outname.Some? ==> st.temp1 == st.outname.value + "_preprocessed.c" && st.temp2 == st.outname.value + "_converted.c"
  {
    OutputNameSeen(inv.args, inv.start, ConfigOf(inv, w), Initial(w.pid));
  }

  /** The commands of a run: the probe's, then the pipeline's. */
  lemma WrapRuns(argv: seq<string>, w: World)
    requires Launchable(argv) && Prepare(argv, w.envKeep, ResponseReader(w), w.split).Some?
    ensures var inv := Prepare(argv, w.envKeep, ResponseReader(w), w.split).value;
      Runs(CompileWrap(argv, w).effects) ==
        [[ProbeDriver(inv.dialect)]] + Runs(Stages(ScanOf(inv, w), inv.keep, ConverterHead(argv[0], inv, w), w).effects)
  {
    WrapViews(argv, w);
  }

  /** The converter's command in the pipeline: its head, then the two temp
      files, which are named after the output. */
  lemma ConverterRun(st: Scan, keep: bool, head: seq<string>, w: World)
    requires Decomposed(st) && TempsNamed(st) && w.cppCode == 0 && ReadFileSpec(w.preprocOut).Some?
    requires |head| == 3
    ensures var runs := Runs(Stages(st, keep, head, w).effects);
      |runs| >= 2 && runs[1] == [head[0], head[1], head[2],
                                 st.outname.value + "_preprocessed.c", st.outname.value + "_converted.c"]
  {
    StagesAfterRead(st, keep, head, w);
    assert head + [st.temp1, st.temp2] == [head[0], head[1], head[2], st.temp1, st.temp2];
  }

  /** The exit code is 0 exactly when every command that decided it
      succeeded: the passthrough command, or all three stages (with a
      readable preprocessor output). */
  lemma ExitCode(argv: seq<string>, w: World)
    requires Launchable(argv) && Prepare(argv, w.envKeep, ResponseReader(w), w.split).Some?
    ensures var inv := Prepare(argv, w.envKeep, ResponseReader(w), w.split).value;
      CompileWrap(argv, w).code == 0 <==>
        if Decomposed(ScanOf(inv, w)) then
          w.cppCode == 0 && ReadFileSpec(w.preprocOut).Some? && w.convCode == 0 && w.ccCode == 0
        else w.passCode == 0
  {
    hide *;
    var inv := Prepare(argv, w.envKeep, ResponseReader(w), w.split).value;
    WrapViews(argv, w);
    if Decomposed(ScanOf(inv, w)) {
      StagesFailFast(ScanOf(inv, w), inv.keep, ConverterHead(argv[0], inv, w), w);
    } else {
      PassthroughOnly(ScanOf(inv, w), inv.keep, ConverterHead(argv[0], inv, w), w);
    }
  }

  /** With keep only the probe's file is removed; without it a run that
      reaches the converter removes both temp files, named after the
      output. */
  lemma TempFilesRemoved(argv: seq<string>, w: World)
    requires Launchable(argv) && Prepare(argv, w.envKeep, ResponseReader(w), w.split).Some?
    ensures var inv := Prepare(argv, w.envKeep, ResponseReader(w), w.split).value;
      var st := ScanOf(inv, w);
      var removed := Unlinked(CompileWrap(argv, w).effects);
      && (inv.keep ==> removed == {ProbeFile(w.pid)})
      && (!inv.keep && Decomposed(st) && w.cppCode == 0 && ReadFileSpec(w.preprocOut).Some? ==>
            removed == {ProbeFile(w.pid), st.outname.value + "_preprocessed.c", st.outname.value + "_converted.c"})
  {
    hide *;
    var inv := Prepare(argv, w.envKeep, ResponseReader(w), w.split).value;
    WrapViews(argv, w);
    StagesCleanup(ScanOf(inv, w), inv.keep, ConverterHead(argv[0], inv, w), w);
    ScanOfNamed(inv, w);
  }

  // ---------------------------------------------------------------------
  // main, step by step

  /** The tail of main after the scan: the passthrough command, or the
      preprocessor and what follows it, leaving exit_code as the function
      describes. */
  method RunStages(st: Scan, keep: bool, convHead: seq<string>, w: World)
    returns (exitCode: int, effects: seq<Effect>)
    ensures Outcome(exitCode, effects) == Stages(st, keep, convHead, w)
  {
    if !st.flagCompile || st.sourceFile.None? || st.outname.None? {
      exitCode := w.passCode;
      effects := [Exec(ResolveAll(st.pass, st), None)];
      return;
    }
    effects := [Exec(ResolveAll(st.cpp, st), Some(st.temp1))];
    exitCode := w.cppCode;
    if exitCode != 0 {
      if !keep {
        effects := effects + [Unlink(st.temp1)];
      }
      return;
    }
    var rest;
    exitCode, rest := RunAfterPreprocess(st, keep, convHead, w);
    effects := effects + rest;
  }

  /** The read-back and clean-up of the preprocessed file, then the
      converter and the compiler. */
  method RunAfterPreprocess(st: Scan, keep: bool, convHead: seq<string>, w: World)
    returns (exitCode: int, effects: seq<Effect>)
    ensures Outcome(exitCode, effects) == AfterPreprocess(st, keep, convHead, w)
  {
    var preprocOut := ReadFile(w.preprocOut);
    if preprocOut == null {
      return 1, [];
    }
    ghost var text := ReadFileSpec(w.preprocOut).value;
    CutAtFirstAppend(text, 0);
    assert preprocOut[|preprocOut[..]| - 1] == 0;
    var writeBack, cleaned := NormalizeBuffer(preprocOut);
    effects := [];
    if writeBack {
      effects := [WriteBack(st.temp1, cleaned)];
    }
    effects := effects + [Exec(convHead + [st.temp1, st.temp2], None)];
    exitCode := w.convCode;
    if exitCode != 0 {
      if !keep {
        effects := effects + [Unlink(st.temp1), Unlink(st.temp2)];
      }
      return;
    }
    ghost var conv := effects;
    if !keep {
      effects := effects + [Unlink(st.temp1)];
    }
    effects := effects + [Exec(ResolveAll(st.cc, st), None)];
    exitCode := w.ccCode;
    if !keep {
      effects := effects + [Unlink(st.temp2)];
    }
    assert effects == conv + CompileStep(keep, st);
  }

  /** The front end of main, step by step: the wrapper flags, the
      dialect, and the response file read, truncated and split. */
  method PrepareInvocation(argv: seq<string>, w: World) returns (r: Option<Invocation>)
    requires Launchable(argv)
    ensures r == Prepare(argv, w.envKeep, ResponseReader(w), w.split)
  {
    var i, keep, noconv := StripFlags(argv, w.envKeep);
    if keep && noconv {
      return None;
    }
    var dialect := DetectDialect(argv, i);
    var args, start := ReadResponse(argv, i, w);
    r := Some(Invocation(keep, noconv, dialect, args, start));
  }

  /** The response file named by the last argument, read, truncated at its
      first line end and split; without one the arguments stay as given. */
  method ReadResponse(argv: seq<string>, i: nat, w: World) returns (args: seq<string>, start: nat)
    requires Launchable(argv) && i == FirstOther(argv, 1)
    ensures var text := if NamesResponseFile(argv) then ResponseReader(w)(argv[|argv| - 1][1..]) else None;
      if text.Some? then args == [argv[i]] + w.split(ResponseLine(text.value)) && start == 0
      else args == argv && start == i
  {
    args, start := argv, i;
    if |argv[|argv| - 1]| > 0 && argv[|argv| - 1][0] == '@' {
      var responseFile := ReadFile(w.files(argv[|argv| - 1][1..]));
      if responseFile != null {
        ghost var text := ReadFileSpec(w.files(argv[|argv| - 1][1..])).value;
        CutAtFirstAppend(text, 0);
        assert responseFile[|responseFile[..]| - 1] == 0;
        TruncateAtNewline(responseFile);
        assert ResponseLine(text + [0]) == ResponseLine(text);
        args, start := [argv[i]] + w.split(CString(responseFile[..])), 0;
      }
    }
  }

  /** The bitness probe's verdict on what it left in its file. */
  method ProbeBitness(w: World) returns (bitness: string)
    ensures bitness == Bitness(ReadFileSpec(w.probeOut))
  {
    var probeOut := ReadFile(w.probeOut);
    bitness := "-64";
    if probeOut != null {
      CutAtFirstAppend(ReadFileSpec(w.probeOut).value, 0);
      if Find(CString(probeOut[..]), Marker, 0).Some? {
        bitness := "-32";
      }
    }
  }

  /** main: the converter's path, the front end, the bitness probe, the
      classifier and the stages, with the exit code collapsed to 0 or 1. */
  method Wrap(argv: seq<string>, w: World) returns (exitCode: int, effects: seq<Effect>)
    requires Launchable(argv)
    ensures Outcome(exitCode, effects) == CompileWrap(argv, w)
  {
    hide Prepare, ScanFrom, Stages, Bitness, ReadFileSpec;
    var convTool := ConvTool(argv[0]);
    var prepared := PrepareInvocation(argv, w);
    if prepared.None? {
      return 1, [];
    }
    var inv := prepared.value;
    var probeFile := "bitness_" + w.pid + ".c";
    effects := [Exec([if inv.dialect == Icl then "icl" else "cl"], Some(probeFile))];
    var bitness := ProbeBitness(w);
    effects := effects + [Unlink(probeFile)];
    var st := Classify(inv.args, inv.start, Config(inv.noconv, w.noLineDirectives), w.pid);
    var code, rest := RunStages(st, inv.keep, [convTool, ConverterOptions(inv.dialect), bitness], w);
    effects := effects + rest;
    exitCode := if code != 0 then 1 else 0;
  }
}
