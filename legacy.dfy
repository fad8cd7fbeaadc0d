/** The older, root-level version of the wrapper's main. Its front end is
    the same without the environment overrides, and its classifier is the
    same scan with the preprocessor always asked for `-E`. It has no
    bitness probe, reads no file back between the stages, and runs the
    converter with four arguments. Its read_file returns a file's bytes as
    they are, with no byte-order-mark conversion and no special case for an
    empty file. */
module Legacy {
  import opened Text
  import opened Classifier
  import opened FrontEnd
  import opened Effects

  /** The world's answers: the pid, the contents of a file the response
      token names (None: it cannot be opened), the shell-style tokenizer and
      what each command returns when it is run. */
  datatype World = World(
    pid: string,
    files: string -> Option<seq<byte>>, split: seq<byte> -> seq<string>,
    cppCode: int, convCode: int, ccCode: int, passCode: int)

  /** This version has no line-directive override: `-c` always yields `-E`. */
  function ConfigOf(inv: Invocation): Config
  {
    Config(inv.noconv, false)
  }

  /** A `-c` (or `/c`) reaches the compiler and the passthrough command as
      written, and the preprocessor receives `-E` in its place. */
  lemma CompileAlwaysE(ts: seq<string>, i: nat, noconv: bool)
    requires i < |ts| && IsCompileFlag(ts[i])
    ensures var e := Dispatch(ts, i, Config(noconv, false));
      e.cpp == [Lit("-E")] && e.cc == [Lit(ts[i])] && e.pass == [Lit(ts[i])] && e.next == i + 1
  {
  }

  /** read_file of this version: the file's bytes and a terminating NUL;
      null only when the file cannot be opened. */
  method ReadFile(contents: Option<seq<byte>>) returns (buf: array?<byte>)
    ensures buf == null <==> contents.None?
    ensures buf != null ==> buf[..] == contents.value + [0] && fresh(buf)
  {
    if contents.None? {
      return null;
    }
    var c := contents.value;
    buf := new byte[|c| + 1];
    forall k | 0 <= k < |c| {
      buf[k] := c[k];
    }
    buf[|c|] := 0;
    assert buf[..] == c + [0];
  }

  /** The state the classifier ends in for an invocation. */
  function ScanOf(inv: Invocation, pid: string): Scan
    requires inv.start <= |inv.args|
  {
    ScanFrom(inv.args, inv.start, ConfigOf(inv), Initial(pid))
  }

  /** What happens after the scan, with exit_code as main leaves it:
      the passthrough command, or preprocess → convert → compile with the
      converter run as convHead (tool and options) and the two temp files. */
  function Stages(st: Scan, keep: bool, convHead: seq<string>, w: World): Outcome
  {
    if !Decomposed(st) then
      Outcome(w.passCode, [Exec(ResolveAll(st.pass, st), None)])
    else
      var cpp := [Exec(ResolveAll(st.cpp, st), Some(st.temp1))];
      if w.cppCode != 0 then
        Outcome(w.cppCode, cpp + UnlessKeep(keep, [Unlink(st.temp1)]))
      else
        var conv := cpp + [Exec(convHead + [st.temp1, st.temp2], None)];
        if w.convCode != 0 then
          Outcome(w.convCode, conv + UnlessKeep(keep, [Unlink(st.temp1), Unlink(st.temp2)]))
        else
          Outcome(w.ccCode, conv + CompileStep(keep, st))
  }

  /** The older main: exit code and effects. The exit code is always 0 or
      1, and the only effect-free run is the refusal of `-keep` with
      `-noconv`. */
  function CompileWrap(argv: seq<string>, w: World): (o: Outcome)
    requires Launchable(argv)
    ensures o.code == 0 || o.code == 1
    ensures o.effects == [] <==> Prepare(argv, false, w.files, w.split).None?
  {
    match Prepare(argv, false, w.files, w.split)
    case None => Outcome(1, [])
    case Some(inv) =>
      var rest := Stages(ScanOf(inv, w.pid), inv.keep, [ConvTool(argv[0]), ConverterOptions(inv.dialect)], w);
      assert rest.effects != [];
      Outcome(Collapse(rest.code), rest.effects)
  }

  // ---------------------------------------------------------------------
  // The pipeline

  /** The effects up to the converter's run. */
  lemma ConverterViews(st: Scan, convHead: seq<string>)
    ensures var conv := [Exec(ResolveAll(st.cpp, st), Some(st.temp1))] + [Exec(convHead + [st.temp1, st.temp2], None)];
      Runs(conv) == [ResolveAll(st.cpp, st), convHead + [st.temp1, st.temp2]] && Unlinked(conv) == {}
  {
    ViewsTwo(Exec(ResolveAll(st.cpp, st), Some(st.temp1)), Exec(convHead + [st.temp1, st.temp2], None));
    ViewsOne(Exec(ResolveAll(st.cpp, st), Some(st.temp1)));
    ViewsOne(Exec(convHead + [st.temp1, st.temp2], None));
  }

  /** The stages run in the order preprocess, convert, compile; the first
      failure stops the run, and the run succeeds exactly when every stage
      does. The converter's command is its head and the two temp files. */
  lemma StagesFailFast(st: Scan, keep: bool, convHead: seq<string>, w: World)
    requires Decomposed(st)
    ensures var o := Stages(st, keep, convHead, w);
      var cpp := ResolveAll(st.cpp, st);
      var conv := convHead + [st.temp1, st.temp2];
      var cc := ResolveAll(st.cc, st);
      && o.effects[0] == Exec(cpp, Some(st.temp1))
      && (w.cppCode != 0 ==> Runs(o.effects) == [cpp])
      && (w.cppCode == 0 && w.convCode != 0 ==> Runs(o.effects) == [cpp, conv])
      && (w.cppCode == 0 && w.convCode == 0 ==> Runs(o.effects) == [cpp, conv, cc])
      && (o.code == 0 <==> w.cppCode == 0 && w.convCode == 0 && w.ccCode == 0)
  {
    var cpp := [Exec(ResolveAll(st.cpp, st), Some(st.temp1))];
    if w.cppCode != 0 {
      ViewsOne(cpp[0]);
      ViewsCleanup(keep, st.temp1);
      ViewsAppend(cpp, UnlessKeep(keep, [Unlink(st.temp1)]));
    } else {
      StagesAfterPreprocess(st, keep, convHead, w);
    }
  }

  /** After a successful preprocessor: the commands run and the files
      removed. */
  lemma StagesAfterPreprocess(st: Scan, keep: bool, convHead: seq<string>, w: World)
    requires Decomposed(st) && w.cppCode == 0
    ensures var o := Stages(st, keep, convHead, w);
      var cpp := ResolveAll(st.cpp, st);
      var conv := convHead + [st.temp1, st.temp2];
      && Runs(o.effects) == (if w.convCode != 0 then [cpp, conv] else [cpp, conv, ResolveAll(st.cc, st)])
      && Unlinked(o.effects) == (if keep then {} else {st.temp1, st.temp2})
  {
    hide *;
    var conv := [Exec(ResolveAll(st.cpp, st), Some(st.temp1))] + [Exec(convHead + [st.temp1, st.temp2], None)];
    var tail := if w.convCode != 0 then UnlessKeep(keep, [Unlink(st.temp1), Unlink(st.temp2)]) else CompileStep(keep, st);
    StagesEffects(st, keep, convHead, w);
    ConverterViews(st, convHead);
    if w.convCode != 0 {
      ViewsCleanupBoth(keep, st.temp1, st.temp2);
    } else {
      CompilerViews(keep, st);
    }
    ViewsAppend(conv, tail);
  }

  /** The effects after a successful preprocessor: its run and the
      converter's, then the clean-up and (on success) the compiler's run. */
  lemma StagesEffects(st: Scan, keep: bool, convHead: seq<string>, w: World)
    requires Decomposed(st) && w.cppCode == 0
    ensures Stages(st, keep, convHead, w).effects ==
      [Exec(ResolveAll(st.cpp, st), Some(st.temp1))] + [Exec(convHead + [st.temp1, st.temp2], None)]
      + if w.convCode != 0 then UnlessKeep(keep, [Unlink(st.temp1), Unlink(st.temp2)]) else CompileStep(keep, st)
  {
  }

  /** Clean-up: with keep, or without the pipeline, nothing is removed;
      otherwise a failed preprocessor leaves no first temp file and a run
      that reaches the converter leaves neither. */
  lemma StagesCleanup(st: Scan, keep: bool, convHead: seq<string>, w: World)
    ensures var o := Stages(st, keep, convHead, w);
      Unlinked(o.effects) ==
        if keep || !Decomposed(st) then {}
        else if w.cppCode != 0 then {st.temp1}
        else {st.temp1, st.temp2}
  {
    if !Decomposed(st) {
      ViewsOne(Exec(ResolveAll(st.pass, st), None));
    } else if w.cppCode != 0 {
      var cpp := [Exec(ResolveAll(st.cpp, st), Some(st.temp1))];
      ViewsOne(cpp[0]);
      ViewsCleanup(keep, st.temp1);
      ViewsAppend(cpp, UnlessKeep(keep, [Unlink(st.temp1)]));
    } else {
      StagesAfterPreprocess(st, keep, convHead, w);
    }
  }

  // ---------------------------------------------------------------------
  // The whole run

  /** `-keep` together with `-noconv` ends the run with 1 before anything
      is done, and nothing else does. */
  lemma ConflictExits(argv: seq<string>, w: World)
    requires Launchable(argv)
    ensures var i := FirstOther(argv, 1);
      CompileWrap(argv, w) == Outcome(1, []) <==> "-keep" in argv[1..i] && "-noconv" in argv[1..i]
  {
    WrapperFlags(argv, false, w.files, w.split);
  }

  /** When the pipeline is not needed and no joined output flag was met,
      the one command run is the driver's invocation itself, token for
      token, and its result decides the exit code. */
  lemma PassthroughIsInvocation(argv: seq<string>, w: World)
    requires Launchable(argv) && Prepare(argv, false, w.files, w.split).Some?
    requires var inv := Prepare(argv, false, w.files, w.split).value;
      !Decomposed(ScanOf(inv, w.pid)) && AllLiteral(ScanOf(inv, w.pid).pass)
    ensures var inv := Prepare(argv, false, w.files, w.split).value;
      var o := CompileWrap(argv, w);
      Runs(o.effects) == [inv.args[inv.start..]] && Unlinked(o.effects) == {}
      && (o.code == 0 <==> w.passCode == 0)
  {
    var inv := Prepare(argv, false, w.files, w.split).value;
    var st := ScanOf(inv, w.pid);
    ViewsOne(Exec(ResolveAll(st.pass, st), None));
    PassthroughVerbatim(inv.args, inv.start, ConfigOf(inv), w.pid);
  }

  /** The converter is run with exactly four arguments: the converter
      beside the wrapper, `-ms` for cl (empty otherwise), then the
      preprocessed and the converted file named after the output. */
  lemma ConverterCommand(argv: seq<string>, w: World)
    requires Launchable(argv) && Prepare(argv, false, w.files, w.split).Some?
    requires var inv := Prepare(argv, false, w.files, w.split).value;
      Decomposed(ScanOf(inv, w.pid)) && w.cppCode == 0
    ensures var inv := Prepare(argv, false, w.files, w.split).value;
      var name := ScanOf(inv, w.pid).outname.value;
      var runs := Runs(CompileWrap(argv, w).effects);
      |runs| >= 2 && runs[1] == [ConvTool(argv[0]), ConverterOptions(inv.dialect),
                                 name + "_preprocessed.c", name + "_converted.c"]
  {
    var inv := Prepare(argv, false, w.files, w.split).value;
    var st := ScanOf(inv, w.pid);
    var head := [ConvTool(argv[0]), ConverterOptions(inv.dialect)];
    OutputNameSeen(inv.args, inv.start, ConfigOf(inv), Initial(w.pid));
    assert CompileWrap(argv, w).effects == Stages(st, inv.keep, head, w).effects;
    hide ScanFrom, Prepare, CompileWrap, Stages;
    ConverterRun(st, inv.keep, head, w);
  }

  /** The converter's command in the pipeline: its head, then the two temp
      files, which are named after the output. */
  lemma ConverterRun(st: Scan, keep: bool, head: seq<string>, w: World)
    requires Decomposed(st) && TempsNamed(st) && w.cppCode == 0 && |head| == 2
    ensures var runs := Runs(Stages(st, keep, head, w).effects);
      |runs| >= 2 && runs[1] == [head[0], head[1], st.outname.value + "_preprocessed.c", st.outname.value + "_converted.c"]
  {
    StagesAfterPreprocess(st, keep, head, w);
    assert head + [st.temp1, st.temp2] == [head[0], head[1], st.temp1, st.temp2];
  }

  /** The exit code is 0 exactly when every command that decided it
      succeeded: the passthrough command, or all three stages. */
  lemma ExitCode(argv: seq<string>, w: World)
    requires Launchable(argv) && Prepare(argv, false, w.files, w.split).Some?
    ensures var inv := Prepare(argv, false, w.files, w.split).value;
      CompileWrap(argv, w).code == 0 <==>
        if Decomposed(ScanOf(inv, w.pid)) then w.cppCode == 0 && w.convCode == 0 && w.ccCode == 0
        else w.passCode == 0
  {
    var inv := Prepare(argv, false, w.files, w.split).value;
    if Decomposed(ScanOf(inv, w.pid)) {
      StagesFailFast(ScanOf(inv, w.pid), inv.keep, [ConvTool(argv[0]), ConverterOptions(inv.dialect)], w);
    }
  }

  // ---------------------------------------------------------------------
  // main, step by step

  /** The tail of main after the scan, leaving exit_code as the function
      describes. */
  method RunStages(st: Scan, keep: bool, convHead: seq<string>, w: World)
    returns (exitCode: int, effects: seq<Effect>)
    ensures Outcome(exitCode, effects) == Stages(st, keep, convHead, w)
  {
    if !st.flagCompile || st.sourceFile.None? || st.outname.None? {
      return w.passCode, [Exec(ResolveAll(st.pass, st), None)];
    }
    effects := [Exec(ResolveAll(st.cpp, st), Some(st.temp1))];
    exitCode := w.cppCode;
    if exitCode != 0 {
      if !keep {
        effects := effects + [Unlink(st.temp1)];
      }
      return;
    }
    effects := effects + [Exec(convHead + [st.temp1, st.temp2], None)];
    exitCode := w.convCode;
    if exitCode != 0 {
      if !keep {
        effects := effects + [Unlink(st.temp1), Unlink(st.temp2)];
      }
      return;
    }
    ghost var conv := effects;
    if !keep {
      effects := effects + [Unlink(st.temp1)];
    }
    effects := effects + [Exec(ResolveAll(st.cc, st), None)];
    exitCode := w.ccCode;
    if !keep {
      effects := effects + [Unlink(st.temp2)];
    }
    assert effects == conv + CompileStep(keep, st);
  }

  /** The front end of the older main, step by step. */
  method PrepareInvocation(argv: seq<string>, w: World) returns (r: Option<Invocation>)
    requires Launchable(argv)
    ensures r == Prepare(argv, false, w.files, w.split)
  {
    var i, keep, noconv := StripFlags(argv, false);
    if keep && noconv {
      return None;
    }
    var dialect := DetectDialect(argv, i);
    var args, start := ReadResponse(argv, i, w);
    r := Some(Invocation(keep, noconv, dialect, args, start));
  }

  /** The response file named by the last argument, read raw, truncated at
      its first line end and split; without one the arguments stay as given. */
  method ReadResponse(argv: seq<string>, i: nat, w: World) returns (args: seq<string>, start: nat)
    requires Launchable(argv) && i == FirstOther(argv, 1)
    ensures var text := if NamesResponseFile(argv) then w.files(argv[|argv| - 1][1..]) else None;
      if text.Some? then args == [argv[i]] + w.split(ResponseLine(text.value)) && start == 0
      else args == argv && start == i
  {
    args, start := argv, i;
    if |argv[|argv| - 1]| > 0 && argv[|argv| - 1][0] == '@' {
      var responseFile := ReadFile(w.files(argv[|argv| - 1][1..]));
      if responseFile != null {
        ghost var text := w.files(argv[|argv| - 1][1..]).value;
        CutAtFirstAppend(text, 0);
        assert responseFile[|responseFile[..]| - 1] == 0;
        TruncateAtNewline(responseFile);
        assert ResponseLine(text + [0]) == ResponseLine(text);
        args, start := [argv[i]] + w.split(CString(responseFile[..])), 0;
      }
    }
  }

  /** The older main: the converter's path, the front end, the classifier
      and the stages, with the exit code collapsed to 0 or 1. */
  method Wrap(argv: seq<string>, w: World) returns (exitCode: int, effects: seq<Effect>)
    requires Launchable(argv)
    ensures Outcome(exitCode, effects) == CompileWrap(argv, w)
  {
    hide Prepare, ScanFrom, Stages;
    var convTool := ConvTool(argv[0]);
    var prepared := PrepareInvocation(argv, w);
    if prepared.None? {
      return 1, [];
    }
    var inv := prepared.value;
    var st := Classify(inv.args, inv.start, Config(inv.noconv, false), w.pid);
    var code;
    code, effects := RunStages(st, inv.keep, [convTool, ConverterOptions(inv.dialect)], w);
    exitCode := if code != 0 then 1 else 0;
  }
}
