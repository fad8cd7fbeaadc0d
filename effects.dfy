/** The vocabulary both versions of main share: what the wrapper does to
    the outside world, the views of a list of such effects (the commands
    run, the files removed, the files written back) and the pieces of the
    pipeline that both versions run alike. */
module Effects {
  import opened Text
  import opened Classifier

  /** One thing the wrapper does to the outside world: run a command (with
      its standard output sent to a file, or not captured), remove a file,
      or write the normalised preprocessor output back. */
  datatype Effect =
    | Exec(argv: seq<string>, stdoutTo: Option<string>)
    | Unlink(path: string)
    | WriteBack(path: string, text: seq<byte>)

  /** An exit code and the effects that led to it, in order. */
  datatype Outcome = Outcome(code: int, effects: seq<Effect>)

  /** The pipeline is run only when a compile flag, a source file and an
      output name were all seen; otherwise the invocation is passed on. */
  predicate Decomposed(st: Scan)
  {
    st.flagCompile && st.sourceFile.Some? && st.outname.Some?
  }

  /** The `!keep` guard of every clean-up. */
  function UnlessKeep(keep: bool, es: seq<Effect>): seq<Effect>
  {
    if keep then [] else es
  }

  /** The compiler's run between the removals of the two temp files. */
  function CompileStep(keep: bool, st: Scan): seq<Effect>
  {
    UnlessKeep(keep, [Unlink(st.temp1)]) + [Exec(ResolveAll(st.cc, st), None)] + UnlessKeep(keep, [Unlink(st.temp2)])
  }

  /** `exit_code ? 1 : 0`. */
  function Collapse(code: int): (r: int)
    ensures r == 0 || r == 1
    ensures r == 0 <==> code == 0
  {
    if code != 0 then 1 else 0
  }

  // ---------------------------------------------------------------------
  // Views of an effect list

  /** The command lines run, in order. */
  function Runs(es: seq<Effect>): seq<seq<string>>
  {
    if es == [] then []
    else Runs(es[..|es| - 1]) + (if es[|es| - 1].Exec? then [es[|es| - 1].argv] else [])
  }

  /** The files removed. */
  function Unlinked(es: seq<Effect>): set<string>
  {
    if es == [] then {}
    else Unlinked(es[..|es| - 1]) + (if es[|es| - 1].Unlink? then {es[|es| - 1].path} else {})
  }

  /** The write-backs made. */
  function WriteBacks(es: seq<Effect>): seq<Effect>
  {
    if es == [] then []
    else WriteBacks(es[..|es| - 1]) + (if es[|es| - 1].WriteBack? then [es[|es| - 1]] else [])
  }

  /** The three views distribute over concatenation. */
  lemma {:induction false} ViewsAppend(a: seq<Effect>, b: seq<Effect>)
    ensures Runs(a + b) == Runs(a) + Runs(b)
    ensures Unlinked(a + b) == Unlinked(a) + Unlinked(b)
    ensures WriteBacks(a + b) == WriteBacks(a) + WriteBacks(b)
    decreases |b|
  {
    if b != [] {
      var b' := b[..|b| - 1];
      assert (a + b)[..|a + b| - 1] == a + b';
      ViewsAppend(a, b');
    } else {
      assert a + b == a;
    }
  }

  lemma ViewsOne(e: Effect)
    ensures Runs([e]) == (if e.Exec? then [e.argv] else [])
    ensures Unlinked([e]) == (if e.Unlink? then {e.path} else {})
    ensures WriteBacks([e]) == (if e.WriteBack? then [e] else [])
  {
    assert [e][..0] == [];
  }

  lemma ViewsTwo(e1: Effect, e2: Effect)
    ensures Runs([e1, e2]) == Runs([e1]) + Runs([e2])
    ensures Unlinked([e1, e2]) == Unlinked([e1]) + Unlinked([e2])
    ensures WriteBacks([e1, e2]) == WriteBacks([e1]) + WriteBacks([e2])
  {
    ViewsAppend([e1], [e2]);
    assert [e1] + [e2] == [e1, e2];
  }

  /** The views of a guarded clean-up: nothing with keep. */
  lemma ViewsCleanup(keep: bool, p: string)
    ensures Runs(UnlessKeep(keep, [Unlink(p)])) == []
    ensures Unlinked(UnlessKeep(keep, [Unlink(p)])) == if keep then {} else {p}
    ensures WriteBacks(UnlessKeep(keep, [Unlink(p)])) == []
  {
    ViewsOne(Unlink(p));
  }

  lemma ViewsCleanupBoth(keep: bool, p: string, q: string)
    ensures Runs(UnlessKeep(keep, [Unlink(p), Unlink(q)])) == []
    ensures Unlinked(UnlessKeep(keep, [Unlink(p), Unlink(q)])) == if keep then {} else {p, q}
    ensures WriteBacks(UnlessKeep(keep, [Unlink(p), Unlink(q)])) == []
  {
    ViewsOne(Unlink(p));
    ViewsOne(Unlink(q));
    ViewsTwo(Unlink(p), Unlink(q));
  }

  /** The views of the clean-up around the compiler's run. */
  lemma CompilerViews(keep: bool, st: Scan)
    ensures var tail := CompileStep(keep, st);
      Runs(tail) == [ResolveAll(st.cc, st)] && WriteBacks(tail) == []
      && Unlinked(tail) == (if keep then {} else {st.temp1, st.temp2})
  {
    var cc := Exec(ResolveAll(st.cc, st), None);
    ViewsOne(cc);
    ViewsCleanup(keep, st.temp1);
    ViewsCleanup(keep, st.temp2);
    hide Runs, Unlinked, WriteBacks;
    ViewsAppend(UnlessKeep(keep, [Unlink(st.temp1)]), [cc]);
    ViewsAppend(UnlessKeep(keep, [Unlink(st.temp1)]) + [cc], UnlessKeep(keep, [Unlink(st.temp2)]));
  }
}
