/** The argument classifier of main: one left-to-right scan over the driver's
    tokens that builds the preprocessor (cpp), compiler (cc) and passthrough
    (pass) argument vectors and records the output name, the source file and
    whether a compile-only flag was seen.

    The C code stores pointers in its vectors, and three of them point into
    buffers that later steps overwrite: fo_buffer (a joined `-Fo X` or
    `-out:X`), fi_buffer (a joined `-FI X`) and temp_file_2 (the converted
    file standing in for a source file). Such entries are kept here as
    placeholders and are resolved against the buffers' final contents once
    the scan is over. */
module Classifier {
  import opened Text
  import opened Flags

  /** One entry of an argument vector: a token of the invocation, or a
      pointer to one of the shared buffers. The reference forms remember the
      two tokens whose joining they were made from. */
  datatype Arg =
    | Lit(s: string)
    | FoRef(flag: string, value: string)
    | FiRef(flag: string, value: string)
    | ConvertedRef

  /** The configuration the scan consults: -noconv, and whether the
      line-directive suppression override is set (then cpp gets -EP). */
  datatype Config = Config(noconv: bool, noLineDirectives: bool)

  /** The scan's state: the three vectors, the scalar results and the four
      buffers (temp_file_1, temp_file_2, fo_buffer, fi_buffer). */
  datatype Scan = Scan(
    cpp: seq<Arg>, cc: seq<Arg>, pass: seq<Arg>,
    outname: Option<string>, sourceFile: Option<string>, flagCompile: bool,
    temp1: string, temp2: string, fo: string, fi: string)

  /** The state before the first token: empty vectors and the pid-based
      temp file names. */
  function Initial(pid: string): Scan
  {
    Scan([], [], [], None, None, false, "preprocessed_" + pid + ".c", "converted_" + pid + ".c", "", "")
  }

  /** What `%s` prints for the output name: glibc's "(null)" when no output
      name has been seen yet. */
  function NameText(o: Option<string>): string
  {
    if o.Some? then o.value else "(null)"
  }

  /** The temp file names derived from the output name. */
  function Preprocessed(o: Option<string>): string { NameText(o) + "_preprocessed.c" }
  function Converted(o: Option<string>): string { NameText(o) + "_converted.c" }

  /** A C or assembler source: the last two characters are `.c`, `.s` or `.S`. */
  predicate HasSourceExt(t: string)
  {
    |t| >= 2 && t[|t| - 2] == '.' && (t[|t| - 1] == 'c' || t[|t| - 1] == 's' || t[|t| - 1] == 'S')
  }

  /** An object file: ends in `.o` and does not start like a flag. */
  predicate HasObjectExt(t: string)
  {
    |t| >= 2 && t[|t| - 2] == '.' && t[|t| - 1] == 'o' && t[0] != '/' && t[0] != '-'
  }

  /** The extension check that runs before the flag dispatch. */
  predicate IsInputFile(t: string)
  {
    HasSourceExt(t) || HasObjectExt(t)
  }

  /** The token starts with '-' or '/'. */
  predicate Dashed(t: string)
  {
    |t| > 0 && (t[0] == '-' || t[0] == '/')
  }

  /** The token is `-x` (or `/x`). */
  predicate Flag1(t: string, x: char)
  {
    |t| == 2 && Dashed(t) && t[1] == x
  }

  /** The token is `-xy` (or `/xy`). */
  predicate Flag2(t: string, x: char, y: char)
  {
    |t| == 3 && Dashed(t) && t[1] == x && t[2] == y
  }

  /** The token is `-xyz` (or `/xyz`). */
  predicate Flag3(t: string, x: char, y: char, z: char)
  {
    |t| == 4 && Dashed(t) && t[1] == x && t[2] == y && t[3] == z
  }

  /** The token starts with `-xy` (or `/xy`). */
  predicate Prefix2(t: string, x: char, y: char)
  {
    |t| >= 3 && Dashed(t) && t[1] == x && t[2] == y
  }

  /** `-c`, `-o`, `-out`, `-FI` and `-D` as whole tokens. */
  predicate IsCompileFlag(t: string) { Flag1(t, 'c') }
  predicate IsO(t: string) { Flag1(t, 'o') }
  predicate IsOut(t: string) { Flag3(t, 'o', 'u', 't') }
  predicate IsFI(t: string) { Flag2(t, 'F', 'I') }
  predicate IsD(t: string) { Flag1(t, 'D') }

  /** `-Fo…`, `-Fi…` or `-Fe…`: flagstrncmp over 3 characters. */
  predicate IsOutputPrefix(t: string)
  {
    Prefix2(t, 'F', 'o') || Prefix2(t, 'F', 'i') || Prefix2(t, 'F', 'e')
  }

  /** The guard of the first dispatch branch. */
  predicate IsOutputFlag(t: string)
  {
    IsOutputPrefix(t) || IsOut(t) || IsO(t) || IsFI(t)
  }

  /** Flags whose separate following token is joined into one entry. */
  predicate TakesSeparateName(t: string)
  {
    Flag2(t, 'F', 'o') || IsOut(t) || Flag2(t, 'F', 'i') || Flag2(t, 'F', 'e')
  }

  /** Preprocessor-only flags: `-MMD` and everything starting with `-D`. */
  predicate IsDefine(t: string)
  {
    Flag3(t, 'M', 'M', 'D') || (|t| >= 2 && Dashed(t) && t[1] == 'D')
  }

  /** Dependency flags that carry a value: `-MF` and `-MT`. */
  predicate IsDepFlag(t: string)
  {
    Flag2(t, 'M', 'F') || Flag2(t, 'M', 'T')
  }

  /** A fused forced include, `-FI…`. */
  predicate IsForcedInclude(t: string)
  {
    Prefix2(t, 'F', 'I')
  }

  /** The dispatch compares tokens with flagstrcmp and flagstrncmp against
      flags spelled with '-'; those comparisons are exactly the character
      tests above. First the whole-token flags. */
  lemma WholeFlagTests(t: string)
    ensures IsFlag(t, "-c") <==> IsCompileFlag(t)
    ensures IsFlag(t, "-o") <==> IsO(t)
    ensures IsFlag(t, "-out") <==> IsOut(t)
    ensures IsFlag(t, "-FI") <==> IsFI(t)
    ensures IsFlag(t, "-D") <==> IsD(t)
  {
    FlagIs(t, "-c");
    FlagIs(t, "-o");
    FlagIs(t, "-out");
    FlagIs(t, "-FI");
    FlagIs(t, "-D");
  }

  /** The output-flag tests of the first branch. */
  lemma OutputFlagTests(t: string)
    ensures IsFlag(t, "-Fo") || IsFlag(t, "-out") || IsFlag(t, "-Fi") || IsFlag(t, "-Fe") <==> TakesSeparateName(t)
  {
    FlagIs(t, "-Fo");
    FlagIs(t, "-out");
    FlagIs(t, "-Fi");
    FlagIs(t, "-Fe");
  }

  /** The fused output-name tests of the first branch. */
  lemma OutputPrefixTests(t: string)
    ensures HasFlagPrefix(t, "-Fo", 3) || HasFlagPrefix(t, "-Fi", 3) || HasFlagPrefix(t, "-Fe", 3)
            <==> IsOutputPrefix(t)
  {
    PrefixIs(t, "-Fo", 3);
    PrefixIs(t, "-Fi", 3);
    PrefixIs(t, "-Fe", 3);
  }

  /** The preprocessor-only flag tests. */
  lemma PreprocessorFlagTests(t: string)
    ensures IsFlag(t, "-MMD") || HasFlagPrefix(t, "-D", 2) <==> IsDefine(t)
    ensures IsFlag(t, "-MF") || IsFlag(t, "-MT") <==> IsDepFlag(t)
    ensures HasFlagPrefix(t, "-FI", 3) <==> IsForcedInclude(t)
  {
    FlagIs(t, "-MMD");
    FlagIs(t, "-MF");
    FlagIs(t, "-MT");
    PrefixIs(t, "-D", 2);
    PrefixIs(t, "-FI", 3);
  }

  lemma FlagIs(t: string, f: string)
    requires f != [] && f[0] == '-'
    ensures IsFlag(t, f) <==> |t| == |f| && Dashed(t) && t[1..] == f[1..]
  {
    IsFlagCanon(t, f);
    if |t| == |f| && Dashed(t) && t[1..] == f[1..] {
      assert Canon(t) == [f[0]] + f[1..] == f;
    }
  }

  lemma PrefixIs(t: string, f: string, n: nat)
    requires 0 < n <= |f| && f[0] == '-'
    ensures HasFlagPrefix(t, f, n) <==> n <= |t| && Dashed(t) && t[1..n] == f[1..n]
  {
    HasFlagPrefixCanon(t, f, n);
    if n <= |t| && Dashed(t) && t[1..n] == f[1..n] {
      assert Canon(t)[..n] == [f[0]] + f[1..n] == f[..n];
    }
  }

  /** The text written into fo_buffer for a separate `-Fo X`, `-out X`, … */
  function Joined(flag: string, value: string): string
  {
    if IsOut(flag) then "-out:" + value else flag + value
  }

  /** How many tokens the step at i consumes, read off the dispatch table:
      two exactly for a flag that takes its value as the next token, when
      there is a next token. */
  function Consumed(ts: seq<string>, i: nat): (n: nat)
    requires i < |ts|
    ensures n == 1 || n == 2
  {
    var t := ts[i];
    if i + 1 < |ts| &&
       (TakesSeparateName(t) || IsFI(t) || IsO(t) || IsD(t) || IsDepFlag(t))
    then 2 else 1
  }

  /** The tokens an entry stands for. */
  function Origin(a: Arg): seq<string>
  {
    match a
    case Lit(s) => [s]
    case FoRef(f, v) => [f, v]
    case FiRef(f, v) => [f, v]
    case ConvertedRef => []
  }

  function Origins(xs: seq<Arg>): seq<string>
  {
    if xs == [] then [] else Origins(xs[..|xs| - 1]) + Origin(xs[|xs| - 1])
  }

  lemma OriginsAppend(xs: seq<Arg>, bs: seq<Arg>)
    ensures Origins(xs + bs) == Origins(xs) + Origins(bs)
    decreases |bs|
  {
    if bs == [] {
      assert xs + bs == xs;
    } else {
      assert (xs + bs)[..|xs + bs| - 1] == xs + bs[..|bs| - 1];
      OriginsAppend(xs, bs[..|bs| - 1]);
    }
  }

  lemma OriginsOne(a: Arg)
    ensures Origins([a]) == Origin(a)
  {
    assert [a][..0] == [];
  }

  /** What one turn of the loop does, as read off the dispatch table: the
      entries appended to each vector, the index of the next token, the
      output name it records, the text it writes into fo_buffer or
      fi_buffer, whether it renames the temp files and whether it is the
      compile-only flag. */
  datatype Emit = Emit(cpp: seq<Arg>, cc: seq<Arg>, pass: seq<Arg>, next: nat,
                       name: Option<string>, fo: Option<string>, fi: Option<string>,
                       rename: bool, compile: bool)

  /** The dispatch at index i, branch by branch in the order main tests
      them. The passthrough vector receives exactly the tokens consumed. */
  function Dispatch(ts: seq<string>, i: nat, cfg: Config): (e: Emit)
    requires i < |ts|
    ensures i < e.next <= i + 2 && e.next <= |ts|
    ensures e.compile <==> IsCompileFlag(ts[i]) && !cfg.noconv
  {
    var t := ts[i];
    var more := i + 1 < |ts|;
    var one := [Lit(t)];
    if IsOutputFlag(t) then
      if TakesSeparateName(t) && more then
        var v := ts[i + 1];
        Emit([], [FoRef(t, v)], [FoRef(t, v)], i + 2, Some(v), Some(Joined(t, v)), None, true, false)
      else if IsFI(t) && more then
        var v := ts[i + 1];
        Emit([FiRef(t, v)], [], [FiRef(t, v)], i + 2, None, None, Some(t + v), true, false)
      else if IsOutputPrefix(t) then
        Emit([], one, one, i + 1, Some(t[3..]), None, None, true, false)
      else if more then
        var v := ts[i + 1];
        Emit([], [Lit(t), Lit(v)], [Lit(t), Lit(v)], i + 2, Some(v), None, None, true, false)
      else
        Emit([], one, one, i + 1, None, None, None, true, false)
    else if IsCompileFlag(t) then
      Emit([Lit(if cfg.noLineDirectives then "-EP" else "-E")], one, one, i + 1, None, None, None, false, !cfg.noconv)
    else if IsInputFile(t) then
      Emit(one, [ConvertedRef], one, i + 1, None, None, None, false, false)
    else if IsDefine(t) then
      if IsD(t) && more then
        var v := ts[i + 1];
        Emit([Lit(t), Lit(v)], [], [Lit(t), Lit(v)], i + 2, None, None, None, false, false)
      else
        Emit(one, [], one, i + 1, None, None, None, false, false)
    else if IsDepFlag(t) then
      if more then
        var v := ts[i + 1];
        Emit([Lit(t), Lit(v)], [], [Lit(t), Lit(v)], i + 2, None, None, None, false, false)
      else
        Emit(one, [], one, i + 1, None, None, None, false, false)
    else if IsForcedInclude(t) then
      Emit(one, [], one, i + 1, None, None, None, false, false)
    else
      Emit(one, one, one, i + 1, None, None, None, false, false)
  }

  /** The dispatch consumes the tokens the table says and hands exactly
      those tokens, in order, to the passthrough vector. */
  lemma DispatchPass(ts: seq<string>, i: nat, cfg: Config)
    requires i < |ts|
    ensures Dispatch(ts, i, cfg).next == i + Consumed(ts, i)
    ensures Origins(Dispatch(ts, i, cfg).pass) == ts[i..Dispatch(ts, i, cfg).next]
  {
    var e := Dispatch(ts, i, cfg);
    var t := ts[i];
    PassShape(ts, i, cfg);
    hide Dispatch;
    if e.next == i + 1 {
      assert ts[i..i + 1] == [t];
      OriginsOne(Lit(t));
      ConsumedOne(ts, i, cfg);
    } else {
      var v := ts[i + 1];
      assert ts[i..i + 2] == [t, v];
      OriginsPair(t, v);
      OriginsOne(FoRef(t, v));
      OriginsOne(FiRef(t, v));
      ConsumedTwo(ts, i, cfg);
    }
  }

  /** The passthrough entries of a dispatch: the token alone, or the token
      and the next one, plain or as a buffer reference. */
  lemma PassShape(ts: seq<string>, i: nat, cfg: Config)
    requires i < |ts|
    ensures var e := Dispatch(ts, i, cfg);
      && (e.next == i + 1 ==> e.pass == [Lit(ts[i])])
      && (e.next == i + 2 ==>
            e.pass in {[Lit(ts[i]), Lit(ts[i + 1])], [FoRef(ts[i], ts[i + 1])], [FiRef(ts[i], ts[i + 1])]})
  {
  }

  lemma ConsumedOne(ts: seq<string>, i: nat, cfg: Config)
    requires i < |ts| && Dispatch(ts, i, cfg).next == i + 1
    ensures Consumed(ts, i) == 1
  {
    var t := ts[i];
    if i + 1 < |ts| {
      assert !TakesSeparateName(t) && !IsFI(t) && !IsO(t);
      if IsOutputFlag(t) {
      } else if IsCompileFlag(t) {
      } else if IsInputFile(t) {
        assert !IsD(t) && !IsDepFlag(t);
      }
    }
  }

  lemma ConsumedTwo(ts: seq<string>, i: nat, cfg: Config)
    requires i < |ts| && Dispatch(ts, i, cfg).next == i + 2
    ensures Consumed(ts, i) == 2
  {
  }

  lemma OriginsPair(t: string, v: string)
    ensures Origins([Lit(t), Lit(v)]) == [t, v]
  {
    assert [Lit(t), Lit(v)][..1] == [Lit(t)];
    OriginsOne(Lit(t));
  }

  /** One turn of the classifier loop at index i: the extension check, then
      the dispatch, applied to the state. It returns the new state and the
      index of the next token. Every turn consumes the tokens the dispatch
      table says, hands exactly those tokens, in order, to the passthrough
      vector, sets the compile flag exactly for `-c` (unless -noconv) and
      records a source file exactly for a source extension. */
  function Step(ts: seq<string>, i: nat, cfg: Config, st: Scan): (r: (Scan, nat))
    requires i < |ts|
    ensures r.1 == i + Consumed(ts, i) <= |ts|
    ensures r.0.flagCompile == (st.flagCompile || (!cfg.noconv && IsCompileFlag(ts[i])))
    ensures r.0.sourceFile == if HasSourceExt(ts[i]) then Some(ts[i]) else st.sourceFile
  {
    var e := Dispatch(ts, i, cfg);
    DispatchPass(ts, i, cfg);
    (Record(Noted(st, ts[i]), e), e.next)
  }

  /** The extension check at the top of the loop: a token with a source
      extension becomes the source file. */
  function Noted(st: Scan, t: string): Scan
  {
    if HasSourceExt(t) then st.(sourceFile := Some(t)) else st
  }

  /** What the dispatch's outcome e does to the state: entries appended, the
      output name recorded, the temp files renamed after the output name,
      and the buffers overwritten. */
  function Record(st: Scan, e: Emit): Scan
  {
    var outname := if e.name.Some? then e.name else st.outname;
    st.(cpp := st.cpp + e.cpp, cc := st.cc + e.cc, pass := st.pass + e.pass,
        outname := outname,
        flagCompile := st.flagCompile || e.compile,
        temp1 := if e.rename then Preprocessed(outname) else st.temp1,
        temp2 := if e.rename then Converted(outname) else st.temp2,
        fo := if e.fo.Some? then e.fo.value else st.fo,
        fi := if e.fi.Some? then e.fi.value else st.fi)
  }

  /** A turn hands exactly the tokens it consumes, in order, to the
      passthrough vector. */
  lemma StepPass(ts: seq<string>, i: nat, cfg: Config, st: Scan)
    requires i < |ts|
    ensures Origins(Step(ts, i, cfg, st).0.pass) == Origins(st.pass) + ts[i..Step(ts, i, cfg, st).1]
  {
    var e := Dispatch(ts, i, cfg);
    DispatchPass(ts, i, cfg);
    OriginsAppend(st.pass, e.pass);
  }

  /** The classifier loop from index i to the end of the tokens. */
  function ScanFrom(ts: seq<string>, i: nat, cfg: Config, st: Scan): Scan
    requires i <= |ts|
    decreases |ts| - i
  {
    if i == |ts| then st
    else
      var (s, next) := Step(ts, i, cfg, st);
      ScanFrom(ts, next, cfg, s)
  }

  /** One unrolling of the scan. */
  lemma Unroll(ts: seq<string>, i: nat, cfg: Config, st: Scan)
    requires i <= |ts|
    ensures i == |ts| ==> ScanFrom(ts, i, cfg, st) == st
    ensures i < |ts| ==> ScanFrom(ts, i, cfg, st) == ScanFrom(ts, Step(ts, i, cfg, st).1, cfg, Step(ts, i, cfg, st).0)
    ensures i < |ts| ==> var e := Dispatch(ts, i, cfg);
      ScanFrom(ts, i, cfg, st) == ScanFrom(ts, e.next, cfg, Record(Noted(st, ts[i]), e))
  {
  }

  /** One turn of the scan, in terms of Step alone. */
  lemma ScanUnroll(ts: seq<string>, i: nat, cfg: Config, st: Scan)
    requires i <= |ts|
    ensures i == |ts| ==> ScanFrom(ts, i, cfg, st) == st
    ensures i < |ts| ==> ScanFrom(ts, i, cfg, st) == ScanFrom(ts, Step(ts, i, cfg, st).1, cfg, Step(ts, i, cfg, st).0)
  {
  }

  /** The indices where a turn of the loop starts: i, then each index the
      previous turn's consumption leads to. Tokens consumed as a flag's value
      are not among them and are never dispatched on. */
  function Starts(ts: seq<string>, i: nat): (ps: set<nat>)
    requires i <= |ts|
    ensures forall p :: p in ps ==> i <= p < |ts|
    decreases |ts| - i
  {
    if i == |ts| then {} else {i} + Starts(ts, i + Consumed(ts, i))
  }

  lemma StartsUnroll(ts: seq<string>, i: nat)
    requires i <= |ts|
    ensures i == |ts| ==> Starts(ts, i) == {}
    ensures i < |ts| ==> Starts(ts, i) == {i} + Starts(ts, i + Consumed(ts, i))
  {
  }

  /** Every token from i onwards reaches the passthrough vector, in the
      original order: the vector's entries, read back as the tokens they
      were made from, are exactly the tokens scanned. */
  lemma {:induction false} PassKeepsEveryToken(ts: seq<string>, i: nat, cfg: Config, st: Scan)
    requires i <= |ts|
    ensures Origins(ScanFrom(ts, i, cfg, st).pass) == Origins(st.pass) + ts[i..]
    decreases |ts| - i
  {
    hide Origins, ScanFrom, Step;
    Unroll(ts, i, cfg, st);
    if i < |ts| {
      var (s, next) := Step(ts, i, cfg, st);
      PassKeepsEveryToken(ts, next, cfg, s);
      StepPass(ts, i, cfg, st);
      assert ts[i..next] + ts[next..] == ts[i..];
    }
  }

  /** The compile flag ends up set exactly when -noconv is off and a `-c`
      (or `/c`) is dispatched on. */
  lemma {:induction false} CompileFlagSeen(ts: seq<string>, i: nat, cfg: Config, st: Scan)
    requires i <= |ts|
    ensures ScanFrom(ts, i, cfg, st).flagCompile <==>
      st.flagCompile || (!cfg.noconv && exists p :: p in Starts(ts, i) && IsCompileFlag(ts[p]))
    decreases |ts| - i
  {
    hide *;
    ScanUnroll(ts, i, cfg, st);
    StartsUnroll(ts, i);
    if i < |ts| {
      var (s, next) := Step(ts, i, cfg, st);
      CompileFlagSeen(ts, next, cfg, s);
      if !cfg.noconv && IsCompileFlag(ts[i]) {
        assert i in Starts(ts, i);
      } else if !cfg.noconv && exists p :: p in Starts(ts, next) && IsCompileFlag(ts[p]) {
        var p :| p in Starts(ts, next) && IsCompileFlag(ts[p]);
        assert p in Starts(ts, i);
      }
    }
  }

  /** No index of ps holds a token with a source extension. */
  predicate NoSourceIn(ts: seq<string>, ps: set<nat>)
  {
    forall p :: p in ps ==> p < |ts| && !HasSourceExt(ts[p])
  }

  /** r is the token with a source extension at the last such index of ps. */
  predicate LastSourceIn(ts: seq<string>, ps: set<nat>, r: Option<string>)
  {
    exists p :: p in ps && p < |ts| && HasSourceExt(ts[p]) && r == Some(ts[p]) &&
      forall q :: q in ps && q > p ==> q < |ts| && !HasSourceExt(ts[q])
  }

  /** The source file is the last dispatched token with a source extension;
      it stays unset when there is none. A source name consumed as the value
      of `-o`, `-MF`, … is not a source file. */
  lemma {:induction false} SourceFileSeen(ts: seq<string>, i: nat, cfg: Config, st: Scan)
    requires i <= |ts|
    ensures var r := ScanFrom(ts, i, cfg, st).sourceFile;
      (r == st.sourceFile && NoSourceIn(ts, Starts(ts, i))) || LastSourceIn(ts, Starts(ts, i), r)
    decreases |ts| - i
  {
    if i < |ts| {
      hide *;
      var (s, next) := Step(ts, i, cfg, st);
      SourceFileSeen(ts, next, cfg, s);
      SourceStep(ts, i, cfg, st);
    } else {
      assert NoSourceIn(ts, {});
      ScanUnroll(ts, i, cfg, st);
      StartsUnroll(ts, i);
    }
  }

  /** One turn of SourceFileSeen's induction: the claim for the turns after
      the one at i gives the claim from i on. */
  lemma SourceStep(ts: seq<string>, i: nat, cfg: Config, st: Scan)
    requires i < |ts|
    requires var (s, next) := Step(ts, i, cfg, st); var r := ScanFrom(ts, next, cfg, s).sourceFile;
      (r == s.sourceFile && NoSourceIn(ts, Starts(ts, next))) || LastSourceIn(ts, Starts(ts, next), r)
    ensures var r := ScanFrom(ts, i, cfg, st).sourceFile;
      (r == st.sourceFile && NoSourceIn(ts, Starts(ts, i))) || LastSourceIn(ts, Starts(ts, i), r)
  {
    hide *;
    var (s, next) := Step(ts, i, cfg, st);
    var r := ScanFrom(ts, next, cfg, s).sourceFile;
    ScanUnroll(ts, i, cfg, st);
    assert ScanFrom(ts, i, cfg, st).sourceFile == r;
    LastSourceStep(ts, i, next, r, s.sourceFile, st.sourceFile);
  }

  /** A turn at i before the turns that follow it: the source file they
      leave is the last one among them all. */
  lemma LastSourceStep(ts: seq<string>, i: nat, next: nat, r: Option<string>, cur: Option<string>, prev: Option<string>)
    requires i < |ts| && next == i + Consumed(ts, i)
    requires cur == if HasSourceExt(ts[i]) then Some(ts[i]) else prev
    requires (r == cur && NoSourceIn(ts, Starts(ts, next))) || LastSourceIn(ts, Starts(ts, next), r)
    ensures (r == prev && NoSourceIn(ts, Starts(ts, i))) || LastSourceIn(ts, Starts(ts, i), r)
  {
    var qs := Starts(ts, next);
    StartsUnroll(ts, i);
    assert Starts(ts, i) == {i} + qs;
    hide Starts;
    if LastSourceIn(ts, qs, r) {
      var p :| p in qs && p < |ts| && HasSourceExt(ts[p]) && r == Some(ts[p]) &&
        forall q :: q in qs && q > p ==> q < |ts| && !HasSourceExt(ts[q]);
      assert p in {i} + qs;
    } else if HasSourceExt(ts[i]) {
      assert i in {i} + qs;
    }
  }

  /** A step that names the output: a `-Fo…`/`-Fi…`/`-Fe…` token (fused, or
      separate with its value), or `-o`/`-out` with a following token. */
  predicate NamesOutput(ts: seq<string>, p: nat)
    requires p < |ts|
  {
    IsOutputPrefix(ts[p]) || ((IsO(ts[p]) || IsOut(ts[p])) && p + 1 < |ts|)
  }

  /** Once an output name is known the temp file names are derived from it. */
  predicate TempsNamed(st: Scan)
  {
    st.outname.Some? ==> st.temp1 == Preprocessed(st.outname) && st.temp2 == Converted(st.outname)
  }

  /** Every step keeps the temp names in line with the output name, and the
      output name is set exactly by the steps that name the output. */
  lemma StepNamesOutput(ts: seq<string>, i: nat, cfg: Config, st: Scan)
    requires i < |ts| && TempsNamed(st)
    ensures TempsNamed(Step(ts, i, cfg, st).0)
    ensures Step(ts, i, cfg, st).0.outname.Some? <==> st.outname.Some? || NamesOutput(ts, i)
  {
    DispatchNames(ts, i, cfg);
  }

  /** Only the output-flag branches record a name, and every output-flag
      branch renames the temp files, whether or not it records one. */
  lemma DispatchNames(ts: seq<string>, i: nat, cfg: Config)
    requires i < |ts|
    ensures Dispatch(ts, i, cfg).name.Some? <==> NamesOutput(ts, i)
    ensures Dispatch(ts, i, cfg).name.Some? ==> Dispatch(ts, i, cfg).rename
    ensures Dispatch(ts, i, cfg).rename <==> IsOutputFlag(ts[i])
  {
  }

  /** After the scan an output name is set exactly when some dispatched
      token names the output, and then the temp names are
      `<outname>_preprocessed.c` and `<outname>_converted.c`. */
  lemma {:induction false} OutputNameSeen(ts: seq<string>, i: nat, cfg: Config, st: Scan)
    requires i <= |ts| && TempsNamed(st)
    ensures TempsNamed(ScanFrom(ts, i, cfg, st))
    ensures ScanFrom(ts, i, cfg, st).outname.Some? <==>
      st.outname.Some? || exists p :: p in Starts(ts, i) && NamesOutput(ts, p)
    decreases |ts| - i
  {
    hide *;
    ScanUnroll(ts, i, cfg, st);
    StartsUnroll(ts, i);
    if i < |ts| {
      var (s, next) := Step(ts, i, cfg, st);
      StepNamesOutput(ts, i, cfg, st);
      OutputNameSeen(ts, next, cfg, s);
      if NamesOutput(ts, i) {
        assert i in Starts(ts, i);
      } else if exists p :: p in Starts(ts, next) && NamesOutput(ts, p) {
        var p :| p in Starts(ts, next) && NamesOutput(ts, p);
        assert p in Starts(ts, i);
      }
    }
  }

  /** The dispatch table, one row per kind of token: which vectors receive
      what, which name is recorded and which buffer is written. */
  lemma Routing(ts: seq<string>, i: nat, cfg: Config)
    requires i < |ts|
    ensures var e := Dispatch(ts, i, cfg);
      var t := ts[i];
      var more := i + 1 < |ts|;
      && (TakesSeparateName(t) && more ==>
            e.cpp == [] && e.cc == e.pass == [FoRef(t, ts[i + 1])] &&
            e.name == Some(ts[i + 1]) && e.fo == Some(Joined(t, ts[i + 1])))
      && (IsFI(t) && more ==>
            e.cc == [] && e.cpp == e.pass == [FiRef(t, ts[i + 1])] && e.fi == Some(t + ts[i + 1]))
      && (IsOutputPrefix(t) && !(TakesSeparateName(t) && more) ==>
            e.cpp == [] && e.cc == e.pass == [Lit(t)] && |t| >= 3 && e.name == Some(t[3..]))
      && (IsO(t) ==>
            e.cpp == [] && e.cc == e.pass == [Lit(t)] + (if more then [Lit(ts[i + 1])] else []) &&
            e.name == (if more then Some(ts[i + 1]) else None))
      && (e.rename <==> IsOutputFlag(t))
      && (IsCompileFlag(t) ==>
            e.cc == e.pass == [Lit(t)] && e.cpp == [Lit(if cfg.noLineDirectives then "-EP" else "-E")])
      && (IsInputFile(t) && !IsOutputFlag(t) ==>
            e.cpp == e.pass == [Lit(t)] && e.cc == [ConvertedRef])
      && (IsD(t) || IsDepFlag(t) ==>
            e.cc == [] && e.cpp == e.pass == [Lit(t)] + (if more then [Lit(ts[i + 1])] else []))
      && (!IsOutputFlag(t) && !IsInputFile(t) && (IsDefine(t) || IsForcedInclude(t)) && !IsD(t) ==>
            e.cc == [] && e.cpp == e.pass == [Lit(t)])
      && (!IsOutputFlag(t) && !IsCompileFlag(t) && !IsInputFile(t) && !IsDefine(t) && !IsDepFlag(t) &&
          !IsForcedInclude(t) ==>
            e.cpp == e.cc == e.pass == [Lit(t)])
      && (!IsOutputFlag(t) ==> e.name.None? && e.fo.None? && e.fi.None?)
  {
  }

  /** What an entry of a vector reads as once the scan is over: a buffer
      reference reads the buffer's final contents. */
  function Resolve(a: Arg, st: Scan): string
  {
    match a
    case Lit(s) => s
    case FoRef(_, _) => st.fo
    case FiRef(_, _) => st.fi
    case ConvertedRef => st.temp2
  }

  function ResolveAll(xs: seq<Arg>, st: Scan): (r: seq<string>)
    ensures |r| == |xs|
    ensures forall k :: 0 <= k < |xs| ==> r[k] == Resolve(xs[k], st)
  {
    if xs == [] then [] else [Resolve(xs[0], st)] + ResolveAll(xs[1..], st)
  }

  /** Only plain tokens in the vector. */
  predicate AllLiteral(xs: seq<Arg>)
  {
    forall k :: 0 <= k < |xs| ==> xs[k].Lit?
  }

  lemma {:induction false} LiteralOrigins(xs: seq<Arg>, st: Scan)
    requires AllLiteral(xs)
    ensures Origins(xs) == ResolveAll(xs, st)
    decreases |xs|
  {
    if xs != [] {
      var init, last := xs[..|xs| - 1], xs[|xs| - 1];
      assert AllLiteral(init) by {
        forall k | 0 <= k < |init| ensures init[k].Lit? {
          assert init[k] == xs[k];
        }
      }
      assert last.Lit?;
      LiteralOrigins(init, st);
      ResolveSnoc(xs, st);
    }
  }

  /** Resolving a vector resolves its last entry after the others. */
  lemma ResolveSnoc(xs: seq<Arg>, st: Scan)
    requires xs != []
    ensures ResolveAll(xs, st) == ResolveAll(xs[..|xs| - 1], st) + [Resolve(xs[|xs| - 1], st)]
  {
    var r, r' := ResolveAll(xs, st), ResolveAll(xs[..|xs| - 1], st) + [Resolve(xs[|xs| - 1], st)];
    forall k | 0 <= k < |r| ensures r[k] == r'[k] {
      if k < |xs| - 1 {
        assert r'[k] == ResolveAll(xs[..|xs| - 1], st)[k];
      }
    }
  }

  /** When no separate `-Fo X`, `-Fi X`, `-Fe X`, `-out X` or `-FI X` was
      joined, the passthrough command is the invocation itself, token for
      token. */
  lemma PassthroughVerbatim(ts: seq<string>, i: nat, cfg: Config, pid: string)
    requires i <= |ts|
    requires AllLiteral(ScanFrom(ts, i, cfg, Initial(pid)).pass)
    ensures ResolveAll(ScanFrom(ts, i, cfg, Initial(pid)).pass, ScanFrom(ts, i, cfg, Initial(pid))) == ts[i..]
  {
    var r := ScanFrom(ts, i, cfg, Initial(pid));
    PassKeepsEveryToken(ts, i, cfg, Initial(pid));
    LiteralOrigins(r.pass, r);
  }

  /** Every source or object input is replaced in the compiler's vector by
      the converted file, which is the temp name derived from the output. */
  lemma ConvertedIsNamedTemp(ts: seq<string>, i: nat, cfg: Config, pid: string, k: nat)
    requires i <= |ts|
    requires ScanFrom(ts, i, cfg, Initial(pid)).outname.Some?
    requires k < |ScanFrom(ts, i, cfg, Initial(pid)).cc| && ScanFrom(ts, i, cfg, Initial(pid)).cc[k] == ConvertedRef
    ensures var r := ScanFrom(ts, i, cfg, Initial(pid));
      ResolveAll(r.cc, r)[k] == r.outname.value + "_converted.c"
  {
    OutputNameSeen(ts, i, cfg, Initial(pid));
  }

  /** A token the dispatch passes to all three vectors unchanged. */
  predicate Plain(t: string)
  {
    !Dashed(t) && !IsInputFile(t)
  }

  /** A plain token goes to all three vectors. */
  lemma PlainTurn(ts: seq<string>, i: nat, cfg: Config, st: Scan)
    requires i < |ts| && Plain(ts[i])
    ensures ScanFrom(ts, i, cfg, st) ==
      ScanFrom(ts, i + 1, cfg, st.(cpp := st.cpp + [Lit(ts[i])], cc := st.cc + [Lit(ts[i])], pass := st.pass + [Lit(ts[i])]))
  {
    hide Step, ScanFrom;
    Unroll(ts, i, cfg, st);
  }

  /** `-c` goes to the compiler and the passthrough vector; the
      preprocessor gets `-E` (or `-EP`), and the compile flag is set unless
      -noconv. */
  lemma CompileTurn(ts: seq<string>, i: nat, cfg: Config, st: Scan)
    requires i < |ts| && IsCompileFlag(ts[i])
    ensures ScanFrom(ts, i, cfg, st) ==
      ScanFrom(ts, i + 1, cfg, st.(cpp := st.cpp + [Lit(if cfg.noLineDirectives then "-EP" else "-E")],
                                   cc := st.cc + [Lit(ts[i])], pass := st.pass + [Lit(ts[i])],
                                   flagCompile := st.flagCompile || !cfg.noconv))
  {
    hide Step, ScanFrom;
    Unroll(ts, i, cfg, st);
  }

  /** A source file goes to the preprocessor and the passthrough vector, the
      compiler gets the converted file, and it becomes the source file. */
  lemma SourceTurn(ts: seq<string>, i: nat, cfg: Config, st: Scan)
    requires i < |ts| && !Dashed(ts[i]) && HasSourceExt(ts[i])
    ensures ScanFrom(ts, i, cfg, st) ==
      ScanFrom(ts, i + 1, cfg, st.(cpp := st.cpp + [Lit(ts[i])], cc := st.cc + [ConvertedRef],
                                   pass := st.pass + [Lit(ts[i])], sourceFile := Some(ts[i])))
  {
    hide Step, ScanFrom;
    Unroll(ts, i, cfg, st);
  }

  /** `-o X` goes to the compiler and the passthrough vector, X becomes the
      output name and the temp files are renamed after it. */
  lemma OutputTurnO(ts: seq<string>, i: nat, cfg: Config, st: Scan)
    requires i + 1 < |ts| && IsO(ts[i])
    ensures ScanFrom(ts, i, cfg, st) ==
      ScanFrom(ts, i + 2, cfg, st.(cc := st.cc + [Lit(ts[i]), Lit(ts[i + 1])], pass := st.pass + [Lit(ts[i]), Lit(ts[i + 1])],
                                   outname := Some(ts[i + 1]),
                                   temp1 := Preprocessed(Some(ts[i + 1])), temp2 := Converted(Some(ts[i + 1]))))
  {
    hide Step, ScanFrom;
    assert Dispatch(ts, i, cfg) ==
      Emit([], [Lit(ts[i]), Lit(ts[i + 1])], [Lit(ts[i]), Lit(ts[i + 1])], i + 2, Some(ts[i + 1]), None, None, true, false);
    assert Noted(st, ts[i]) == st && st.cpp + [] == st.cpp;
    Unroll(ts, i, cfg, st);
  }

  /** A separate `-Fo X` (`-Fi`, `-Fe`, `-out`) is joined into fo_buffer; the
      compiler and passthrough vectors get a reference to that buffer. */
  lemma SeparateNameTurn(ts: seq<string>, i: nat, cfg: Config, st: Scan)
    requires i + 1 < |ts| && TakesSeparateName(ts[i])
    ensures ScanFrom(ts, i, cfg, st) ==
      ScanFrom(ts, i + 2, cfg, st.(cc := st.cc + [FoRef(ts[i], ts[i + 1])], pass := st.pass + [FoRef(ts[i], ts[i + 1])],
                                   outname := Some(ts[i + 1]), fo := Joined(ts[i], ts[i + 1]),
                                   temp1 := Preprocessed(Some(ts[i + 1])), temp2 := Converted(Some(ts[i + 1]))))
  {
    hide Step, ScanFrom;
    assert Dispatch(ts, i, cfg) ==
      Emit([], [FoRef(ts[i], ts[i + 1])], [FoRef(ts[i], ts[i + 1])], i + 2, Some(ts[i + 1]),
           Some(Joined(ts[i], ts[i + 1])), None, true, false);
    assert Noted(st, ts[i]) == st && st.cpp + [] == st.cpp;
    Unroll(ts, i, cfg, st);
  }

  /** The typical build-system invocation `<driver> -c <src> -o <out>`: the
      preprocessor runs `-E` on the source, the compiler compiles the
      converted file to the requested output, and the passthrough vector is
      the invocation itself. */
  lemma CompileInvocation(driver: string, src: string, out: string, pid: string)
    requires Plain(driver) && !Dashed(src) && HasSourceExt(src)
    ensures var r := ScanFrom([driver, "-c", src, "-o", out], 0, Config(false, false), Initial(pid));
      && ResolveAll(r.cpp, r) == [driver, "-E", src]
      && ResolveAll(r.cc, r) == [driver, "-c", out + "_converted.c", "-o", out]
      && ResolveAll(r.pass, r) == [driver, "-c", src, "-o", out]
      && r.flagCompile && r.sourceFile == Some(src) && r.outname == Some(out)
      && r.temp1 == out + "_preprocessed.c"
  {
    hide ScanFrom;
    CompileInvocationScan(driver, src, out, pid);
  }

  lemma CompileInvocationScan(driver: string, src: string, out: string, pid: string)
    requires Plain(driver) && !Dashed(src) && HasSourceExt(src)
    ensures ScanFrom([driver, "-c", src, "-o", out], 0, Config(false, false), Initial(pid)) ==
      Scan([Lit(driver), Lit("-E"), Lit(src)],
           [Lit(driver), Lit("-c"), ConvertedRef, Lit("-o"), Lit(out)],
           [Lit(driver), Lit("-c"), Lit(src), Lit("-o"), Lit(out)],
           Some(out), Some(src), true, Preprocessed(Some(out)), Converted(Some(out)), "", "")
  {
    hide *;
    CompileInvocationHead(driver, src, out, pid);
    CompileInvocationSource(driver, src, out, Initial(pid).temp1, Initial(pid).temp2);
    CompileInvocationOutput(driver, src, out, Initial(pid).temp1, Initial(pid).temp2);
  }

  /** The source file: the third turn of that invocation. */
  lemma CompileInvocationSource(driver: string, src: string, out: string, temp1: string, temp2: string)
    requires !Dashed(src) && HasSourceExt(src)
    ensures ScanFrom([driver, "-c", src, "-o", out], 2, Config(false, false),
                     Scan([Lit(driver), Lit("-E")], [Lit(driver), Lit("-c")], [Lit(driver), Lit("-c")],
                          None, None, true, temp1, temp2, "", "")) ==
      ScanFrom([driver, "-c", src, "-o", out], 3, Config(false, false),
               Scan([Lit(driver), Lit("-E"), Lit(src)], [Lit(driver), Lit("-c"), ConvertedRef],
                    [Lit(driver), Lit("-c"), Lit(src)], None, Some(src), true, temp1, temp2, "", ""))
  {
    var ts := [driver, "-c", src, "-o", out];
    var cfg := Config(false, false);
    hide Step, ScanFrom;
    var s2 := Scan([Lit(driver), Lit("-E")], [Lit(driver), Lit("-c")], [Lit(driver), Lit("-c")],
                   None, None, true, temp1, temp2, "", "");
    SourceTurn(ts, 2, cfg, s2);
    var s3 := Scan([Lit(driver), Lit("-E"), Lit(src)], [Lit(driver), Lit("-c"), ConvertedRef],
                   [Lit(driver), Lit("-c"), Lit(src)], None, Some(src), true, temp1, temp2, "", "");
    assert ts[2] == src && s2.cpp + [Lit(src)] == s3.cpp && s2.cc + [ConvertedRef] == s3.cc && s2.pass + [Lit(src)] == s3.pass;
  }

  /** `-o` and its name: the last turn of that invocation, which names the
      temp files after the output. */
  lemma CompileInvocationOutput(driver: string, src: string, out: string, temp1: string, temp2: string)
    ensures ScanFrom([driver, "-c", src, "-o", out], 3, Config(false, false),
                     Scan([Lit(driver), Lit("-E"), Lit(src)], [Lit(driver), Lit("-c"), ConvertedRef],
                          [Lit(driver), Lit("-c"), Lit(src)], None, Some(src), true, temp1, temp2, "", "")) ==
      Scan([Lit(driver), Lit("-E"), Lit(src)],
           [Lit(driver), Lit("-c"), ConvertedRef, Lit("-o"), Lit(out)],
           [Lit(driver), Lit("-c"), Lit(src), Lit("-o"), Lit(out)],
           Some(out), Some(src), true, Preprocessed(Some(out)), Converted(Some(out)), "", "")
  {
    var ts := [driver, "-c", src, "-o", out];
    var cfg := Config(false, false);
    hide Step, ScanFrom;
    var s3 := Scan([Lit(driver), Lit("-E"), Lit(src)], [Lit(driver), Lit("-c"), ConvertedRef],
                   [Lit(driver), Lit("-c"), Lit(src)], None, Some(src), true, temp1, temp2, "", "");
    OutputTurnO(ts, 3, cfg, s3);
    var s4 := Scan([Lit(driver), Lit("-E"), Lit(src)],
                   [Lit(driver), Lit("-c"), ConvertedRef, Lit("-o"), Lit(out)],
                   [Lit(driver), Lit("-c"), Lit(src), Lit("-o"), Lit(out)],
                   Some(out), Some(src), true, Preprocessed(Some(out)), Converted(Some(out)), "", "");
    assert ts[3] == "-o" && ts[4] == out;
    assert s3.cc + [Lit("-o"), Lit(out)] == s4.cc && s3.pass + [Lit("-o"), Lit(out)] == s4.pass;
    assert ScanFrom(ts, 3, cfg, s3) == ScanFrom(ts, 5, cfg, s4);
    Unroll(ts, 5, cfg, s4);
  }

  /** The driver's name and `-c`: the first two turns of that invocation. */
  lemma CompileInvocationHead(driver: string, src: string, out: string, pid: string)
    requires Plain(driver)
    ensures var s0 := Initial(pid);
      ScanFrom([driver, "-c", src, "-o", out], 0, Config(false, false), s0) ==
      ScanFrom([driver, "-c", src, "-o", out], 2, Config(false, false),
               Scan([Lit(driver), Lit("-E")], [Lit(driver), Lit("-c")], [Lit(driver), Lit("-c")],
                    None, None, true, s0.temp1, s0.temp2, "", ""))
  {
    var ts := [driver, "-c", src, "-o", out];
    var cfg := Config(false, false);
    hide Step, ScanFrom;
    var s0 := Initial(pid);
    PlainTurn(ts, 0, cfg, s0);
    var s1 := Scan([Lit(driver)], [Lit(driver)], [Lit(driver)], None, None, false, s0.temp1, s0.temp2, "", "");
    assert ts[0] == driver;
    assert s0.cpp == [] && s0.cc == [] && s0.pass == [];
    assert s0.(cpp := s0.cpp + [Lit(ts[0])], cc := s0.cc + [Lit(ts[0])], pass := s0.pass + [Lit(ts[0])]) == s1;
    assert ScanFrom(ts, 0, cfg, s0) == ScanFrom(ts, 1, cfg, s1);
    CompileTurn(ts, 1, cfg, s1);
    var s2 := Scan([Lit(driver), Lit("-E")], [Lit(driver), Lit("-c")], [Lit(driver), Lit("-c")],
                   None, None, true, s0.temp1, s0.temp2, "", "");
    assert ts[1] == "-c" && [Lit(driver)] + [Lit("-c")] == [Lit(driver), Lit("-c")];
    assert [Lit(driver)] + [Lit("-E")] == [Lit(driver), Lit("-E")];
    assert ScanFrom(ts, 1, cfg, s1) == ScanFrom(ts, 2, cfg, s2);
  }

  /** fo_buffer is one buffer: after two separate output flags (say
      `-Fo a.obj -Fe b.exe`), both entries in the compiler and passthrough
      vectors read the text written last (`-Feb.exe` twice). */
  lemma SharedOutputBuffer(f1: string, v1: string, f2: string, v2: string, pid: string)
    requires TakesSeparateName(f1) && TakesSeparateName(f2)
    ensures var r := ScanFrom([f1, v1, f2, v2], 0, Config(false, false), Initial(pid));
      && ResolveAll(r.pass, r) == [Joined(f2, v2), Joined(f2, v2)]
      && ResolveAll(r.cc, r) == [Joined(f2, v2), Joined(f2, v2)]
      && r.outname == Some(v2)
  {
    hide ScanFrom;
    SharedOutputBufferScan(f1, v1, f2, v2, pid);
  }

  lemma SharedOutputBufferScan(f1: string, v1: string, f2: string, v2: string, pid: string)
    requires TakesSeparateName(f1) && TakesSeparateName(f2)
    ensures ScanFrom([f1, v1, f2, v2], 0, Config(false, false), Initial(pid)) ==
      Scan([], [FoRef(f1, v1), FoRef(f2, v2)], [FoRef(f1, v1), FoRef(f2, v2)], Some(v2), None, false,
           Preprocessed(Some(v2)), Converted(Some(v2)), Joined(f2, v2), "")
  {
    var ts := [f1, v1, f2, v2];
    var cfg := Config(false, false);
    hide Step, ScanFrom;
    var s0 := Initial(pid);
    SeparateNameTurn(ts, 0, cfg, s0);
    var s1 := Scan([], [FoRef(f1, v1)], [FoRef(f1, v1)], Some(v1), None, false,
                   Preprocessed(Some(v1)), Converted(Some(v1)), Joined(f1, v1), "");
    assert ts[0] == f1 && ts[1] == v1 && [] + [FoRef(f1, v1)] == [FoRef(f1, v1)];
    assert ScanFrom(ts, 0, cfg, s0) == ScanFrom(ts, 2, cfg, s1);
    SeparateNameTurn(ts, 2, cfg, s1);
    var s2 := Scan([], [FoRef(f1, v1), FoRef(f2, v2)], [FoRef(f1, v1), FoRef(f2, v2)], Some(v2), None, false,
                   Preprocessed(Some(v2)), Converted(Some(v2)), Joined(f2, v2), "");
    assert ts[2] == f2 && ts[3] == v2 && [FoRef(f1, v1)] + [FoRef(f2, v2)] == [FoRef(f1, v1), FoRef(f2, v2)];
    assert ScanFrom(ts, 2, cfg, s1) == ScanFrom(ts, 4, cfg, s2);
    Unroll(ts, 4, cfg, s2);
  }

  /** One turn of the classifier loop of main: the extension check, then
      the dispatch, appending to the vectors and advancing by one or two
      tokens. */
  method Turn(ts: seq<string>, i: nat, cfg: Config, st: Scan) returns (r: Scan, next: nat)
    requires i < |ts|
    ensures next == Dispatch(ts, i, cfg).next
    ensures r == Record(Noted(st, ts[i]), Dispatch(ts, i, cfg))
  {
    r := st;
    next := i;
    var t := ts[i];
    if HasSourceExt(t) {
      r := r.(sourceFile := Some(t));
    }
    var extInputFile := IsInputFile(t);
    if IsOutputFlag(t) {
      r := OutputTurn(ts, i, cfg, r);
      next := Dispatch(ts, i, cfg).next;
    } else if IsCompileFlag(t) {
      r := r.(pass := r.pass + [Lit(t)], cc := r.cc + [Lit(t)]);
      next := next + 1;
      if !cfg.noLineDirectives {
        r := r.(cpp := r.cpp + [Lit("-E")]);
      } else {
        r := r.(cpp := r.cpp + [Lit("-EP")]);
      }
      if !cfg.noconv {
        r := r.(flagCompile := true);
      }
    } else if extInputFile {
      r := r.(pass := r.pass + [Lit(t)], cpp := r.cpp + [Lit(t)]);
      next := next + 1;
      r := r.(cc := r.cc + [ConvertedRef]);
    } else if IsDefine(t) {
      if IsD(t) && next + 1 < |ts| {
        r := r.(pass := r.pass + [Lit(t)], cpp := r.cpp + [Lit(t)]);
        next := next + 1;
      }
      r := r.(pass := r.pass + [Lit(ts[next])], cpp := r.cpp + [Lit(ts[next])]);
      next := next + 1;
    } else if IsDepFlag(t) {
      r := r.(pass := r.pass + [Lit(t)], cpp := r.cpp + [Lit(t)]);
      next := next + 1;
      if next < |ts| {
        r := r.(pass := r.pass + [Lit(ts[next])], cpp := r.cpp + [Lit(ts[next])]);
        next := next + 1;
      }
    } else if IsForcedInclude(t) {
      r := r.(pass := r.pass + [Lit(t)], cpp := r.cpp + [Lit(t)]);
      next := next + 1;
    } else {
      r := r.(pass := r.pass + [Lit(t)], cc := r.cc + [Lit(t)], cpp := r.cpp + [Lit(t)]);
      next := next + 1;
    }
  }

  /** The output-flag group of the dispatch: `-Fo`, `-Fi`, `-Fe` (fused or
      separate), `-out`, `-o` and `-FI`. */
  method OutputTurn(ts: seq<string>, i: nat, cfg: Config, st: Scan) returns (r: Scan)
    requires i < |ts| && IsOutputFlag(ts[i])
    ensures r == Record(st, Dispatch(ts, i, cfg))
  {
    var t := ts[i];
    ghost var e: Emit;
    r := st;
    if TakesSeparateName(t) && i + 1 < |ts| {
      e := Emit([], [FoRef(t, ts[i + 1])], [FoRef(t, ts[i + 1])], i + 2, Some(ts[i + 1]), Some(Joined(t, ts[i + 1])), None, true, false);
      assert Dispatch(ts, i, cfg) == e;
      r := r.(fo := if IsOut(t) then "-out:" + ts[i + 1] else t + ts[i + 1]);
      r := r.(outname := Some(ts[i + 1]));
      r := r.(cc := r.cc + [FoRef(t, ts[i + 1])], pass := r.pass + [FoRef(t, ts[i + 1])]);
    } else if IsFI(t) && i + 1 < |ts| {
      e := Emit([FiRef(t, ts[i + 1])], [], [FiRef(t, ts[i + 1])], i + 2, None, None, Some(t + ts[i + 1]), true, false);
      assert Dispatch(ts, i, cfg) == e;
      r := r.(fi := t + ts[i + 1]);
      r := r.(cpp := r.cpp + [FiRef(t, ts[i + 1])], pass := r.pass + [FiRef(t, ts[i + 1])]);
    } else if IsOutputPrefix(t) {
      e := Emit([], [Lit(t)], [Lit(t)], i + 1, Some(t[3..]), None, None, true, false);
      assert Dispatch(ts, i, cfg) == e;
      r := r.(cc := r.cc + [Lit(t)], pass := r.pass + [Lit(t)]);
      r := r.(outname := Some(t[3..]));
    } else if i + 1 < |ts| {
      e := Emit([], [Lit(t), Lit(ts[i + 1])], [Lit(t), Lit(ts[i + 1])], i + 2, Some(ts[i + 1]), None, None, true, false);
      assert Dispatch(ts, i, cfg) == e;
      r := r.(pass := r.pass + [Lit(t)], cc := r.cc + [Lit(t)]);
      r := r.(outname := Some(ts[i + 1]));
      r := r.(pass := r.pass + [Lit(ts[i + 1])], cc := r.cc + [Lit(ts[i + 1])]);
    } else {
      e := Emit([], [Lit(t)], [Lit(t)], i + 1, None, None, None, true, false);
      assert Dispatch(ts, i, cfg) == e;
      r := r.(pass := r.pass + [Lit(t)], cc := r.cc + [Lit(t)]);
    }
    hide Dispatch;
    RecordOutput(st, e, r);
    r := r.(temp1 := Preprocessed(r.outname), temp2 := Converted(r.outname));
  }

  /** Recording an output flag's outcome, field by field: the entries
      appended, the name and the buffers updated, and then the temp files
      renamed after the output name. */
  lemma RecordOutput(st: Scan, e: Emit, r: Scan)
    requires e.rename && !e.compile
    requires r.cpp == st.cpp + e.cpp && r.cc == st.cc + e.cc && r.pass == st.pass + e.pass
    requires r.outname == (if e.name.Some? then e.name else st.outname)
    requires r.sourceFile == st.sourceFile && r.flagCompile == st.flagCompile
    requires r.fo == (if e.fo.Some? then e.fo.value else st.fo)
    requires r.fi == (if e.fi.Some? then e.fi.value else st.fi)
    ensures r.(temp1 := Preprocessed(r.outname), temp2 := Converted(r.outname)) == Record(st, e)
  {
  }

  /** The classifier loop of main, from index start to the end of the
      tokens, from the pid-named temp files and empty vectors. */
  method Classify(ts: seq<string>, start: nat, cfg: Config, pid: string) returns (r: Scan)
    requires start <= |ts|
    ensures r == ScanFrom(ts, start, cfg, Initial(pid))
  {
    r := Scan([], [], [], None, None, false, "preprocessed_" + pid + ".c", "converted_" + pid + ".c", "", "");
    var i := start;
    while i < |ts|
      invariant start <= i <= |ts|
      invariant ScanFrom(ts, i, cfg, r) == ScanFrom(ts, start, cfg, Initial(pid))
      decreases |ts| - i
    {
      Unroll(ts, i, cfg, r);
      r, i := Turn(ts, i, cfg, r);
    }
    Unroll(ts, i, cfg, r);
  }
}
