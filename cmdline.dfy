/** create_cmdline: the single command-line string handed to the platform
    launcher for an argument vector. */
module Cmdline {

  /** A token as it appears on the command line: in double quotes when it
      contains a space, verbatim otherwise. */
  function Quote(t: string): string
  {
    if ' ' in t then "\"" + t + "\"" else t
  }

  /** The command line for ts: the quoted tokens separated by one space. */
  function JoinArgs(ts: seq<string>): string
  {
    if |ts| == 0 then ""
    else if |ts| == 1 then Quote(ts[0])
    else JoinArgs(ts[..|ts| - 1]) + " " + Quote(ts[|ts| - 1])
  }

  /** The sum of the token lengths. */
  function TotalLength(ts: seq<string>): nat
  {
    if ts == [] then 0 else TotalLength(ts[..|ts| - 1]) + |ts[|ts| - 1]|
  }

  lemma {:induction false} TotalLengthPrefix(ts: seq<string>, i: nat)
    requires i <= |ts|
    ensures TotalLength(ts[..i]) <= TotalLength(ts)
    decreases |ts|
  {
    if i < |ts| {
      assert ts[..|ts| - 1][..i] == ts[..i];
      TotalLengthPrefix(ts[..|ts| - 1], i);
    } else {
      assert ts[..i] == ts;
    }
  }

  /** How many tokens contain a space (and are therefore quoted). */
  function QuotedCount(ts: seq<string>): nat
  {
    if ts == [] then 0 else QuotedCount(ts[..|ts| - 1]) + (if ' ' in ts[|ts| - 1] then 1 else 0)
  }

  /** The length of the command line: every character of every token, two
      quotes per token with a space, and one separator between neighbours. */
  lemma {:induction false} JoinArgsLength(ts: seq<string>)
    requires ts != []
    ensures |JoinArgs(ts)| == TotalLength(ts) + 2 * QuotedCount(ts) + |ts| - 1
  {
    if |ts| > 1 {
      JoinArgsLength(ts[..|ts| - 1]);
      assert ts[..|ts| - 1][..|ts| - 2] == ts[..|ts| - 2];
    } else {
      assert ts[..0] == [];
    }
  }

  /** The command line neither starts nor ends with a space when the first and
      last tokens are non-empty: separators sit only between tokens. */
  lemma {:induction false} JoinArgsNoOuterSpace(ts: seq<string>)
    requires ts != [] && ts[0] != [] && ts[|ts| - 1] != []
    ensures JoinArgs(ts) != [] && JoinArgs(ts)[0] != ' ' && JoinArgs(ts)[|JoinArgs(ts)| - 1] != ' '
  {
    if |ts| == 1 {
    } else {
      var init := ts[..|ts| - 1];
      assert init[0] == ts[0];
      if |init| > 1 {
        assert init[|init| - 1] == ts[|ts| - 2];
        JoinArgsLeadingChar(init);
      }
    }
  }

  /** The first character of a command line is that of its first quoted token. */
  lemma {:induction false} JoinArgsLeadingChar(ts: seq<string>)
    requires ts != [] && ts[0] != []
    ensures JoinArgs(ts) != [] && JoinArgs(ts)[0] == Quote(ts[0])[0]
  {
    if |ts| > 1 {
      var init := ts[..|ts| - 1];
      assert init[0] == ts[0];
      JoinArgsLeadingChar(init);
    }
  }

  /** A reference reader for such command lines: a space outside quotes ends
      a token, a double quote toggles quoting and is dropped. */
  function SplitFrom(s: string, inQuote: bool, cur: string, acc: seq<string>): seq<string>
    decreases |s|
  {
    if s == [] then acc + [cur]
    else if s[0] == '"' then SplitFrom(s[1..], !inQuote, cur, acc)
    else if s[0] == ' ' && !inQuote then SplitFrom(s[1..], false, [], acc + [cur])
    else SplitFrom(s[1..], inQuote, cur + [s[0]], acc)
  }

  function SplitArgs(s: string): seq<string>
  {
    SplitFrom(s, false, [], [])
  }

  lemma {:induction false} SplitPlainRun(t: string, inQuote: bool, r: string, cur: string, acc: seq<string>)
    requires '"' !in t && (inQuote || ' ' !in t)
    ensures SplitFrom(t + r, inQuote, cur, acc) == SplitFrom(r, inQuote, cur + t, acc)
    decreases |t|
  {
    if t == [] {
      assert t + r == r && cur + t == cur;
    } else {
      assert (t + r)[0] == t[0] && (t + r)[1..] == t[1..] + r;
      SplitPlainRun(t[1..], inQuote, r, cur + [t[0]], acc);
      assert cur + [t[0]] + t[1..] == cur + t;
    }
  }

  lemma SplitQuoted(t: string, r: string, cur: string, acc: seq<string>)
    requires '"' !in t
    ensures SplitFrom(Quote(t) + r, false, cur, acc) == SplitFrom(r, false, cur + t, acc)
  {
    if ' ' in t {
      var s := "\"" + t + "\"" + r;
      assert Quote(t) + r == s;
      assert s[0] == '"' && s[1..] == t + ("\"" + r);
      SplitPlainRun(t, true, "\"" + r, cur, acc);
      var q := "\"" + r;
      assert q[0] == '"' && q[1..] == r;
    } else {
      SplitPlainRun(t, false, r, cur, acc);
    }
  }

  lemma {:induction false} SplitJoined(ts: seq<string>, r: string, acc: seq<string>)
    requires ts != [] && forall k :: 0 <= k < |ts| ==> '"' !in ts[k]
    ensures SplitFrom(JoinArgs(ts) + r, false, [], acc) ==
            SplitFrom(r, false, ts[|ts| - 1], acc + ts[..|ts| - 1])
  {
    if |ts| == 1 {
      SplitQuoted(ts[0], r, [], acc);
      assert [] + ts[0] == ts[0];
      assert acc + ts[..0] == acc;
    } else {
      var init := ts[..|ts| - 1];
      var t := ts[|ts| - 1];
      var rest := " " + Quote(t) + r;
      assert JoinArgs(ts) + r == JoinArgs(init) + rest;
      SplitJoined(init, rest, acc);
      assert rest[0] == ' ' && rest[1..] == Quote(t) + r;
      SplitQuoted(t, r, [], acc + init[..|init| - 1] + [init[|init| - 1]]);
      assert [] + t == t;
      assert init[..|init| - 1] + [init[|init| - 1]] == init;
      assert acc + init[..|init| - 1] + [init[|init| - 1]] == acc + ts[..|ts| - 1];
    }
  }

  /** Reading the command line back gives the tokens, as long as there is at
      least one token and none contains a double quote (empty tokens and
      tokens with spaces included). */
  lemma JoinArgsRoundTrip(ts: seq<string>)
    requires ts != [] && forall k :: 0 <= k < |ts| ==> '"' !in ts[k]
    ensures SplitArgs(JoinArgs(ts)) == ts
  {
    hide *;
    var init, last := ts[..|ts| - 1], ts[|ts| - 1];
    SplitJoined(ts, "", []);
    assert JoinArgs(ts) + "" == JoinArgs(ts);
    assert [] + init == init;
    SplitAtEnd(last, init);
    assert init + [last] == ts;
    SplitArgsStart(JoinArgs(ts));
  }

  /** The end of the text ends the last token. */
  lemma SplitAtEnd(cur: string, acc: seq<string>)
    ensures SplitFrom("", false, cur, acc) == acc + [cur]
  {
  }

  /** The reader starts outside quotes with no token begun. */
  lemma SplitArgsStart(s: string)
    ensures SplitArgs(s) == SplitFrom(s, false, [], [])
  {
  }

  /** One more token adds its length to the running sum, which stays
      within the total. */
  lemma TotalLengthStep(ts: seq<string>, i: nat)
    requires i < |ts|
    ensures TotalLength(ts[..i + 1]) == TotalLength(ts[..i]) + |ts[i]|
    ensures TotalLength(ts[..i + 1]) <= TotalLength(ts)
  {
    assert ts[..i + 1][..i] == ts[..i];
    TotalLengthPrefix(ts, i + 1);
  }

  /** One more token extends the command line by a separator (unless it is
      the first) and the quoted token. */
  lemma JoinArgsStep(ts: seq<string>, i: nat)
    requires i < |ts|
    ensures JoinArgs(ts[..i + 1]) == (if i == 0 then "" else JoinArgs(ts[..i]) + " ") + Quote(ts[i])
  {
    var p := ts[..i + 1];
    assert p[..|p| - 1] == ts[..i] && p[|p| - 1] == ts[i];
    if i == 0 {
      assert "" + Quote(ts[i]) == Quote(ts[i]);
    }
  }

  /** The text written for the tokens before i, with the separator that
      follows them, extended by token i's quoted form. */
  lemma WrittenStep(ts: seq<string>, i: nat, written: string)
    requires i < |ts| && written == JoinArgs(ts[..i]) + (if 0 < i then " " else "")
    ensures written + Quote(ts[i]) == JoinArgs(ts[..i + 1])
  {
    JoinArgsStep(ts, i);
  }

  /** The inner loop of create_cmdline: whether t holds a space. */
  method ContainsSpace(t: string) returns (containsSpace: bool)
    ensures containsSpace <==> ' ' in t
  {
    containsSpace := false;
    var j := 0;
    while j < |t| && !containsSpace
      invariant 0 <= j <= |t|
      invariant containsSpace <==> ' ' in t[..j]
    {
      if t[j] == ' ' {
        containsSpace := true;
      }
      assert t[..j + 1] == t[..j] + [t[j]];
      j := j + 1;
    }
    assert !containsSpace ==> t[..j] == t;
  }

  /** strcpy of t to position pos of out. */
  method CopyInto(out: array<char>, pos: nat, t: string)
    requires pos + |t| <= out.Length
    modifies out
    ensures out[..pos + |t|] == old(out[..pos]) + t
  {
    var k := 0;
    while k < |t|
      invariant 0 <= k <= |t|
      invariant out[..pos + k] == old(out[..pos]) + t[..k]
    {
      out[pos + k] := t[k];
      assert out[..pos + k + 1] == out[..pos + k] + [t[k]];
      assert t[..k + 1] == t[..k] + [t[k]];
      k := k + 1;
    }
    assert t[..k] == t;
  }

  /** out[pos++] = c. */
  method WriteChar(out: array<char>, pos: nat, c: char)
    requires pos < out.Length
    modifies out
    ensures out[..pos + 1] == old(out[..pos]) + [c]
  {
    out[pos] := c;
    assert out[..pos + 1] == out[..pos] + [c];
  }

  /** One token's share of create_cmdline: the opening quote, the token, the
      closing quote, each written at pos and advancing it. */
  method EmitToken(out: array<char>, pos: nat, t: string) returns (next: nat)
    requires pos + |t| + 2 <= out.Length
    modifies out
    ensures next == pos + |Quote(t)| <= pos + |t| + 2
    ensures out[..next] == old(out[..pos]) + Quote(t)
  {
    var containsSpace := ContainsSpace(t);
    if containsSpace {
      ghost var before := out[..pos];
      hide *;
      WriteChar(out, pos, '"');
      CopyInto(out, pos + 1, t);
      WriteChar(out, pos + 1 + |t|, '"');
      next := pos + 2 + |t|;
      QuotedAppend(before, t);
    } else {
      assert Quote(t) == t;
      hide *;
      CopyInto(out, pos, t);
      next := pos + |t|;
    }
  }

  /** The quoted form of a token with a space, written after some text. */
  lemma QuotedAppend(before: string, t: string)
    requires ' ' in t
    ensures before + ['"'] + t + ['"'] == before + Quote(t)
  {
  }

  /** The first loop of create_cmdline: the sum of the token lengths. */
  method SumLengths(argv: seq<string>) returns (len: nat)
    ensures len == TotalLength(argv)
  {
    len := 0;
    var i := 0;
    while i < |argv|
      invariant 0 <= i <= |argv|
      invariant len == TotalLength(argv[..i])
    {
      hide TotalLength;
      TotalLengthStep(argv, i);
      len := len + |argv[i]|;
      i := i + 1;
    }
    assert argv[..i] == argv;
  }

  /** The second loop of create_cmdline: each token written at pos, quoted
      when it has a space, followed by a space when another token follows.
      The buffer has room for every token, its quotes and its separator. */
  method WriteTokens(out: array<char>, argv: seq<string>) returns (pos: nat)
    requires TotalLength(argv) + 3 * |argv| < out.Length
    modifies out
    ensures pos < out.Length
    ensures out[..pos] == JoinArgs(argv)
  {
    pos := 0;
    var i := 0;
    while i < |argv|
      invariant 0 <= i <= |argv|
      invariant TotalLength(argv[..i]) <= TotalLength(argv)
      invariant pos + (TotalLength(argv) - TotalLength(argv[..i])) + 3 * (|argv| - i) < out.Length
      invariant out[..pos] == JoinArgs(argv[..i]) + (if 0 < i < |argv| then " " else "")
    {
      hide *;
      TotalLengthStep(argv, i);
      ghost var before := out[..pos];
      pos := EmitToken(out, pos, argv[i]);
      WrittenStep(argv, i, before);
      if i + 1 < |argv| {
        ghost var written := out[..pos];
        out[pos] := ' ';
        assert out[..pos + 1] == written + " ";
        pos := pos + 1;
      }
      i := i + 1;
    }
    assert argv[..i] == argv;
  }

  /** create_cmdline: sums the token lengths, allocates the buffer, writes
      the tokens and terminates the buffer. */
  method CreateCmdline(argv: seq<string>) returns (cmd: string)
    ensures cmd == JoinArgs(argv)
  {
    var len := SumLengths(argv);
    var out := new char[len + 4 * |argv| + 10];
    var pos := WriteTokens(out, argv);
    out[pos] := '\0';
    cmd := out[..pos];
  }
}
