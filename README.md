# compilewrap, modelled in Dafny

`compilewrap` stands in front of a C compiler driver (`cl`, `icl` or a
gcc-style driver). It looks through the driver's arguments for a compile
of a C source with a named output. When it finds one, it runs three
commands instead of one:

- the preprocessor, with `-E`, into a temporary file;
- the `c99conv` converter, which turns the C99 text into C89;
- the compiler, on the converted file.

Afterwards it removes its temporary files. Any other invocation is passed
on to the driver, token by token, except that a separate output or
force-include name (`-Fo X`, `-Fi X`, `-Fe X`, `-out X`, `-FI X`) is joined to
its flag in one token. In the current version the bitness probe runs first
in either case.

The repository holds two versions of the wrapper:

- `src/main/compilewrap.c`, the current one;
- `compilewrap.c` at the root, the older one.

This project models both, along with the byte-level helpers the current
version uses on the text it reads back.

| module | file | what it models |
|---|---|---|
| `Text` | `text.dfy` | byte strings, `strcmp`/`strncmp`, C strings and `strstr` |
| `Flags` | `flags.dfy` | `flagstrcmp` and `flagstrncmp`, where a leading `-` and `/` are interchangeable |
| `Cmdline` | `cmdline.dfy` | `create_cmdline`, as a method over a `char` array and proved against a join function |
| `Encoding` | `encoding.dfy` | `utf16le_to_utf8` (two counting loops over an output array) and `read_file` with its byte-order-mark branch |
| `Elision` | `elision.dfy` | `remove_string`, in place on an array with `memmove`, and the four removals main applies to the preprocessed text |
| `FrontEnd` | `frontend.dfy` | the start of main: wrapper flags, driver dialect, the converter's path, the CR/LF cut of a response file, and the response-file splice |
| `Classifier` | `classifier.dfy` | the argument loop of main, as a `Classify` method proved against a scan function |
| `Effects` | `effects.dfy` | the effects both mains have on the world (commands run, files removed, files rewritten) and views of them |
| `Driver` | `driver.dfy` | the current main as a whole, as a specification function and a method proved equal to it |
| `Legacy` | `legacy.dfy` | the older main, modelled in the same way |

Processes, files and the environment appear as a `World` value. It holds:

- each command's exit code;
- what the bitness probe and the preprocessor wrote;
- the contents of a response file;
- the shell-style tokenizer;
- the process id as text;
- the two environment overrides, as booleans.

A run of main is an exit code plus the ordered list of its effects.

## Model

| member | source | states |
|---|---|---|
| Text.Find | src/main/compilewrap.c:474-486 | `strstr` from a cursor: the first occurrence at or after it, with none between the cursor and that occurrence; None when there is none at or after the cursor |
| Flags.FlagStrCmp | src/main/compilewrap.c:229-237 | zero exactly when the strings are equal, or when one starts with `-`, the other with `/`, and the rest is equal |
| Flags.FlagStrNCmp | src/main/compilewrap.c:241-249 | zero exactly when the first num characters agree, or when the leads are `-` and `/` (in either order) and the next num-1 characters agree |
| Flags.FlagStrCmpSymmetric | src/main/compilewrap.c:229-249 | both comparisons give zero for (a, b) exactly when they do for (b, a) |
| Flags.IsFlagSpellings | src/main/compilewrap.c:229-237 | a token matches a `-` flag exactly when it is the flag, or the flag with a `/` lead |
| Flags.HasFlagPrefixSpellings | src/main/compilewrap.c:241-249 | a token has an n-character `-` flag prefix exactly when its first n characters are the prefix, or the prefix with a `/` lead |
| Flags.IsFlagCanon | src/main/compilewrap.c:229-237 | matching a `-` flag is the same as equality after a leading `/` is rewritten to `-` |
| Flags.HasFlagPrefixCanon | src/main/compilewrap.c:241-249 | the prefix test is the same as comparing the rewritten token's first n characters |
| Cmdline.CreateCmdline | src/main/compilewrap.c:45-79 | the two loops (sum the lengths, then write each token with a space before the next) produce exactly the join of the tokens; the older file's copy (compilewrap.c:34-68) is the same code |
| Cmdline.ContainsSpace | src/main/compilewrap.c:57-61 | true exactly when the token has a space |
| Cmdline.EmitToken | src/main/compilewrap.c:63-70 | writes the token after pos, in double quotes when it has a space, leaves everything before pos as it was, and returns the position after it |
| Cmdline.CopyInto | src/main/compilewrap.c:66-67 | `strcpy` at pos: the buffer up to pos followed by the token |
| Cmdline.JoinArgsLength | src/main/compilewrap.c:56-76 | the length is the sum of the token lengths, plus 2 per quoted token, plus n-1 separators |
| Cmdline.JoinArgsNoOuterSpace | src/main/compilewrap.c:56-76 | if the first and last tokens are nonempty, the line neither starts nor ends with a space |
| Cmdline.JoinArgsLeadingChar | src/main/compilewrap.c:56-76 | the line starts with the first token's first character, or with a quote if that token is quoted |
| Cmdline.JoinArgsRoundTrip | src/main/compilewrap.c:56-76 | splitting the line on unquoted spaces, keeping empty words, gives back exactly the tokens, as long as none of them contains a double quote |
| Encoding.Units | src/main/compilewrap.c:367-372 | the 16-bit little-endian units, ceil(len/2) of them; an odd trailing byte pairs with the NUL terminator |
| Encoding.UnitsAt | src/main/compilewrap.c:369-371 | unit k is 256 times byte 2k+1 plus byte 2k (high byte shifted over low byte) |
| Encoding.EncodeUnit | src/main/compilewrap.c:391-401 | 1, 2 or 3 bytes, split at 0x80 and 0x800, following the `0xxxxxxx` / `110xxxxx 10xxxxxx` / `1110xxxx 10xxxxxx 10xxxxxx` patterns |
| Encoding.EncodeLength | src/main/compilewrap.c:368-378 | the output length is the sum of the unit widths, between n and 3n; it equals n exactly when every unit is below 0x80 |
| Encoding.EncodeAppend | src/main/compilewrap.c:388-402 | encoding is unit by unit: the encoding of a concatenation is the concatenation of the encodings |
| Encoding.DecodeEncode | src/main/compilewrap.c:388-402 | an independent decoder gets back every 16-bit unit, so the encoding loses nothing |
| Encoding.WriteUnit | src/main/compilewrap.c:391-401 | writes one unit's bytes at pos and returns the position after them |
| Encoding.Utf8Length | src/main/compilewrap.c:367-379 | the first loop counts exactly the length of the encoding |
| Encoding.Utf16LeToUtf8 | src/main/compilewrap.c:362-409 | the returned buffer is the encoding of the input's units, followed by NUL |
| Encoding.EncodeLengthMono | src/main/compilewrap.c:387-402 | encoding a prefix never takes more room than the whole encoding |
| Encoding.ReadFileBom | src/main/compilewrap.c:424-438 | for a nonempty file, a byte-order mark means only the bytes after it are converted (they decode back to the units after it); without one the bytes come back as they are |
| Encoding.ReadFile | src/main/compilewrap.c:412-444 | null exactly when the file is missing or empty (allocation is taken to succeed); otherwise the content, or its UTF-16 conversion, followed by NUL |
| Elision.SplicedNoOccurrence | src/main/compilewrap.c:472-489 | with no occurrence the text stays the same |
| Elision.SplicedPlainPrefix | src/main/compilewrap.c:472-489 | bytes before the first occurrence are untouched |
| Elision.ElidedIsSpliced | src/main/compilewrap.c:480-487 | the loop that resumes at the cursor computes the one-pass splice of the text after the start |
| Elision.ElidedStep | src/main/compilewrap.c:480-487 | one iteration: cut the occurrence that `strstr` found, then resume at the same cursor |
| Elision.SplicedSameLength | src/main/compilewrap.c:472-489 | the size stays the same exactly when there is no occurrence, exactly when the text is unchanged |
| Elision.SplicedShorter | src/main/compilewrap.c:472-489 | any occurrence makes the text strictly shorter |
| Elision.SplicedSinglePass | src/main/compilewrap.c:486 | removal is not idempotent: backslash, backslash, LF, LF loses one line continuation and leaves a new one behind |
| Elision.CutAt | src/main/compilewrap.c:484 | the `memmove` closes the gap of sz bytes at k and keeps the NUL; the bytes past the old text are unchanged |
| Elision.RemoveString | src/main/compilewrap.c:472-489 | initial size is strlen+1, final size is the spliced text's length+1, the buffer holds the spliced text and NUL, and bytes past the original text are untouched |
| Elision.NormalizedChangedIffShorter | src/main/compilewrap.c:769-776 | after the four removals the text is never longer, and its size is unchanged exactly when the text is unchanged |
| Elision.NormalizedPlainText | src/main/compilewrap.c:763-773 | a text with no backslash and no `#` is left as it is |
| Elision.NormalizeBuffer | src/main/compilewrap.c:763-776 | applies the four removals in the order backslash CR LF, backslash LF, `#pragma once` CR LF, `#pragma once` LF; asks for a write-back exactly when the text changed |
| FrontEnd.FirstOther | src/main/compilewrap.c:539-546 | the first index from i that is not `-keep`/`-noconv`, with every token before it being one of them |
| FrontEnd.StripFlags | src/main/compilewrap.c:539-546 | the loop stops at that index; keep is the environment's value or a `-keep` among the stripped tokens, and noconv is a `-noconv` among them |
| FrontEnd.DriverNames | src/main/compilewrap.c:554-560 | `cl` matches the whole token or `cl.`-anything, and likewise `icl`; no token matches both |
| FrontEnd.ConverterOptions | src/main/compilewrap.c:554-560 | the converter option is `-ms` exactly for `cl` and empty otherwise, so `icl` gets none |
| FrontEnd.LastIndexOf | src/main/compilewrap.c:529-531 | `strrchr`: an index holding c with no c after it; None exactly when c does not occur |
| FrontEnd.ConvTool | src/main/compilewrap.c:510-537 | `c99conv` preceded by argv[0]'s prefix up to its last backslash, else its last `/`, else nothing |
| FrontEnd.ResponseLine | src/main/compilewrap.c:262-267 | the response text up to its first NUL, CR or LF: a prefix free of all three |
| FrontEnd.TruncateAtNewline | src/main/compilewrap.c:262-267 | writing NUL over the first CR, and then over the first LF, leaves exactly that prefix as the C string |
| FrontEnd.Prepare | src/main/compilewrap.c:539-586 | when main goes on, the classifier's start index is in range and points at the driver token that follows the wrapper flags |
| FrontEnd.WrapperFlags | src/main/compilewrap.c:539-560 | main stops exactly when keep and noconv are both set, whatever their order; otherwise both flags and the dialect are kept |
| FrontEnd.ResponseSplice | src/main/compilewrap.c:562-586 | if the last token is `@file` and the file reads back, the tokens become the driver followed by the file's tokens (cut at CR/LF), classified from 0; otherwise they are argv, classified from the driver |
| Classifier.WholeFlagTests | src/main/compilewrap.c:626-706 | the character tests for `-c`, `-o`, `-out`, `-FI` and `-D` are exactly the `flagstrcmp` tests main makes |
| Classifier.OutputFlagTests | src/main/compilewrap.c:629-630 | the separate-name test is exactly the `flagstrcmp` test for `-Fo`/`-out`/`-Fi`/`-Fe` |
| Classifier.OutputPrefixTests | src/main/compilewrap.c:625 | the fused-name test is exactly the `flagstrncmp` test for `-Fo`/`-Fi`/`-Fe` over 3 characters |
| Classifier.PreprocessorFlagTests | src/main/compilewrap.c:697-715 | the `-MMD`/`-D…`, `-MF`/`-MT` and `-FI…` tests are exactly main's comparisons |
| Classifier.Dispatch | src/main/compilewrap.c:609-727 | each turn uses up one or two tokens and stays in range; it sets the compile flag exactly for `-c` without -noconv |
| Classifier.DispatchPass | src/main/compilewrap.c:609-727 | the pass vector gets exactly the tokens the turn used up, in order |
| Classifier.Routing | src/main/compilewrap.c:613-726 | the dispatch table: separate `-Fo`/`-Fi`/`-Fe`/`-out X` becomes one shared-buffer token in cc and pass with outname X; separate `-FI X` becomes a joined token in cpp and pass; fused `-FoX` sets outname to the rest after 3 characters; `-o X` goes to cc and pass; `-c` goes to cc and pass and gives cpp `-E` (or `-EP`); a source or object file goes to cpp and pass with the converted temp in cc; `-D X`/`-MF X`/`-MT X` go to cpp and pass, taking the next token only if there is one; `-MMD`/`-D…`/`-FI…` go to cpp and pass; everything else goes to all three |
| Classifier.Step | src/main/compilewrap.c:609-727 | the index moves by the tokens used; the compile flag accumulates; the source file is the token when its extension is `.c`/`.s`/`.S`, and this check runs before flag dispatch |
| Classifier.DispatchNames | src/main/compilewrap.c:625-678 | a turn names an output exactly when it is an output flag with a name available; a turn renames the temp files exactly when its token is an output flag (`-Fo…`/`-Fi…`/`-Fe…`, `-out`, `-o`, `-FI`), whether or not it names an output |
| Classifier.StepNamesOutput | src/main/compilewrap.c:674-678 | once the output is named, the temp files stay `<outname>_preprocessed.c` and `<outname>_converted.c` |
| Classifier.PassKeepsEveryToken | src/main/compilewrap.c:609-727 | the pass entries are made from every token from the start, in order (a separate `-Fo X` pair gives one joined entry) |
| Classifier.CompileFlagSeen | src/main/compilewrap.c:680-691 | flag_compile is set exactly when some turn starts at a `-c` and noconv is off |
| Classifier.SourceFileSeen | src/main/compilewrap.c:613-619 | source_file is the last `.c`/`.s`/`.S` token at which a turn starts, or stays unchanged when there is none |
| Classifier.OutputNameSeen | src/main/compilewrap.c:629-678 | an outname exists exactly when some turn names an output, and the temp names then follow it |
| Classifier.ResolveAll | src/main/compilewrap.c:641-696 | each entry is resolved against the final contents of the shared buffers, and the length is kept |
| Classifier.PassthroughVerbatim | src/main/compilewrap.c:733-736 | when no shared buffer is involved, the passthrough command is exactly the tokens from the driver on |
| Classifier.ConvertedIsNamedTemp | src/main/compilewrap.c:674-696 | once an output is named, every converted-temp entry of cc resolves to `<outname>_converted.c`, even one written before the name |
| Classifier.PlainTurn | src/main/compilewrap.c:719-726 | a plain token goes to all three vectors |
| Classifier.CompileTurn | src/main/compilewrap.c:680-691 | `-c` goes to cc and pass, gives cpp `-E` (or `-EP`) and sets the compile flag unless noconv |
| Classifier.SourceTurn | src/main/compilewrap.c:692-696 | a source token goes to cpp and pass, puts the converted temp in cc and becomes the source file |
| Classifier.OutputTurnO | src/main/compilewrap.c:661-678 | `-o X` goes to cc and pass, sets outname X and renames both temps |
| Classifier.SeparateNameTurn | src/main/compilewrap.c:629-644 | separate `-Fo X` becomes one shared-buffer entry in cc and pass, sets outname X and the buffer, and renames the temps |
| Classifier.CompileInvocation | src/main/compilewrap.c:609-727 | `driver -c src.c -o out` gives cpp `driver -E src.c`, cc `driver -c out_converted.c -o out`, and pass unchanged |
| Classifier.SharedOutputBuffer | src/main/compilewrap.c:635-642 | two separate output flags both come out as the last joined value, because they share one buffer |
| Classifier.Turn | src/main/compilewrap.c:610-726 | one iteration of the loop body gives the state and the index that Dispatch describes |
| Classifier.OutputTurn | src/main/compilewrap.c:625-678 | the output-flag branch of the loop body, against the same description |
| Classifier.Classify | src/main/compilewrap.c:607-727 | the loop from the start index computes the scan of all remaining tokens |
| Effects.Collapse | src/main/compilewrap.c:812 | the exit code is 0 or 1, and 0 exactly when the last code is 0 |
| Effects.ViewsAppend | src/main/compilewrap.c:733-802 | the commands, removals and write-backs of consecutive effect lists add up |
| Effects.CompilerViews | src/main/compilewrap.c:796-802 | the compile step runs cc only, and removes both temps unless keep |
| Driver.Bitness | src/main/compilewrap.c:602-604 | `-32` exactly when the probe output reads back and contains `80x86`, else `-64` |
| Driver.ConverterHead | src/main/compilewrap.c:778-780 | the converter command begins with three entries: tool, options and bitness |
| Driver.CompileWrap | src/main/compilewrap.c:491-813 | the exit code is 0 or 1; main does nothing exactly when the front end refuses `-keep` with `-noconv`, and then returns 1 |
| Driver.PassthroughOnly | src/main/compilewrap.c:733-739 | without compile flag, source file and output name, only the pass command runs, nothing is removed and its code is returned |
| Driver.StagesFailFast | src/main/compilewrap.c:741-802 | preprocess → convert → compile, where the first failure stops the run; an unreadable preprocessed file also stops it; the result is 0 exactly when all stages succeed |
| Driver.StagesStopEarly | src/main/compilewrap.c:742-761 | on preprocessor failure only temp1 is removed (unless keep); an unreadable output removes nothing; either way the code is nonzero |
| Driver.StagesAfterRead | src/main/compilewrap.c:758-802 | after a good read, converter and compiler run in turn, both temps are removed unless keep, and the code is the converter's failure or else the compiler's |
| Driver.StagesCleanup | src/main/compilewrap.c:742-802 | the files removed: none with keep or passthrough; temp1 after a preprocessor failure; none after an unreadable output; otherwise both temps |
| Driver.CleanupOrder | src/main/compilewrap.c:796-802 | when the converter succeeds, temp1 is removed before the compiler runs and temp2 after it |
| Driver.StagesWriteBack | src/main/compilewrap.c:769-776 | the preprocessed file is rewritten exactly when the four removals shortened it, and then with the normalized text |
| Driver.WrapViews | src/main/compilewrap.c:595-605 | the probe runs first with its output sent to `bitness_<pid>.c`, which is then removed; the rest is the stages, and the code is collapsed |
| Driver.ConflictExits | src/main/compilewrap.c:548-552 | the run is `Outcome(1, [])` exactly when keep (environment or flag) and noconv are both set |
| Driver.PassthroughIsInvocation | src/main/compilewrap.c:733-736 | when no separate `-Fo/-Fi/-Fe/-out/-FI X` was joined into one entry, a passthrough runs the probe and then the invocation's own tokens from the driver on; 0 exactly when that command succeeds |
| Driver.ConverterCommand | src/main/compilewrap.c:778-785 | the converter's command is `[conv_tool, -ms or "", -32/-64, <out>_preprocessed.c, <out>_converted.c]` |
| Driver.ExitCode | src/main/compilewrap.c:733-812 | main returns 0 exactly when every stage it ran succeeded (including the read-back), or, for a passthrough, when pass succeeded |
| Driver.TempFilesRemoved | src/main/compilewrap.c:742-802 | with keep only the probe file is removed; without keep, after a good preprocess and read-back, the probe file and both named temps are removed |
| Driver.RunStages | src/main/compilewrap.c:733-802 | the imperative stage sequence produces exactly the outcome the stage function describes |
| Driver.RunAfterPreprocess | src/main/compilewrap.c:758-802 | read-back, in-place normalization, conditional write-back, converter and compiler, as the function describes |
| Driver.PrepareInvocation | src/main/compilewrap.c:539-586 | flag stripping, dialect detection, reading the response file and cutting at CR/LF give exactly the front end's result |
| Driver.ReadResponse | src/main/compilewrap.c:563-575 | a last argument starting with `@` names a response file; when it is read, its text up to the first CR or LF is split and the arguments become the compiler name followed by those tokens, scanned from index 0; otherwise the arguments and the start index are unchanged |
| Driver.ProbeBitness | src/main/compilewrap.c:602-604 | reads the probe output and searches it for `80x86`, giving Bitness |
| Driver.Wrap | src/main/compilewrap.c:491-813 | the whole of main, front end to exit code, produces exactly the outcome CompileWrap describes |
| Legacy.CompileAlwaysE | compilewrap.c:494-502 | here `-c` always gives cpp `-E`, goes to cc and pass, and uses up one token |
| Legacy.ReadFile | compilewrap.c:307-324 | null exactly when the file cannot be opened (allocation is taken to succeed); otherwise its bytes as they are, followed by NUL, with an empty file allowed |
| Legacy.CompileWrap | compilewrap.c:346-594 | the exit code is 0 or 1; main does nothing exactly when `-keep` and `-noconv` are refused together |
| Legacy.StagesFailFast | compilewrap.c:555-586 | preprocess → convert → compile, where the first failure stops the run; 0 exactly when all stages succeed |
| Legacy.StagesAfterPreprocess | compilewrap.c:563-586 | after preprocessing, the converter runs and then, if it succeeded, the compiler; both temps are removed unless keep |
| Legacy.StagesCleanup | compilewrap.c:548-586 | the files removed: none with keep or passthrough; temp1 after a preprocessor failure; otherwise both temps |
| Legacy.ConflictExits | compilewrap.c:385-389 | the run is `Outcome(1, [])` exactly when `-keep` and `-noconv` were both stripped |
| Legacy.PassthroughIsInvocation | compilewrap.c:548-553 | when no separate `-Fo/-Fi/-Fe/-out/-FI X` was joined into one entry, a passthrough runs only the invocation's own tokens from the driver on, removes nothing, and gives 0 exactly when that command succeeds |
| Legacy.ConverterCommand | compilewrap.c:563-569 | the converter's command has exactly four entries, `[conv_tool, -ms or "", <out>_preprocessed.c, <out>_converted.c]`, with no bitness |
| Legacy.ExitCode | compilewrap.c:548-593 | main returns 0 exactly when every stage it ran succeeded, or, for a passthrough, when pass succeeded |
| Legacy.RunStages | compilewrap.c:548-586 | the imperative stage sequence produces exactly the outcome the stage function describes |
| Legacy.PrepareInvocation | compilewrap.c:376-412 | flag stripping, dialect detection and the response-file splice give exactly the front end's result, with no environment override |
| Legacy.ReadResponse | compilewrap.c:398-410 | the same splice in the older main: the file is read raw (no UTF-16 detection), and its text is cut at the first CR or LF and split |
| Legacy.Wrap | compilewrap.c:346-594 | the whole of the older main produces exactly the outcome its CompileWrap describes |

## Left out

- Process spawning (`exec_argv_out`, `CreateProcess`, pipes, `fork`/`execvp`, `system()`, `waitpid`) is OS plumbing. A command is an `Exec` effect. Its exit code is one of the world's answers. The file its standard output goes to is recorded, but nothing is captured.
- `out_0_err_1` is not modelled. The probe's redirection is recorded as a redirection of its standard output.
- The raw `system()` status versus `WEXITSTATUS` is not modelled. The model works only on zero versus nonzero, which is all main uses.
- The shell-style tokenizer (`wordexp`, `CommandLineToArgvW`) is a foreign call. It is the world's `split` function, and its failure is not modelled. Only the CR/LF cut before it is modelled.
- An `Exec` effect's argv is the vector main builds, not the one the child process receives. The child's own reader (the shell behind `system()`, or the C runtime's parsing of the `CreateProcess` line) drops empty tokens, so a non-`cl` driver's empty second converter argument never arrives. The shell also interprets metacharacters in unquoted tokens. `Cmdline.JoinArgsRoundTrip` is stated against a splitter that keeps empty words.
- File I/O (`fopen`/`fread`/`write_file`/`unlink`) is modelled as effects and as file contents given by the world.
- `getenv` plus `strtoll` is modelled as two booleans: C99_TO_C89_WRAP_SAVE_TEMPS set to nonzero, and C99_TO_C89_WRAP_NO_LINE_DIRECTIVES set to nonzero.
- The debug level, `print_argv` and all other printing are debug output only.
- `getpid` is the world's process id, given as text.
- Fixed 2048-byte buffers, `sprintf` overflow and `malloc` sizing are not modelled. Strings are unbounded sequences.
- `malloc` failure (in `read_file` and `utf16le_to_utf8`) is not modelled: allocation always succeeds.
- An argv holding only a program name that starts with `@` is excluded by `Launchable`. The C code would read the driver slot past the last argument.
- In a response-expanded vector, a trailing `-D` makes the C code read one entry past the end. The model takes the separate `-D` only when a next token exists.
- `input_source` and `input_obj` are set but never read, so they are not modelled.
- Surrogate pairs are not combined, exactly as in the C code: every 16-bit unit, a surrogate included, is encoded on its own.
- The current main's normalisation is a fixed sequence of one-pass removals. It is not idempotent (`Elision.SplicedSinglePass` exhibits this), so no idempotence is claimed.
- The behaviour below follows the C code as written:
  - Two separate `-Fo X` style flags both end up as the last joined value.
  - With no output name seen, `sprintf` of a null name gives the glibc text `(null)`.
  - An unreadable or empty preprocessed file makes the current main return 1 without removing temp1.
  - An unchanged normalisation leaves a UTF-16 preprocessed file on disk as it was written.
