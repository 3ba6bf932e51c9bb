# The PCRE 7.8 engine: a Dafny model

This project models the regular-expression engine that the repository ships under
`fscript-CLI/pcre-7.8`, and proves what it is for: that a pattern, compiled to bytecode and
run by `match()`, finds the matches that the pattern means.

The configuration is that of `config.h`: links of two bytes, newline LF, UTF-8 supported,
Unicode properties off, and the default ASCII tables. Except in `Utf8`, `Classes`,
`StartUtf8`, `Units` and `Study` subjects and patterns are strings of bytes.

## How it is organised

*Language and code.* `Pattern` is the abstract syntax of patterns (literals, types, bitmap
classes, anchors, groups, alternation, all quantifiers) with its meaning: the list of the
ways of matching, in the order in which a backtracking matcher should try them. `Code` is
the same for the items of the bytecode, with their bytes (`EncGroup`, `EncProgram`);
`Semantics` gives their ordered ways (`AllGroup`). `Lowering` is what the compiler makes of
a pattern (`Compile`): counted items, copies and nested copies of groups, S brackets,
possessive opcodes, automatic or asked for, and atomic brackets (OP_ONCE) around what has
no possessive opcode.

*The compiler.* `Emit.Compiler` writes the bytes as `compile_regex` and `compile_branch`
do: into one array, with ALT links that are chained backwards and reversed, groups that are
moved up, copied and chained through their links while they are open, and finished items
moved up once more for an atomic bracket. `PreCompile` is the pass that only adds up
lengths. `Scan`, `FirstByte`, `Anchors`, `Lookbehind` and `Study` are the analyses that read
code or pattern. `Classes` collects a character class, `Escape` is `check_escape`, `Names` the
table of group names.

*The matchers.* `Machine` states the steps of `match()` on bytes, with both limits, the
offset vector and the chain of saved subject pointers; `Matcher.MatchData` is the code, which
changes the match block in place and is proved equal to it. `Simulation` and `Correctness`
relate the machine to the ordered ways; `Leftover` does so, up to the order, for patterns on
which the chain of saved pointers goes wrong. `Termination` bounds the calls, and `Traps` and
`Endless` say when there is no bound. `Bumpalong` and `Exec` are the loop of
`pcre_exec` with its shortcuts, as a function and as the code. `Units` gives the places that
items can match in a text of characters, for the study of a pattern in UTF-8 mode. `DfaExec`
is `internal_dfa_exec` on two lists that change places; `StateSet` to `StateMatches` relate it
to the language, and `StateRoom` says how large its workspace must be.

*What items, captures and limits mean.* `OneItem`, `LineEnds`, `ByteTables` and `Quantifiers`
say what `match()` does on patterns of one item, in terms of the lines of the subject, of
listed characters and of how often the item repeats. `Contents` says what captured text is.
`Overflow` compares `match()` with a vector that is too small and with one that is not, and
`Blame` says when `pcre_exec` may report the vector as too small. `Depths` gives the calls and
the depth that nested groups take.

*What the analyses find.* `Anchored`, `KnownBytes` and `StartBytes` say, for patterns as they are
written, when the compiler and `pcre_study` find an anchor, a first byte, a required byte and
a map of starting bytes, so that they are neither wrong nor idle.

*Around the engine.* `Utf8` holds the encoder, the decoding macros and the validator;
`Replace` and `Quote` are `GlobalReplace`, `Rewrite` and `QuoteMeta` of the C++ wrapper;
`Successive` shows that `GlobalReplace` passes over no match.

Classes and methods follow the code where it updates something in place; each is proved
against a function, and the theorems are about the functions. Bitwise operations on disjoint
fields are written as sums, quotients and remainders.

## Conditions of the theorems

The theorems hold for all patterns and subjects, apart from these places where the code
itself falls short. Each has a lemma with an input, and the exact condition where there is
one. `Theorems` puts them together: results about the meaning of compiled code ask for
`Compilable`, results about the answers of `match()` for `Halting`, and the one about which
way it finds for `Usable`.

* `Theorems.Compilable`: the pattern fits the size limits, is `Safe`, and compiles without
  atomic brackets, since `Machine` has no OP_ONCE. (The compiler itself, its length pass and
  `CompilePreserves` have no such restriction.)
* `Preservation.Safe`: no single-character repeat that is made possessive stands before an
  item with the quantifier `{0}`. The compiler looks for `{0,` only
  (`pcre_compile.c:2125`); `PossessIff` shows that this is the only case that goes wrong.
* `Shape.GuardedGroup`, in `Halting`: a repeating bracket that could match empty has the S
  form. Could match empty means `Hollow`, a scan of all branches, and that is exact:
  `Emptiness.GroupConsumesIff`. The scan of the source, which gives the S form, looks at the
  first branch of an S bracket only (`pcre_compile.c:1611`). `ScanMissesIff` says when it is
  wrong about one, `ScanSound` that it misses nothing where every S bracket without a zero
  prefix that could match empty can do so through its first branch, and `ScanMissesPlainS` is
  an example. A bracket that it has missed is a trap: greedy, it is never left on an empty
  subject (`Traps.EntersTrap`). For a pattern that is one group under an unlimited repeat
  `match()` ends by itself on every subject if and only if the scan has not been misled
  (`Endless.OneGroupIff`); `StopsIff` extends this to all patterns whose traps are reached on
  an empty subject, and `NeverEnds` is an example. A trap that is not reached does no harm: the
  pattern `a(?:|(?:(?:a|)+)*)` has one and always ends (`UnguardedEnds`).
* `Emptiness.TameGroup`, in `Usable`: besides, where an S bracket stands inside an S bracket a
  byte is consumed between the two ends, because the chain of saved pointers keeps the blocks
  of the inner one for the rest of the match (`pcre_exec.c:625-630`). `SecondBest.StopsShort`
  gives a pattern and a subject on which `match()` otherwise does not find the first way. It
  still finds one of the ways, and one whenever there is one: `MatchIsSome` asks for `Halting`
  only.
* `Lookbehind.Single`: no repeating ket of a bracket that takes a byte; `find_fixedlength`
  takes it for a plain one. Without anchors the length is exact if and only if this holds
  (`ExactIff`); `RepeatsMiscounted` is the example.
* `pcre_dfa_exec.c` does not look at PCRE_DOLLAR_ENDONLY. `StateMatches.PatternIsLoose` is
  therefore stated without that option, `StateLanguage.DollarIff` says when it matters, and
  `StateMatches.DollarDiffers` gives the inputs.
* `StateLanguage.TalliedGroup`: no repeat of a pattern counts without limit. `internal_dfa_exec`
  counts how often an item under `+` or `{n,}` has matched, and keeps states that differ only
  in this count apart. `StateRoom.PatternFits` gives a workspace that suffices: from the code
  alone where counts are limited, and otherwise from the code and the length of the subject.
* `Classes.Kept`: in a UTF-8 class with `\D` or `\W` the list of ranges is dropped, and with
  it characters below 128 that only a range beyond 255 names. `ClassDenotes` is an
  equivalence; `RangeIsLost` is the class `[0-\x{100}\D]`, which does not accept 5.
* `Quote.Clean`: a zero byte before an octal digit is quoted as `\0` and runs into the digit.
  `QuoteReadsBack` is an equivalence; `ZeroOne` is the example.

Where the documentation and the code differ the model follows the code: `get_first_set` is
described as returning the number of the last group when none is set, and returns that of
the first.

## Model

| member | source | states |
|---|---|---|
| Theorems.MatchIsFirst | fscript-CLI/pcre-7.8/pcre_exec.c:427-780 | match() on the compiled pattern, unless it hits a limit, gives the first of the pattern's ordered ways of matching, with all its captures; with no way it says NOMATCH and leaves the vector as it was |
| Theorems.MatchIsSome | fscript-CLI/pcre-7.8/pcre_exec.c:608-640 | for every halting pattern match(), unless it hits a limit, gives one of the ways of matching with all its captures, and NOMATCH with the vector as it was exactly when there is none; overflow stays as it was where the vector has room for all groups |
| Leftover.WRun | fscript-CLI/pcre-7.8/pcre_exec.c:608-780 | the step lemma of that: from any place of compiled code, with blocks of inner brackets left on the chain, the machine gives some way of the rest, and fails only where everything it may still try has none |
| SecondBest.StopsShort | fscript-CLI/pcre-7.8/pcre_exec.c:625-630 | an iterated choice of b or of an iterated choice of a or nothing, on ab: in the compiled code an S bracket ends where the S bracket around it ends, match() ends at 1, and the first way of the pattern ends at 2 |
| Theorems.MatchTerminates | fscript-CLI/pcre-7.8/pcre_exec.c:1216-1328 | match() ends by itself on every subject, with MATCH or NOMATCH: limits that allow CallBound calls are never hit |
| Theorems.MatchDecides | fscript-CLI/pcre-7.8/pcre_exec.c:427-780 | with limits that high match() decides exactly whether there is a way of matching, and returns one; the first, if the pattern is usable |
| Preservation.CompilePreserves | fscript-CLI/pcre-7.8/pcre_compile.c:3540-4193 | expanding quantifiers into copies, nested copies, zero prefixes, possessive opcodes and atomic brackets keeps the list of ways, in order |
| Preservation.PossessiveWays | fscript-CLI/pcre-7.8/pcre_compile.c:3617-3674 | an unlimited repeat before something that cannot begin with its item has the same ways as its possessive form |
| Preservation.PossessWhen | fscript-CLI/pcre-7.8/pcre_compile.c:2064-2373 | an unlimited repeat is compiled as possessive exactly if the next item is a character or an escape, not optional, and no byte is accepted by both; a dot or a class is never looked at |
| Preservation.PossessIff | fscript-CLI/pcre-7.8/pcre_compile.c:2064-2373 | when check_auto_possessive says yes, the possessive form matches alike in every context exactly if the next item is not removed by {0} |
| Correctness.SimRun | fscript-CLI/pcre-7.8/pcre_exec.c:634-780 | the step lemma of the simulation: from any place of compiled code, the machine gives the first way of the rest of the pattern, and otherwise leaves every slot of groups that are not open |
| Correctness.SimGroupCall | fscript-CLI/pcre-7.8/pcre_exec.c:691-780 | the same for a bracket that is entered, with the saved and restored capture slots |
| Matcher.MatchData.Match | fscript-CLI/pcre-7.8/pcre_exec.c:427-640 | the loop over the code, with its call counts and in-place vector, computes exactly Machine.Call |
| Matcher.MatchData.BracketStep | fscript-CLI/pcre-7.8/pcre_exec.c:691-780 | opening brackets: the working slot, the branches in order, the restored slots |
| Matcher.MatchData.KetStep | fscript-CLI/pcre-7.8/pcre_exec.c:1183-1328 | closing kets: the popped pointer, the recorded pair, the empty-iteration test, the order of going on and going round |
| Matcher.MatchData.RepeatStep | fscript-CLI/pcre-7.8/pcre_exec.c:2220-2472 | repeated single items: minimum, then lazy, greedy or possessive |
| LineEnds.SplitJoins | fscript-CLI/pcre-7.8/pcre_exec.c:1330-1415 | the lines of a subject: none holds a newline, and joined by newlines they are the subject |
| LineEnds.Circumflex | fscript-CLI/pcre-7.8/pcre_exec.c:1333-1353 | match() on the pattern ^: it holds at the start of the subject, under PCRE_MULTILINE at the start of every line but an empty last one behind a newline, and not at the start of the subject under PCRE_NOTBOL |
| LineEnds.Dollar | fscript-CLI/pcre-7.8/pcre_exec.c:1366-1410 | match() on the pattern $: at the end of every line under PCRE_MULTILINE, otherwise at the end of the subject or, unless PCRE_DOLLAR_ENDONLY is set, before a newline that ends it; not at the end of the subject under PCRE_NOTEOL |
| LineEnds.SubjectEnds | fscript-CLI/pcre-7.8/pcre_exec.c:1347-1410 | \A, \z and \Z hold at the start, at the end, and at the end or before a newline that ends the subject, under all options |
| ByteTables.TypesTake | fscript-CLI/pcre-7.8/pcre_exec.c:1457-1552 | match() on a lone type takes exactly the listed digits, spaces, word characters, their complements, all but the newline, or everything |
| ByteTables.LiteralTakes | fscript-CLI/pcre-7.8/pcre_exec.c:2146-2215 | match() on a lone literal takes that byte, and in caseless mode the other case of a letter |
| ByteTables.NotTakes | fscript-CLI/pcre-7.8/pcre_exec.c:2477-2515 | and on a negated one every byte but these |
| ByteTables.ClassTakes | fscript-CLI/pcre-7.8/pcre_exec.c:1879-2020 | match() on a class whose map has the bits of a set takes the bytes of the set, every one in its place |
| Overflow.MatchIsCut | fscript-CLI/pcre-7.8/pcre_exec.c:1248-1265 | match() with a vector that may be too small, from unset captures: what it reports is cut from a way of matching with room for all groups, the first if the pattern is usable, and if that way sets a group that has no room, overflow is set |
| Overflow.CallAlike | fscript-CLI/pcre-7.8/pcre_exec.c:691-780 | the step lemma of that: a call with the small vector and one with the full vector go the same way and agree on all groups that have room, and until the flag is set no group without room is |
| Overflow.SearchIsCut | fscript-CLI/pcre-7.8/pcre_exec.c:4677-4970 | the same for the search over all starts, each of which begins with unset captures |
| Blame.MatchBlames | fscript-CLI/pcre-7.8/pcre_exec.c:1255-1262 | match() sets overflow only if a state of pcre_dfa_exec from the same start reaches the ket of a group that has no room |
| Blame.CallBlames | fscript-CLI/pcre-7.8/pcre_exec.c:608-640 | the step lemma of that: from any place of the code that a state reaches, match() goes only to places that states reach |
| Depths.NestedLimits | fscript-CLI/pcre-7.8/pcre_exec.c:608-612 | match() on k groups inside one another takes k + 2 calls and goes as deep as there are groups that have room: it ends by a limit exactly if one of them is lower, with the error of the limit that is reached first, and that of the calls if both are reached together |
| Quantifiers.RepeatEnds | fscript-CLI/pcre-7.8/pcre_exec.c:2220-2472 | match() on a repeated item, alone or in a group, with any quantifier: it fails below the minimum, a lazy repeat takes the minimum, a greedy or possessive one takes as many as there are or may be, and under PCRE_NOTEMPTY at least one |
| Contents.WayHeld | fscript-CLI/pcre-7.8/pcre_exec.c:1248-1265 | along a way of matching every pair that changes holds text which one iteration of a group of that number matches, and where more groups are counted the last one is set |
| Contents.WayShown | fscript-CLI/pcre-7.8/pcre_exec.c:4939-4970 | so the value returned is one more than the number of the last group that is set |
| Captures.MatchCaptures | fscript-CLI/pcre-7.8/pcre_exec.c:1248-1265 | after a match of any halting pattern every pair is unset or lies within the match, start before end, below the reported top |
| Captures.GroupFollows | fscript-CLI/pcre-7.8/pcre_exec.c:691-731 | a way through a bracket changes only the pairs of its own groups, and sets them within itself |
| Limits.CallRaised | fscript-CLI/pcre-7.8/pcre_exec.c:396-424 | a call of match() that hit no limit has the same code, state and captures under any higher limits |
| Limits.RunRaised | fscript-CLI/pcre-7.8/pcre_exec.c:608-640 | the same for a run from any opcode: every negative code passes unchanged through all callers |
| Bumpalong.SearchRaised | fscript-CLI/pcre-7.8/pcre_exec.c:4842-4885 | the same for the loop over all starts: result, start, captures and call count |
| Bumpalong.ExecRaised | fscript-CLI/pcre-7.8/pcre_exec.c:4842-4970 | so raising both limits changes neither the value nor the offsets of pcre_exec, unless the value was a limit code |
| Termination.TRun | fscript-CLI/pcre-7.8/pcre_exec.c:1216-1328 | from any place that the invariant allows, the calls stay within a cost computed from the rest of the pattern and of the subject |
| Emptiness.ConsumesIff | fscript-CLI/pcre-7.8/pcre_compile.c:1577-1754 | items consume a byte in every way, on every subject and under all options, exactly if a scan of all their branches finds one that is mandatory |
| Emptiness.GroupConsumesIff | fscript-CLI/pcre-7.8/pcre_compile.c:4107-4126 | the same for a bracket: what the S form ought to be given for |
| Emptiness.ScanSound | fscript-CLI/pcre-7.8/pcre_compile.c:1577-1754 | the scan of could_be_empty_branch misses nothing that could match empty, where every S bracket without a zero prefix that could match empty can do so through its first branch |
| Emptiness.ScanMissesIff | fscript-CLI/pcre-7.8/pcre_compile.c:1611-1629 | about an S bracket without a zero prefix, and what follows it, the scan is wrong exactly if they could match empty but not through the first branch of the bracket |
| Emptiness.ScanExact | fscript-CLI/pcre-7.8/pcre_compile.c:1577-1754 | where S brackets follow zero prefixes the scan answers exactly whether the items could match empty |
| Emptiness.ScanMissesPlainS | fscript-CLI/pcre-7.8/pcre_compile.c:1611-1629 | an S bracket without its zero prefix, with the alternatives a and nothing, is called non-empty and matches empty at the end of every subject |
| Traps.EntersTrap | fscript-CLI/pcre-7.8/pcre_exec.c:1248-1328 | a run that enters a greedy repeating bracket which could match empty and has not the S form, on an empty subject and whatever follows, hits a limit |
| Traps.DRun | fscript-CLI/pcre-7.8/pcre_exec.c:608-640 | the step lemma of that: on an empty subject, from any place of compiled code from which no match can come, there is none, and where what is left leads into such a bracket only a limit ends the run |
| Endless.OneGroupIff | fscript-CLI/pcre-7.8/pcre_exec.c:1216-1328 | a pattern that is one group under an unlimited repeat, with guarded contents: match() ends by itself on every subject if and only if the scan sees the contents as possibly empty when they are (for lazy repeats, under PCRE_NOTEMPTY) |
| Endless.StopsIff | fscript-CLI/pcre-7.8/pcre_exec.c:1216-1328 | the same equivalence for every pattern that has no such bracket, or in which one is reached on an empty subject and no match is to be had there |
| Endless.NeverEnds | fscript-CLI/pcre-7.8/pcre_exec.c:1248-1328 | the star of such a bracket: its pattern, its bytes, and that match() on the empty subject hits a limit, whatever the limits and options |
| Endless.UnguardedEnds | fscript-CLI/pcre-7.8/pcre_exec.c:731-780 | a pattern that holds such a bracket, behind an alternative that always matches, and on which match() ends by itself on every subject |
| Scan.CouldBeEmptyBranch | fscript-CLI/pcre-7.8/pcre_compile.c:1577-1754 | the scan over the bytes of a branch answers as the property on its items does |
| Emit.CompilePattern | fscript-CLI/pcre-7.8/pcre_compile.c:6126-6262 | both passes, for every pattern: it compiles exactly if its code, with the single items that {0} removes, takes no more than 65536 bytes; then the bytes are those of the compiled form, with the number of groups |
| Emit.Compiler.CompileRegex | fscript-CLI/pcre-7.8/pcre_compile.c:5451-5686 | the alternatives of a bracket are written with their links forward and the ket's link back, and nothing before them changes |
| Emit.Compiler.ReverseLinks | fscript-CLI/pcre-7.8/pcre_compile.c:5609-5628 | the chain of ALT links that was built backwards is turned round in place |
| Emit.Compiler.CompileItem | fscript-CLI/pcre-7.8/pcre_compile.c:2403-2550 | one item with its quantifier leaves exactly the bytes of its compiled form |
| Emit.Compiler.Possessify | fscript-CLI/pcre-7.8/pcre_compile.c:4129-4193 | a + after a quantifier turns the last repeat opcode into its possessive form, or puts an atomic bracket around what was repeated; an exact minimum stays |
| Emit.Compiler.Wrap | fscript-CLI/pcre-7.8/pcre_compile.c:4183-4191 | the bytes are moved up in place, and opened and closed by OP_ONCE and a ket with their links |
| Emit.Compiler.RepeatGroup | fscript-CLI/pcre-7.8/pcre_compile.c:3924-4127 | a quantified group: removed, moved up, copied and nested as its quantifier says |
| Emit.Compiler.Replicate | fscript-CLI/pcre-7.8/pcre_compile.c:3982-4020 | the copies for the minimum, byte for byte |
| Emit.Compiler.OpenCopy | fscript-CLI/pcre-7.8/pcre_compile.c:4022-4070 | an optional copy inside the one before, its bracket left open on the chain |
| Emit.Compiler.CloseNested | fscript-CLI/pcre-7.8/pcre_compile.c:4071-4093 | closing the chain of open brackets gives each its two links |
| Emit.Compiler.Unbounded | fscript-CLI/pcre-7.8/pcre_compile.c:4095-4127 | the last copy gets a repeating ket, and the S form if an iteration could be empty |
| Forest.CompiledSound | fscript-CLI/pcre-7.8/pcre_compile.c:5670-5681 | in compiled code, at every depth, the links of a bracket and of its ALTs lead to one ket and the ket's link back to the bracket |
| PreCompile.LengthSuffices | fscript-CLI/pcre-7.8/pcre_compile.c:2500-2549 | for every pattern pass 1 counts exactly the bytes that pass 2 emits, with replicated groups, possessive groups and classes, but for the single items that {0} removes: their bytes are counted besides, as often as the groups around them are written |
| PreCompile.GroupLen | fscript-CLI/pcre-7.8/pcre_compile.c:3984-4193 | the length counted for a group and its quantifier is that of its copies, and what is counted too much in the group is counted once for every copy |
| PreCompile.Measure | fscript-CLI/pcre-7.8/pcre_compile.c:6126-6175 | pass 1, with its discarding work space, computes PreLength |
| PreCompile.PrePass.Repeat | fscript-CLI/pcre-7.8/pcre_compile.c:3982-4047 | the lengths of replicated groups are added without writing them |
| Exec.Search | fscript-CLI/pcre-7.8/pcre_exec.c:4677-4915 | the bumpalong loop with all its shortcuts finds a match of the leftmost start that has one (the first way there, if the pattern is usable), every start before it has none, and NOMATCH means that none has; it computes Bumpalong.SearchFrom |
| Exec.PcreExec | fscript-CLI/pcre-7.8/pcre_exec.c:4677-4970 | the returned count and offsets are those of a way at the leftmost start (of the first, if the pattern is usable), the count being 0 only where the vector has no room for all groups, and always where the way that is reported, taken with room for all groups, sets one that has none, and only where from a start that was tried such a group can be closed; any other value is one more than the number of the last group set, and every pair of a group holds text that the group matches; NOMATCH means that no start has a way, and then the vector is unset for all groups of the pattern and otherwise as before; the value and the offsets are those of Bumpalong.Exec |
| Exec.Advance | fscript-CLI/pcre-7.8/pcre_exec.c:4715-4770 | the skips to a first byte, a line start or a byte of the study map pass over no match |
| Exec.ReqMissing | fscript-CLI/pcre-7.8/pcre_exec.c:4776-4838 | when the cached search for the required byte gives up there is no match from here on |
| Exec.Analyse | fscript-CLI/pcre-7.8/pcre_compile.c:6302-6334 | anchoring, start of line, first and required byte of the pattern as pcre_compile2 stores them |
| Exec.PcreStudy | fscript-CLI/pcre-7.8/pcre_study.c:507-587 | a map that is handed out contains the first byte of every match, and no match is empty; it is handed out exactly if the pattern has neither anchor nor first byte and the scan finds something mandatory, and holds exactly the bytes of the items that the scan has seen |
| StartBytes.EachBegins | fscript-CLI/pcre-7.8/pcre_study.c:107-484 | where nothing is possessive or an anchor, every byte of the map begins a match of some subject |
| Study.SetStartBits | fscript-CLI/pcre-7.8/pcre_study.c:107-484 | in byte and in UTF-8 mode, SSB_DONE: every match of the bracket begins with a byte whose bit is set; SSB_CONTINUE: every one that is not empty; what is found and which bits are set is exactly what the items up to the first mandatory one say |
| Study.Utf8Starts | fscript-CLI/pcre-7.8/pcre_study.c:107-484 | on the bytes of a UTF-8 subject: after SSB_DONE the byte at which a match of the whole bracket begins has its bit set, with classes, prefixes, branches and groups |
| StartUtf8.SetClassUtf8 | fscript-CLI/pcre-7.8/pcre_study.c:409-450 | the bits set for a class in UTF-8 mode, including the two bytes that start 128 to 255 and those from 0xc4 on |
| StartUtf8.StartsSound | fscript-CLI/pcre-7.8/pcre_study.c:409-450 | every character that such a class accepts begins with a byte whose bit is set |
| FirstByte.ByteScan.Group | fscript-CLI/pcre-7.8/pcre_compile.c:5539-5578 | the first and required bytes of alternatives, merged in place, are those of the specification |
| KnownBytes.OpensIff | fscript-CLI/pcre-7.8/pcre_compile.c:5319-5397 | the first byte of a branch is known exactly if it begins, behind anchors that do not match at every line, with that literal, repeated at least once, or with a group of such branches |
| KnownBytes.OpensGroupIff | fscript-CLI/pcre-7.8/pcre_compile.c:5539-5578 | the same for alternatives, which must all begin with it |
| KnownBytes.LastRequired | fscript-CLI/pcre-7.8/pcre_compile.c:5367-5397 | a branch that ends with a literal, with an item before it, requires that byte |
| FirstByte.GroupObeys | fscript-CLI/pcre-7.8/pcre_compile.c:5114-5147 | every way through a group begins with its first byte and contains its required byte, behind the first one |
| FirstByte.BranchKeeps | fscript-CLI/pcre-7.8/pcre_compile.c:5367-5397 | the same along a branch |
| Anchors.IsAnchored | fscript-CLI/pcre-7.8/pcre_compile.c:5729-5795 | the scan over the code finds out whether every branch begins with an anchor or .* under DOTALL |
| Anchors.IsStartline | fscript-CLI/pcre-7.8/pcre_compile.c:5797-5853 | the same for ^ and .* |
| Anchored.LeadingIff | fscript-CLI/pcre-7.8/pcre_compile.c:5729-5853 | on a compiled pattern both scans say yes exactly if every branch, as written, begins with such an item or with a group of such branches that is mandatory, not possessive, and under + does not seem empty |
| Anchors.GroupSlides | fscript-CLI/pcre-7.8/pcre_compile.c:5729-5853 | a match of such a pattern that begins inside a line could have begun one byte earlier |
| Leftmost.SlideRules | fscript-CLI/pcre-7.8/pcre_exec.c:4729-4760 | so a start may be passed over when the one before has no match |
| Leftmost.FirstRules | fscript-CLI/pcre-7.8/pcre_exec.c:4715-4725 | without the first byte there is no match |
| Leftmost.ReqRules | fscript-CLI/pcre-7.8/pcre_exec.c:4776-4838 | without the required byte behind the start there is no match |
| Lookbehind.FindFixedLength | fscript-CLI/pcre-7.8/pcre_compile.c:1183-1353 | the scan over the code gives the fixed length of the branches, or that they have none |
| Lookbehind.FixedIsExact | fscript-CLI/pcre-7.8/pcre_compile.c:1183-1353 | a branch of fixed length in which no bracket that takes a byte repeats consumes exactly that much in every way |
| Lookbehind.ExactIff | fscript-CLI/pcre-7.8/pcre_compile.c:1183-1353 | without anchors it does so exactly if no such bracket repeats |
| Lookbehind.NoneIff | fscript-CLI/pcre-7.8/pcre_compile.c:1183-1353 | without anchors, and where no such bracket repeats, there is no fixed length exactly if an item is of a kind that the scan gives up on, or texts of two lengths match |
| Lookbehind.LookbehindExact | fscript-CLI/pcre-7.8/pcre_exec.c:904-978 | stepping back by the fixed length and matching succeeds exactly when some text that ends here matches, and ends here |
| Lookbehind.RepeatsMiscounted | fscript-CLI/pcre-7.8/pcre_compile.c:1215-1222 | (?:a)+ is given the length 1 and can match two bytes |
| DfaExec.MatchAll | fscript-CLI/pcre-7.8/pcre_dfa_exec.c:282-560 | unless the workspace is full, the end of every way of matching from this start is found, each once, the vector shows the longest ones, longest first, and the value is -1 for none, their number while the vector has room behind them, and otherwise 0; the workspace is never full when it has the size that PatternFits gives |
| StateRoom.PatternFits | fscript-CLI/pcre-7.8/pcre_dfa_exec.c:233-276 | a workspace that suffices on every subject, computed from the code alone: the states it can tell apart, times one more than its length, where no repeat counts beyond m; and for every pattern one computed from the code and the length of the subject |
| StateRoom.RoomIff | fscript-CLI/pcre-7.8/pcre_dfa_exec.c:233-276 | with less room the run is the same exactly if none of its lists, at any character, is longer than that, and otherwise the error is the full workspace |
| StatePaths.ReachedTallied | fscript-CLI/pcre-7.8/pcre_dfa_exec.c:1894-1990 | no state that is reached counts further than the repeats of the pattern allow |
| DfaExec.StateScan.Exec | fscript-CLI/pcre-7.8/pcre_dfa_exec.c:451-560 | the loop over the subject with its two lists computes StateRun.Run: its error codes, its ends, and the offsets |
| DfaExec.StateScan.Record | fscript-CLI/pcre-7.8/pcre_dfa_exec.c:626-648 | a new match moves the earlier ones up; the count becomes 0 when the vector is full, and the rest of the vector keeps its values |
| DfaExec.StateScan.Act | fscript-CLI/pcre-7.8/pcre_dfa_exec.c:616-930 | one state adds exactly its moves to the two lists, or reports the full list or the unsupported opcode |
| DfaExec.StateScan.Repeated | fscript-CLI/pcre-7.8/pcre_dfa_exec.c:1894-2075 | the repeats, with the possessive ones taking back the state they have just added |
| DfaExec.StateScan.ClassItem | fscript-CLI/pcre-7.8/pcre_dfa_exec.c:2078-2156 | classes and their repeats |
| StateMatches.PatternIsExact | fscript-CLI/pcre-7.8/pcre_dfa_exec.c:451-560 | the ends found are exactly those of the ways of matching, in ascending order; where PCRE_DOLLAR_ENDONLY makes no difference |
| StateMatches.PatternIsLoose | fscript-CLI/pcre-7.8/pcre_dfa_exec.c:756-767 | for every compilable pattern they are those of the ways of matching without that option |
| StateMatches.ExecEndIsFound | fscript-CLI/pcre-7.8/pcre_dfa_exec.c:616-650 | for every halting pattern the end that match() reports from the same start is among them, and there are none when it reports NOMATCH |
| StateMatches.DollarDiffers | fscript-CLI/pcre-7.8/pcre_dfa_exec.c:756-767 | the pattern $ before a last newline, under that option: found here, not by match() |
| StateLanguage.DollarIff | fscript-CLI/pcre-7.8/pcre_dfa_exec.c:756-767 | on which subjects the two engines agree about $ |
| StatePaths.ReachedIff | fscript-CLI/pcre-7.8/pcre_dfa_exec.c:616-699 | the end of the pattern can be reached through the moves of states exactly at the ends of matches |
| StatePaths.ReachedSupported | fscript-CLI/pcre-7.8/pcre_dfa_exec.c:2430-2431 | no state that is reached stands on an unsupported opcode |
| StateRun.RunRoom | fscript-CLI/pcre-7.8/pcre_dfa_exec.c:233-276 | a larger workspace changes nothing but the complaint about it |
| StateRun.PathFound | fscript-CLI/pcre-7.8/pcre_dfa_exec.c:546-556 | passing over duplicates loses no match |
| Classes.ClassDenotes | fscript-CLI/pcre-7.8/pcre_compile.c:2766-3513 | the emitted item, whatever its form, accepts exactly the characters of its set, in byte and UTF-8 mode, with and without case: if and only if no character is lost with a dropped list |
| ByteTables.NamedIff | fscript-CLI/pcre-7.8/pcre_compile.c:2880-3370 | the set that an item of a class names: a character or range, in caseless mode the letters whose other case it holds, and for \d \D \w \W the listed bytes or all other characters |
| Classes.MostAreKept | fscript-CLI/pcre-7.8/pcre_compile.c:3471-3495 | none is lost in byte mode, without case, or without a range beyond 255 |
| Classes.RangeIsLost | fscript-CLI/pcre-7.8/pcre_compile.c:3282-3300 | [0-\x{100}\D] in UTF-8 mode does not accept 5 |
| Classes.CompileClass | fscript-CLI/pcre-7.8/pcre_compile.c:2766-3513 | the collecting loop and the choice of the form; a range out of order is error 8 |
| Classes.ClassBuilder.Add | fscript-CLI/pcre-7.8/pcre_compile.c:2880-3370 | one item of a class: its bits, its list entries, its counts |
| Classes.XClass | fscript-CLI/pcre-7.8/pcre_xclass.c:67-145 | the test on encoded data finds exactly what the map and the list hold, negated or not |
| Classes.XDataReads | fscript-CLI/pcre-7.8/pcre_xclass.c:67-145 | data built from a map and a list are well formed and read back as that map and list |
| Utf8.DecodeEncode | fscript-CLI/pcre-7.8/pcre_internal.h:396-470 | decoding inverts encoding on 0 to 0x7fffffff, wherever the code stands (section 2 of RFC 2279) |
| Utf8.EncodeDecode | fscript-CLI/pcre-7.8/pcre_ord2utf8.c:65-85 | a well-formed character is the encoding of what it decodes to, a scalar value |
| Utf8.Ord2Utf8 | fscript-CLI/pcre-7.8/pcre_ord2utf8.c:65-85 | the buffer, filled backwards, holds the encoding, and nothing else in it changes |
| Utf8.GetCharInc | fscript-CLI/pcre-7.8/pcre_internal.h:432-446 | the shifting loop computes the decoded value and the next position |
| Utf8.ValidUtf8 | fscript-CLI/pcre-7.8/pcre_valid_utf8.c:77-163 | -1 exactly for the octet strings of section 4 of RFC 3629; otherwise the offset of a byte of the first thing that is not a character |
| Utf8.EncodeIsValid | fscript-CLI/pcre-7.8/pcre_valid_utf8.c:96-150 | an encoding is accepted exactly when the value is at most 0x10ffff and no surrogate |
| Utf8.BackChar | fscript-CLI/pcre-7.8/pcre_internal.h:480-487 | BACKCHAR stops at the nearest byte that continues no character |
| Utf8.BackUndoes | fscript-CLI/pcre-7.8/pcre_internal.h:480-487 | on an accepted string that is the first byte of the character, so it undoes a step forward |
| Names.NameTable.Add | fscript-CLI/pcre-7.8/pcre_compile.c:4618-4654 | the entry is inserted in its place and the others keep their order; a second use of a name without DUPNAMES is the error, and changes nothing |
| Names.InsertOrdered | fscript-CLI/pcre-7.8/pcre_compile.c:4618-4654 | insertion keeps the table ordered by name and number, and loses nothing |
| Names.NameTable.GetStringNumber | fscript-CLI/pcre-7.8/pcre_get.c:68-99 | the binary chop finds a number of the name exactly if the name was defined, and the only one when names are distinct |
| Names.NameTable.GetStringTableEntries | fscript-CLI/pcre-7.8/pcre_get.c:121-168 | the range found is exactly the set of entries of the name |
| Names.NameTable.GetFirstSet | fscript-CLI/pcre-7.8/pcre_get.c:186-203 | the lowest group of that name that is set, or the lowest of all |
| Replace.GlobalReplace | fscript-CLI/pcre-7.8/pcrecpp.cc:380-439 | the new text is the pieces of the old one, kept or rewritten, in order; the count is that of the matches; it ends for every matcher whose matches lie in the text |
| Successive.NonePassedOver | fscript-CLI/pcre-7.8/pcrecpp.cc:380-439 | for a search that finds the first match at or after its start, the matches rewritten are exactly the successive ones: each is the first from the end of the one before, other than an empty one there or one inside the character there, and none is left after the last |
| Successive.OneList | fscript-CLI/pcre-7.8/pcrecpp.cc:380-439 | there is one such list only |
| Successive.AfterIsNext | fscript-CLI/pcre-7.8/pcrecpp.cc:398-418 | after an empty match the search goes on at the next character boundary: CR LF is one where that is a newline, and bytes that continue a UTF-8 character begin none |
| Successive.KeptHoldsNone | fscript-CLI/pcre-7.8/pcrecpp.cc:395-425 | no match begins at a boundary strictly inside a copied piece |
| Replace.PiecesCover | fscript-CLI/pcre-7.8/pcrecpp.cc:380-439 | the pieces cover the text without gap or overlap, and no match is empty where the one before it ended |
| Replace.ReplaceByWhole | fscript-CLI/pcre-7.8/pcrecpp.cc:380-439 | rewriting every match as \0 changes nothing |
| Replace.Rewrite | fscript-CLI/pcre-7.8/pcrecpp.cc:590-619 | the text appended for a rewrite string, up to its first mistake |
| Replace.PartsRead | fscript-CLI/pcre-7.8/pcrecpp.cc:590-619 | a list of parts, written down, is read back part by part: \0 to \9 add the text of their groups, nothing where the group took no part, a doubled backslash adds one, any other byte itself |
| Replace.RewriteParts | fscript-CLI/pcre-7.8/pcrecpp.cc:590-619 | every rewrite string without a mistake is such a list, and the output is what its parts add |
| Replace.MistakeReads | fscript-CLI/pcre-7.8/pcrecpp.cc:594-614 | the mistakes: a backslash at the end or before anything but a digit or a backslash, or before the number of a group that there is not |
| Escape.Check | fscript-CLI/pcre-7.8/pcre_compile.c:487-760 | check_escape: the loop over the pattern computes the data character, special escape or error of Escape.CheckEscape |
| Escape.EscapeFits | fscript-CLI/pcre-7.8/pcre_compile.c:487-760 | a data character is a byte and every sequence ends inside the pattern; only a digit 8 or 9 is left to be read again |
| Escape.HexReads | fscript-CLI/pcre-7.8/pcre_compile.c:675-727 | \xhh is the byte hh, whatever follows |
| Escape.OctalReads | fscript-CLI/pcre-7.8/pcre_compile.c:617-673 | \ddd is the byte with these octal digits, in a class, below \100, or when the pattern has fewer than 100 groups |
| Escape.ReferenceReads | fscript-CLI/pcre-7.8/pcre_compile.c:539-615 | \g{n} refers to group n and \g{-n} to the n-th before, error 15 if there are not so many |
| Escape.BackReads | fscript-CLI/pcre-7.8/pcre_compile.c:617-673 | outside a class a decimal number is a reference to that group, if it is one digit or there are so many groups |
| Escape.BracedReads | fscript-CLI/pcre-7.8/pcre_compile.c:675-727 | \x{hh} is the byte hh, whatever follows |
| Escape.BracedTooLong | fscript-CLI/pcre-7.8/pcre_compile.c:675-727 | with three or more digits that count it is error 34 |
| Escape.GroupReads | fscript-CLI/pcre-7.8/pcre_compile.c:539-615 | \g with < or ' is a call, \g{ with a name a reference by name, without a number error 58 and without the closing brace error 57 |
| Escape.SpecialReads | fscript-CLI/pcre-7.8/pcre_compile.c:102-116 | the special escapes letter by letter, with their codes |
| Escape.ControlLetterReads | fscript-CLI/pcre-7.8/pcre_compile.c:102-116 | \a \e \f \n \r \t are 7, 27, 12, 10, 13 and 9 |
| Escape.OtherReads | fscript-CLI/pcre-7.8/pcre_compile.c:516-535 | \l \L \N \u \U are error 37; other letters without a meaning are themselves, or error 3 in PCRE_EXTRA mode; what is no letter and no digit is itself |
| Escape.NothingReads | fscript-CLI/pcre-7.8/pcre_compile.c:500-504 | a backslash at the end of a pattern is error 1 |
| Escape.ControlReads | fscript-CLI/pcre-7.8/pcre_compile.c:729-745 | \c and a letter of either case is the control character of that number, with other characters bit 64 changes, and at the end it is error 2 |
| Quote.QuoteMeta | fscript-CLI/pcre-7.8/pcrecpp.cc:452-484 | the quoted string |
| Quote.KeptIff | fscript-CLI/pcre-7.8/pcrecpp.cc:466-480 | only the listed letters, digits, the underscore and the bytes from 128 on are left as they are; a zero byte becomes \0, every other one gets a backslash |
| Quote.QuotedOctets | fscript-CLI/pcre-7.8/pcrecpp.cc:472-475 | a quoted string is well-formed UTF-8 (section 4 of RFC 3629) exactly if the string is |
| Quote.Literals | fscript-CLI/pcre-7.8/pcre_compile.c:5319-5360 | the literal characters that compile_branch takes from a pattern, and whether there is anything else |
| Quote.MetaIff | fscript-CLI/pcre-7.8/pcre_compile.c:2588-2712 | outside extended mode a byte other than a backslash is no literal exactly if it is a listed metacharacter or opens a counted repeat |
| Quote.CountedReads | fscript-CLI/pcre-7.8/pcre_compile.c:882-900 | {n}, {n,} and {n,m} are counted repeats, whatever follows; what does not begin with a digit is none |
| Quote.QuoteReadsBack | fscript-CLI/pcre-7.8/pcrecpp.cc:452-484 | a quoted string reads back as its own characters in order, exactly if no zero byte stands before an octal digit |
| Quote.NoZeroReadsBack | fscript-CLI/pcre-7.8/pcrecpp.cc:452-484 | so it does for every string without a zero byte |
| Quote.ZeroOne | fscript-CLI/pcre-7.8/pcrecpp.cc:464-466 | a zero byte and the digit 1 read back as the byte 1 |
| Quote.QuotedMatchesItself | fscript-CLI/pcre-7.8/pcrecpp.h:617-626 | the code of those literals, for every string that fits the size limit: match() finds that string, and nothing else of its length |

## Left out

- Theorems.MatchIsFirst: asks for `TameGroup`, which is enough and not exact: where nothing is consumed between the ends of two S brackets, one inside the other, a given subject may still be matched in the right order. For all those patterns there is `MatchIsSome`.
- Endless.StopsIff: is not about patterns whose traps are reached only after a byte, or only where a match is to be had; `UnguardedEnds` shows that they may end.
- Names.NameTable.Add: group numbers grow from call to call, as they do in a pattern without duplicate group numbers.
- Replace.Rewrite: a backslash at the very end of the rewrite string, behind which the source reads one byte, counts as a mistake.
- Quote.QuotedMatchesItself: is about caseful matching in byte mode; in caseless mode the pattern matches other cases too.
- Study.SetStartBits: is about groups numbered below 256 (the scan takes the number of a capturing S bracket for an opcode, gives up there, and the model does the same) and, in UTF-8 mode, about literals below 128: the item of a longer literal holds several bytes, and items have one.
- Lookbehind.LookbehindExact: OP_REVERSE and the ket of an assertion are defined on the items (`Behind`); they are not steps of `Machine`.
- Lookbehind.ExactIff: is about items without anchors. An anchor inside a repeating bracket may keep it from matching twice, and then the length is exact although the bracket repeats.
- Matcher.MatchData.Match: the ordered ways of `MatchIsFirst` and `MatchIsSome` drop captures that do not fit in the vector; `Overflow.MatchIsCut` has them all. The length of the vector is a multiple of three.
- Exec.PcreExec: says where the value must be 0 and where it cannot be: in between lie the starts from which a group without room can be closed but is not part of the way reported; the flag stays set when a way that was given up has closed one.
- StartBytes.EachBegins: is about patterns without anchors and possessive repeats, also those that the compiler makes possessive.
- KnownBytes.LastRequired: is about the last item of a single branch; required bytes that come from groups or alternatives are covered by `GroupObeys` only.
- StateRoom.PatternFits: the size it gives suffices and is not the least.
- Lookbehind.NoneIff: is about items without anchors, as `ExactIff` is.
- DfaExec.StateScan.Exec: the unanchored loop of pcre_dfa_exec around it, restarting, partial matching and PCRE_DFA_SHORTEST; the two halves of the workspace are two arrays.
- Classes.ClassBuilder.Add: `\s` in a class, which clears VT even when it is named, POSIX names, `\h \H \v \V`, and `\Q...\E` inside a class.
- Escape.Check: integer overflow of digits, and UTF-8 mode.
- Reading the text of a pattern, apart from escapes and literals: patterns are given as abstract syntax. A class of one character is given as a literal. The quantifier `{0}` of a next item stands for its text.
- OP_ONCE as a step of match() and of pcre_dfa_exec, and in find_fixedlength, is_anchored, is_startline and set_start_bits: possessive quantifiers on groups and classes, and `{1,m}+` on a character, are compiled, measured and given their ways, but the theorems about the matchers and these scans ask for patterns without them (`NoAtomic`).
- Assertions, and atomic groups written as such, other than the stepping back of a lookbehind.
- Back references, recursion, conditionals, callouts, verbs, inline options, duplicate group numbers, `\K`, `\G`, `\b`.
- Bytes outside the code or the subject: where the source would read them the model has an opcode of no meaning.
- Multi-byte and "any" newlines, FIRSTLINE, partial matching, PCRE_EXTENDED outside `Quote`, EBCDIC, Unicode properties.
- The forward references of recursion in groups that are copied, the compile work space, and overflow of the length (errors 20 and 52).
- `find_firstassertedchar` looks into assertions only, which the patterns do not have.
- pcre_info, pcre_config, pcre_fullinfo, character-table generation, byte flipping, the Arg parsers and the scanner of the C++ wrapper: easy members or library calls.
- FSClass and the other Objective-C headers: their bodies are not part of the repository's text.
