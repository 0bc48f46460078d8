# Verified models of Expect's matching engine and zlib's Adler-32

These Dafny modules model the parts of the vendored Expect 5.45 and zlib 1.2.8
sources where the code is cleverest, and prove that each clever form agrees with
a simple meaning. To verify the project, run
`dafny verify dfyconfig.toml` with Dafny 4.11.

## What is modelled

**Regular expressions** (`exp_clib.c`). A pattern is a C string; the compiler
reads it twice with the same code, first counting and then writing bytes, moves
operands up to insert nodes in front of them, and links nodes by relative 16-bit
offsets. The matcher interprets the bytes with backtracking.

- `RegSyntax` has the syntax tree, the width flags and the grammar as the
  compiler follows it, `RegShow` writes trees back as text, `RegRefusals` says
  which texts are refused and with which error.
- `RegCode` says what the bytes of each construct are, `RegLink`, `RegOutput`
  and `RegBuild` how setting links and moving operands turn raw code into them,
  `RegWellFormed` that the finished program decodes and every link leads to END.
- `RegComp` is the compiler: a class over the parse position, the group counter,
  the emit pointer, the size and the program array.
- `RegMeaning` gives the language of a tree as spans of a string, `RegPaths` the
  group boundaries passed on the way, `RegBacktrack` matching over the tree,
  sound and complete for the language, `RegPreference` which of several matches
  it finds.
- `RegRuns` and `RegExec` are the interpreter of the bytes, with its input
  pointer and capture arrays, and its agreement with matching over the tree.
- `RegSearch` has what the compiler digs out of a program and the optimised
  search, `RegCaptures` the meaning of recorded groups, `RegMatching` all of it
  together.

**Glob patterns** (`exp_glob.c`, `exp_clib.c`). `Glob` reads a pattern as tokens
and says which prefixes they match; `GlobText` says what a pattern matches as the
matchers take it, character by character, and that for most patterns this is the
same; `GlobSteps` says it for searches, `GlobMatch` is the wide matcher with its
backward cruise, `GlobBytes` the one over C strings, `GlobPromise` when the
searches give the leftmost longest match.

**The gate in front of regular expressions** (`retoglob.c`, `expect.c`). Before
Tcl's own engine is run, a cheap glob pattern translated from the expression is
tried. `GateRegexp` has the expressions, as the vendored engine reads them
(`regc_lex.c` and `regcomp.c` of Tcl 8.6), where they stand in a text and what they
match; matching itself is not part of this model, so the meaning of classes,
constraints, back references and bounds is a parameter and the theorem holds for
all of them; so are the case tables, by which the engine tries a character in lower,
upper and title case and the glob matcher compares lower cases only. `GateText` is
the translation as a function of the text, `GateUnits` the clean-up passes and their
languages, `GateUse` what they leave and when it is of use, `GateRuns` the
translation construct by construct, `GateSound` the theorems, `GatePasses` and
`GateCompile` the code over its buffers, `GateLimits` the expressions for which it is
unsound.

**Bookkeeping.** `ExpBuffer` is the input buffer and match_max, `BgArming` the
arming of background handlers, `RoundRobin` the choice of the next channel,
`InteractKeys` the keys of interact, `TrapSignals` the two halves of signal
handling, `IsoWeek` the ISO week number, `Adler32` the checksum.

Characters are kept as their codes. What the operating system, Tcl or a clock
supplies is a parameter or a nondeterministic step: the characters a channel has,
the validity of spawn ids, `Tcl_UniCharToLower`, `Tcl_UniCharToUpper`,
`Tcl_UniCharToTitle` and `Tcl_UniCharIsSpace`, the byte that follows the digits in
the buffer of `ExpBackslash` and was never set, the arrival of signals. The C
strings of the regular expression code hold bytes 1 to 255.

## Where the code does less than it promises

The theorems state these conditions; each has a lemma with an input.

- `exp_glob.c` never matches a star directly followed by the final `$`, although
  the comment at line 163 promises a match at the end of the string; the search
  never tries the end of a nonempty string, so a bare `$` is missed there, in the
  byte version too (`GlobPromise.PromiseKept`).
- A bracket class in which a range ends with `]` is left too early
  (`GlobText.ScanEndsClass`), and then the match found need not be the longest
  (`GlobText.LongestIsMissed`); classes look at the character before folding its
  case (`GlobPromise.ClassSeesCase`).
- The gate drops matches without regard to case of characters that have a case with
  another lower case: `ς` matches `Σ`, its gate does not
  (`GateSound.AtomCoveredExactly`, `GateLimits.FinalSigmaIsMissed`).
- It can drop matches of expressions with option i, unless their characters have no
  other case; with option e, if a backslash stands before a letter that means
  something to the translator; with option b, if they have groups; with an option q
  that a later b or e takes back. So it can of those with `[[:<:]]` or `[[:>:]]`, with
  more than two hexadecimal digits after x or less than four and eight after u and U,
  with octal escapes that begin with 0, with an escaped bracket or control character
  in a class, and with parentheses in a lookahead that are escaped or in a class
  (`GateSound.AtomCoveredExactly`, `GateLimits`).
- Some of these, a comment in parentheses that is not closed, an escaped bracket before
  `.`, `=` or `:` in a class, and a trailing blank after an option x make the
  translation read past its data (`GateSound.GateIsSound`, `GateLimits`).
- The halves of words that are not checksums can be too large for the
  subtractions in `adler32_combine_` (`Adler32.Combine`).
- Keys of interact of which a later one begins an earlier one depend on how the
  input arrives (`InteractKeys.DecidedExactly`).

## Model

| member | source | states |
|---|---|---|
| `RegMatching.CompileAndSearch` | package/kbs/sources/expect5.45/exp_clib.c:364-951 | Compiling a pattern and searching a NUL-free string with the program: refused with the first error in the text (RegRefusals.AcceptedExactly), or for size exactly at 32767 bytes; otherwise "no match" only if the pattern matches no span from there on, and a match that is leftmost, the first of all ways to match from there, with the group boundaries that way passes last, every group unset or in its own language inside it. |
| `RegMatching.OneAnswer` | package/kbs/sources/expect5.45/exp_clib.c:892-1190 | These conditions leave one answer only: the end of the match and all group boundaries are fixed by pattern and string. |
| `RegRefusals.AcceptedExactly` | package/kbs/sources/expect5.45/exp_clib.c:454-738 | A pattern is accepted, and then read to its end, exactly if one walk over its characters with a stack of open groups meets no error; otherwise the compiler fails with the first error of the walk. "Junk on end" and "internal urp" never occur. |
| `RegRefusals.UnmatchedExactly` | package/kbs/sources/expect5.45/exp_clib.c:508-516 | Counting parentheses outside classes and not after a backslash: one that closes without an opening is complained of unless the text before it has an error of its own, open ones unless the text with all of them closed has one; if the count is even there is no such complaint, and a text that ends in a class or after a backslash is refused. |
| `RegRefusals.GroupClosesAtItsOwn` | package/kbs/sources/expect5.45/exp_clib.c:508-510 | Every group ends at the parenthesis at which the count falls below that of its opening. |
| `RegRefusals.ClassMeans` | package/kbs/sources/expect5.45/exp_clib.c:654-687 | A bracket class holds exactly the characters it names alone or by ranges, negated after a caret; it is refused exactly for a range that ends below its beginning, or for having no end. |
| `RegShow.ReadsBack` | package/kbs/sources/expect5.45/exp_clib.c:454-738 | Writing a tree as text and reading it back gives the same tree and group count: literals of one character escaped, longer ones as they are, classes with ranges where a character cannot be listed. |
| `RegShow.ReadAgain` | package/kbs/sources/expect5.45/exp_clib.c:454-738 | That covers whatever the compiler accepts: every tree it reads from a text can be written, and what is written is read as the same tree again. |
| `RegSyntax.ParseRegOk` | package/kbs/sources/expect5.45/exp_clib.c:588-590 | Whatever is accepted has nonempty literals, and the operand of every `*` and `+` is one flagged as having width. |
| `RegCaptures.ParseNumbers` | package/kbs/sources/expect5.45/exp_clib.c:468-474 | Groups get consecutive numbers in the order of their opening parentheses. |
| `RegCaptures.AltsOnlyOne` | package/kbs/sources/expect5.45/exp_clib.c:468-474 | A group number belongs to one group only. |
| `RegComp.CompileProgram` | package/kbs/sources/expect5.45/exp_clib.c:364-404 | The sizing and the emitting pass agree: both read the same tree and fail with the same error, and the second writes exactly the bytes of the program of that tree, as many as the first counted. |
| `RegComp.RegCompState.Reg` | package/kbs/sources/expect5.45/exp_clib.c:454-520 | The code of a pattern or group appended, counted or written, with flags, group numbers and errors of the grammar, whose meaning RegRefusals gives. |
| `RegComp.RegCompState.RegAlternatives` | package/kbs/sources/expect5.45/exp_clib.c:488-498 | Each further branch is appended and linked from the branch before it. |
| `RegComp.RegCompState.RegTieBranches` | package/kbs/sources/expect5.45/exp_clib.c:504-506 | Walking the chain of branches ties every branch to the closing node, turning the raw code into the final code of the alternatives and changing nothing else. |
| `RegComp.RegCompState.RegBranch` | package/kbs/sources/expect5.45/exp_clib.c:527-557 | The pieces of a branch appended, each led to the next. |
| `RegComp.RegCompState.RegPiece` | package/kbs/sources/expect5.45/exp_clib.c:568-623 | An atom with its repetition: in place for simple operands, otherwise the loop or choice around the moved operand. |
| `RegComp.RegCompState.RegAtom` | package/kbs/sources/expect5.45/exp_clib.c:633-738 | The code of an atom appended, or the error of the grammar. |
| `RegComp.RegCompState.RegClass` | package/kbs/sources/expect5.45/exp_clib.c:654-687 | The characters of a bracket class written out, ranges expanded. |
| `RegComp.RegCompState.RegLiteral` | package/kbs/sources/expect5.45/exp_clib.c:713-733 | The run of ordinary characters, less the last one before a repetition. |
| `RegComp.RegCompState.RegInsert` | package/kbs/sources/expect5.45/exp_clib.c:785-810 | The operand is moved up by three bytes unchanged, so that its relative links still hold, and a node is put in front. |
| `RegComp.RegCompState.RegTail` | package/kbs/sources/expect5.45/exp_clib.c:815-842 | Follows the chain to its last node and sets that link, two bytes, and nothing else. |
| `RegComp.RegCompState.RegOpTail` | package/kbs/sources/expect5.45/exp_clib.c:847-856 | The same for the operand of a BRANCH; no effect on other nodes and while counting. |
| `RegLink.LoopReach` | package/kbs/sources/expect5.45/exp_clib.c:592-617 | In a loop the chain of links from its first node leads to the node after it. |
| `RegLink.PieceTailLeads` | package/kbs/sources/expect5.45/exp_clib.c:815-842 | Once linked, the last node of a piece leads to where it was linked to. |
| `RegLink.RelinkMiddle` | package/kbs/sources/expect5.45/exp_clib.c:815-842 | Setting the open link of a fragment inside more code gives the linked fragment in the same surroundings. |
| `RegWellFormed.ProgramWellFormed` | package/kbs/sources/expect5.45/exp_clib.c:592-856 | Every accepted program decodes into nodes that fill it exactly and end in END; every link leads to a node, forwards but for BACK; from every node links lead to END; only operands of STAR and PLUS have no link. |
| `RegMeaning.AltsHaveWidth` | package/kbs/sources/expect5.45/exp_clib.c:486-497 | HASWIDTH is sound: what is flagged never matches the empty string. |
| `RegPaths.AltsPathSpan` | package/kbs/sources/expect5.45/exp_clib.c:1074-1123 | Every path of group boundaries runs over a span of the language. |
| `RegBacktrack.RunSound` | package/kbs/sources/expect5.45/exp_clib.c:994-1190 | What backtracking over the tree finds is a path of what was to be matched. |
| `RegBacktrack.RunComplete` | package/kbs/sources/expect5.45/exp_clib.c:994-1190 | If any span matches, backtracking finds a match. |
| `RegBacktrack.TryMeans` | package/kbs/sources/expect5.45/exp_clib.c:956-982 | A try at a position succeeds exactly when some span from there is in the language, and then gives one with its path. |
| `RegPreference.TryIsBest` | package/kbs/sources/expect5.45/exp_clib.c:956-982 | A try finds the first of all ways to match from its place, ways being ordered by their first difference: an earlier alternative before a later one, another round of a repetition before going on; and passes exactly the boundaries of that way. |
| `RegPreference.RunIsBest` | package/kbs/sources/expect5.45/exp_clib.c:994-1190 | The same for whatever is left to match, with the boundaries passed; nothing is found only if there is no way. |
| `RegPreference.BestIsOne` | package/kbs/sources/expect5.45/exp_clib.c:994-1190 | There is at most one first way, and it ends at one place. |
| `RegPreference.AltsSpanWay` | package/kbs/sources/expect5.45/exp_clib.c:994-1190 | Every span of the language is matched in some way, so the order is one over all matches. |
| `RegPreference.FirstAlternativeWins` | package/kbs/sources/expect5.45/exp_clib.c:1124-1140 | If the first alternative matches anything from there, the match is one of it. |
| `RegPreference.NoFurtherRound` | package/kbs/sources/expect5.45/exp_clib.c:1141-1168 | Where a repetition stops, no further round could be completed with what follows it. |
| `RegExec.RegExecState.RegMatch` | package/kbs/sources/expect5.45/exp_clib.c:994-1190 | The interpreter of the byte program, with a lexicographic measure for its loop and recursion: same success, end and group boundaries as backtracking over the tree, which finds the first way (RegPreference.RunIsBest). |
| `RegExec.RegExecState.MatchBranches` | package/kbs/sources/expect5.45/exp_clib.c:1124-1140 | The alternatives in order, the input restored in between: the answer of backtracking over the tree, which prefers earlier ones. |
| `RegExec.RegExecState.MatchRepeat` | package/kbs/sources/expect5.45/exp_clib.c:1141-1168 | Longest run first, with the lookahead on the next literal, which skips only tries that must fail: the answer of backtracking over the tree, which prefers another round. |
| `RegExec.RegExecState.MatchOpen` | package/kbs/sources/expect5.45/exp_clib.c:1074-1094 | The start of a group is set on the way back, unless a later iteration set it. |
| `RegExec.RegExecState.MatchClose` | package/kbs/sources/expect5.45/exp_clib.c:1103-1123 | The same for its end. |
| `RegExec.RegExecState.RegRepeat` | package/kbs/sources/expect5.45/exp_clib.c:1195-1237 | Moves over the longest run of a simple operand and counts it. |
| `RegExec.RepeatRun` | package/kbs/sources/expect5.45/exp_clib.c:1141-1168 | Counting down from the longest run is what the general loop of the operand comes to, which prefers another round. |
| `RegRuns.ProgramImpl` | package/kbs/sources/expect5.45/exp_clib.c:486-506 | The bytes of a program carry out the matching of its tree. |
| `RegRuns.AlternativesLighter` | package/kbs/sources/expect5.45/exp_clib.c:1124-1140 | Every recursive call has less left to match or less input, which is why matching ends. |
| `RegSearch.FirstNode` | package/kbs/sources/expect5.45/exp_clib.c:411-419 | A first node EXACTLY means every match starts with its first character; BOL means every match starts at the line. |
| `RegSearch.LongestLiteral` | package/kbs/sources/expect5.45/exp_clib.c:429-439 | Of the literals on the top-level chain the one such that no earlier one is longer and every later one is shorter, none only if there is none; it occurs in every match. |
| `RegSearch.TclRegComp` | package/kbs/sources/expect5.45/exp_clib.c:364-443 | The compiled program with regstart, reganch and regmust, each true of every match. |
| `RegSearch.MustAppear` | package/kbs/sources/expect5.45/exp_clib.c:913-924 | Reports absence only if the literal occurs nowhere from there on. |
| `RegSearch.RegTry` | package/kbs/sources/expect5.45/exp_clib.c:956-982 | Clears all boundaries, tries one place and records the whole match. |
| `RegSearch.TclRegExec` | package/kbs/sources/expect5.45/exp_clib.c:892-951 | The optimised search gives the answer, the leftmost place and the boundaries of trying every place, the end included. |
| `RegSearch.SearchMeans` | package/kbs/sources/expect5.45/exp_clib.c:934-947 | Trying every place finds a match exactly when there is one, at the leftmost place. |
| `RegCaptures.CapturesAreLastIterations` | package/kbs/sources/expect5.45/exp_clib.c:1078-1122 | After a match every group is unset and was never gone through, or spans its last iteration: start <= end, inside the match, a path of the group and in its language. |
| `Glob.FitsInside` | package/kbs/sources/expect5.45/exp_glob.c:125-391 | A match ends inside the string. |
| `Glob.LaterReachesFurther` | package/kbs/sources/expect5.45/exp_glob.c:198-261 | Starting a pattern later never makes its longest match end earlier; this is why trying tails backwards finds the longest match. |
| `Glob.TwoStars` | package/kbs/sources/expect5.45/exp_glob.c:182-187 | Successive stars match what one does. |
| `GlobText.BracketEndsEarly` | package/kbs/sources/expect5.45/exp_glob.c:347-356 | If a later range of a class ends with a bracket, skipping to the next bracket ends the class too early. |
| `GlobText.ScanFinds` | package/kbs/sources/expect5.45/exp_glob.c:306-346 | The class scan of either matcher finds a character exactly when the class holds it. |
| `GlobText.ScanEndsClass` | package/kbs/sources/expect5.45/exp_glob.c:347-356 | The scan leaves a class where it ends, for every character, exactly when no range of it ends with a bracket; in exp_glob.c the first range may. |
| `GlobText.AnswerTakes` | package/kbs/sources/expect5.45/exp_glob.c:125-391 | For every pattern, also one with classes that are left too early: the answer is -1 exactly if the pattern, as it is taken, matches no prefix, and otherwise the length of a match; the longest one, if no class is left too early. |
| `GlobText.TextIsTokens` | package/kbs/sources/expect5.45/exp_glob.c:125-391 | A pattern in which no class is left too early is taken as it reads. |
| `GlobText.LastTail` | package/kbs/sources/expect5.45/exp_glob.c:216-261 | The last tail that matches after a star gives a match, and the longest one if no class is left too early. |
| `GlobText.LongestIsMissed` | package/kbs/sources/expect5.45/exp_glob.c:216-261 | With a class that is left too early the answer can be a shorter match: 4 instead of 5 for `*a[x^-]aY]` and `axaY]`. |
| `GlobText.StarFails` | package/kbs/sources/expect5.45/exp_glob.c:80-81 | With a leading star, failing in front means failing everywhere. |
| `GlobMatch.ScanClass` | package/kbs/sources/expect5.45/exp_glob.c:296-356 | The scan of one class. |
| `GlobMatch.CruiseSkips` | package/kbs/sources/expect5.45/exp_glob.c:232-247 | Characters passed over by the backward cruise start no match of the rest. |
| `GlobMatch.MatchTails` | package/kbs/sources/expect5.45/exp_glob.c:179-270 | From a star on, cruising backwards over the string: the answer given by trying every tail. |
| `GlobMatch.StringCaseMatch2` | package/kbs/sources/expect5.45/exp_glob.c:125-391 | The answer for every pattern and string, whose meaning is given by GlobText.AnswerTakes. |
| `GlobMatch.StringCaseMatch` | package/kbs/sources/expect5.45/exp_glob.c:31-113 | For every pattern the leftmost match where the search is complete, and -1 where it gives up; if no class is left too early, in terms of what the pattern means and with the longest match there. |
| `GlobSteps.SearchedAsRead` | package/kbs/sources/expect5.45/exp_glob.c:31-113 | For patterns that are taken as they read, a search of them as they are taken is one for what they mean. |
| `GlobBytes.ScanClass` | package/kbs/sources/expect5.45/exp_clib.c:1581-1619 | The class scan of the byte matcher. |
| `GlobBytes.MatchTails` | package/kbs/sources/expect5.45/exp_clib.c:1545-1565 | From a star on, tails from the empty one backwards: the answer given by trying every tail. |
| `GlobBytes.StringMatch2` | package/kbs/sources/expect5.45/exp_clib.c:1515-1645 | The answer for every pattern and C string, whose meaning is given by GlobText.AnswerTakes. |
| `GlobBytes.StringMatch` | package/kbs/sources/expect5.45/exp_clib.c:1648-1690 | For every pattern the leftmost match where the search is complete; if no class is left too early, in terms of what the pattern means. |
| `GlobPromise.DropEndMatches` | package/kbs/sources/expect5.45/exp_glob.c:163-169 | A `*$` at the end of a pattern adds nothing to a `*` there. |
| `GlobPromise.PromiseKept` | package/kbs/sources/expect5.45/exp_glob.c:59-112 | A search of a string that does not begin with NUL keeps the promise of the leftmost longest match exactly when the pattern is neither a bare `$` sought in a nonempty string nor, in exp_glob.c, one that ends in `*$` and without the `$` matches. |
| `GlobPromise.NulGivesUp` | package/kbs/sources/expect5.45/exp_glob.c:83 | A string that begins with NUL is given up after its first place. |
| `GlobPromise.CaseBlind` | package/kbs/sources/expect5.45/exp_glob.c:193-196 | Without regard to case, strings that differ in case only are matched alike, unless a class tells them apart. |
| `GlobPromise.ClassBlindExactly` | package/kbs/sources/expect5.45/exp_glob.c:304-340 | A class alone does so exactly when it does not tell characters apart that fold alike, because the character of the string is not folded. |
| `GlobPromise.ClassSeesCase` | package/kbs/sources/expect5.45/exp_glob.c:304-346 | `[q]` without regard to case matches `q`, not `Q`. |
| `GateSound.GateIsSound` | package/kbs/sources/expect5.45/retoglob.c:51-475 | For every expression read alike by engine and translator, with its options, every meaning of classes, constraints, back references and bounds, all case tables and every NUL-free buffer: the translation is undefined exactly if the expression ends in a blank of expanded syntax and has no choice; and if all its atoms are kept, it gives a glob pattern and the expression matches somewhere, then the glob matcher does not answer -1. |
| `GateSound.GateExactly` | package/kbs/sources/expect5.45/retoglob.c:218-492 | Which gate such an expression gets: none with a choice anywhere, with more than two runs of stars and question marks that hold a star, or if its units are nothing, one question mark, or one such run with a star first or second; otherwise its cleaned units. |
| `GateSound.AtomCoveredExactly` | package/kbs/sources/expect5.45/retoglob.c:218-449 | The unit written for an atom matches all that the atom can match exactly if the atom is kept: not a word bracket; where a backslash only quotes, not one of the escapes that stand for something else; not more than two hexadecimal digits; and of a character every case the engine tries folds as what is written for it folds. |
| `GateSound.DigitsKept` | package/kbs/sources/expect5.45/retoglob.c:379-405 | For escapes with digits that says: with two hexadecimal digits, or four or eight after u and U, one is kept exactly if the cases of its character fold as the character does; with more than two after x never. |
| `GateSound.DecodedAsMeant` | package/kbs/sources/expect5.45/retoglob.c:564-594 | Two hexadecimal digits after x, four after u and eight after U are decoded to the character the engine takes them for, whatever stands in the buffer after them. |
| `GateSound.OneDigitDecoded` | package/kbs/sources/expect5.45/retoglob.c:579-591 | Of a single digit after x the next byte of the buffer, which was never set, is decoded as well if it is a digit. |
| `GateSound.LiteralGateIsSound` | package/kbs/sources/expect5.45/retoglob.c:148-152 | The same for literal expressions, after a director or after options of which q is the last word; they always get a gate. |
| `GateSound.LiteralCoveredExactly` | package/kbs/sources/expect5.45/retoglob.c:547-562 | The pattern of a literal matches all that it matches exactly if the cases of each character fold as the character does. |
| `GateCompile.GatedMatch` | package/kbs/sources/expect5.45/expect.c:849-889 | An expression whose translation is defined, with its gate in front, is tried exactly on the buffers in which the cleaned units of its gate match somewhere, on all if it gets none; and, if its atoms are kept, on every buffer in which it matches. |
| `GateCompile.PassesGate` | package/kbs/sources/expect5.45/expect.c:858-873 | Without a gate the expression is tried; with one exactly if the search for it succeeds, -1 otherwise. |
| `GateSound.PassesMeans` | package/kbs/sources/expect5.45/expect.c:858-873 | The search for a translated gate succeeds in a NUL-free buffer exactly if its units match somewhere. |
| `GateCompile.ExpReToGlob` | package/kbs/sources/expect5.45/retoglob.c:51-490 | The translation over its buffer and stack is the translation as a function of the text, whose outcome GateSound.GateExactly gives. |
| `GateText.OutputFits` | package/kbs/sources/expect5.45/retoglob.c:83-91 | The output is never longer than twice the input. |
| `GateText.StepMoves` | package/kbs/sources/expect5.45/retoglob.c:99-107 | Every round of the loop reads something, writes at most two characters for each read, and opens at most one group. |
| `GateRuns.RegexpRun` | package/kbs/sources/expect5.45/retoglob.c:218-449 | Translating the text of an expression, tight or expanded, appends its units, or gives up exactly if it has a choice anywhere, and otherwise reads past the end exactly if its last piece is a blank. |
| `GateRuns.FillerRun` | package/kbs/sources/expect5.45/retoglob.c:223-252 | Comments in parentheses, blanks and comments to the end of a line are skipped, except a blank at the end of the text. |
| `GateRuns.NoteRun` | package/kbs/sources/expect5.45/retoglob.c:228-232 | A comment in expanded syntax is skipped with its newline, or to the end of the text. |
| `GateRuns.QuantifierRun` | package/kbs/sources/expect5.45/retoglob.c:416-439 | A quantifier, greedy or not, replaces exactly the unit it applies to by a star. |
| `GateRuns.MembersEnd` | package/kbs/sources/expect5.45/retoglob.c:289-316 | Bracket classes are skipped to their end. |
| `GateRuns.MembersScanned` | package/kbs/sources/expect5.45/retoglob.c:289-316 | Members of a class are skipped one by one, whatever comes after them. |
| `GateRuns.NestedSkipped` | package/kbs/sources/expect5.45/retoglob.c:513-545 | A lookahead is skipped to the parenthesis that closes it exactly if the parentheses in it are balanced, counting escaped ones and members of classes; at the end of the text none may be closed too early. |
| `GateSound.PiecesCovered` | package/kbs/sources/expect5.45/retoglob.c:218-449 | A sequence of pieces whose atoms are kept matches only what its units match, with the cases the engine tries on one side and the folding of the matcher on the other. |
| `GateSound.StartRead` | package/kbs/sources/expect5.45/retoglob.c:142-216 | Directors and embedded options are told apart from groups, and expanded syntax is recognised. |
| `GateSound.FinishLarger` | package/kbs/sources/expect5.45/retoglob.c:455-475 | The clean-up passes only enlarge the language, and what they leave has at most two stars. |
| `GateUse.FinishIs` | package/kbs/sources/expect5.45/retoglob.c:455-492 | For any units the three passes and the last tests come to one walk: in every run that holds a star what follows the star goes, and the question marks before it except one that is the second character or follows a backslash. |
| `GateUse.CleanedKeeps` | package/kbs/sources/expect5.45/retoglob.c:596-757 | That keeps all characters in their order, and one star for every such run. |
| `GateUnits.QForwardLarger` | package/kbs/sources/expect5.45/retoglob.c:643-688 | Dropping question marks after a star enlarges the language. |
| `GateUnits.QBackLarger` | package/kbs/sources/expect5.45/retoglob.c:691-730 | Dropping question marks before a star works on whole units and enlarges the language. |
| `GateUnits.StarsLarger` | package/kbs/sources/expect5.45/retoglob.c:596-640 | Collapsing stars keeps the language. |
| `GateUnits.ReadUnits` | package/kbs/sources/expect5.45/retoglob.c:120-128 | The text written reads back, in a glob pattern, as the units meant. |
| `GatePasses.CollapseQForward` | package/kbs/sources/expect5.45/retoglob.c:643-688 | The pass in place on the buffer. |
| `GatePasses.CollapseQBack` | package/kbs/sources/expect5.45/retoglob.c:691-730 | The pass in place on the buffer. |
| `GatePasses.CollapseStar` | package/kbs/sources/expect5.45/retoglob.c:596-640 | The pass in place on the buffer. |
| `GatePasses.CountStar` | package/kbs/sources/expect5.45/retoglob.c:733-757 | The number of stars that are not quoted. |
| `GateCompile.ReToGlobState.Step` | package/kbs/sources/expect5.45/retoglob.c:218-449 | One round over the buffer leaves room for the next. |
| `GateCompile.ReToGlobState.Translate` | package/kbs/sources/expect5.45/retoglob.c:218-449 | The main loop. |
| `GateCompile.ReToGlobState.ChopClass` | package/kbs/sources/expect5.45/retoglob.c:286-316 | To the end of a bracket class. |
| `GateLimits.FinalSigmaIsMissed` | package/kbs/sources/expect5.45/exp_glob.c:380-388 | Without regard to case the engine matches a final sigma with the capital letter, whose lower case is the other sigma; the gate compares lower cases and does not. |
| `GateLimits.IgnoreCaseIsMissed` | package/kbs/sources/expect5.45/retoglob.c:203-213 | Option i is skipped: `(?i)a` matches `A`, its gate does not. |
| `GateLimits.PlainEscapeIsMissed` | package/kbs/sources/expect5.45/retoglob.c:203-213 | Option e is skipped: `(?e)\x41` matches `x41`, its gate is `A`. |
| `GateLimits.BasicGroupIsMissed` | package/kbs/sources/expect5.45/retoglob.c:203-213 | Option b is skipped: the gate of `(?b)\(w\)`, for every plain w, asks for the parentheses and does not match w. |
| `GateLimits.LostQuoteIsMissed` | package/kbs/sources/expect5.45/retoglob.c:203-208 | Any option q makes a literal: `(?qe)a*` matches `a`, its gate asks for the star. |
| `GateLimits.ReturnIsKept` | package/kbs/sources/expect5.45/retoglob.c:223-233 | In expanded syntax blanks, tabs and newlines only are skipped: the gate of `(?x)a` and a carriage return does not match `a`. |
| `GateLimits.WordBracketIsMissed` | package/kbs/sources/expect5.45/retoglob.c:273-319 | `[[:<:]]a` matches `a`; its gate asks for two characters. |
| `GateLimits.EscapedBracketEnds` | package/kbs/sources/expect5.45/retoglob.c:286-316 | A class is taken to end at an escaped bracket, or at one after an escaped c, whatever follows. |
| `GateLimits.EscapedBracketOpens` | package/kbs/sources/expect5.45/retoglob.c:302-310 | An escaped bracket before `.`, `=` or `:` is taken to open a name: the class goes on after its end, or past the data if there is none. |
| `GateLimits.OpenNamedBreaks` | package/kbs/sources/expect5.45/retoglob.c:302-310 | So the class `[\[:x]` makes the translation undefined. |
| `GateLimits.EscapedBracketIsMissed` | package/kbs/sources/expect5.45/retoglob.c:289-316 | `[\]]` is taken for a class and a character: its gate does not match `]`. |
| `GateLimits.ControlBracketIsMissed` | package/kbs/sources/expect5.45/retoglob.c:289-316 | So is the class `[\c]]` of one control character: its gate matches no single character. |
| `GateLimits.CodeInStep` | package/kbs/sources/expect5.45/retoglob.c:392-405 | After u or U the translator goes on where the engine does exactly if the engine takes four or eight digits, and is undefined exactly if the text is too short for as many. |
| `GateLimits.ShortCodeBreaks` | package/kbs/sources/expect5.45/retoglob.c:392-398 | `\u41` at the end of the text sends the translation past its data. |
| `GateLimits.ShortCodeIsMissed` | package/kbs/sources/expect5.45/retoglob.c:392-398 | `\u41*b` matches `b`; its gate is `A`. |
| `GateLimits.LongHexIsMissed` | package/kbs/sources/expect5.45/retoglob.c:379-387 | `\x141` is character 20 and a digit; its gate is `A`. |
| `GateLimits.OctalIsSplit` | package/kbs/sources/expect5.45/retoglob.c:339-342 | Of `\0` with more octal digits only `\0` is translated: for all such digits the gate asks for NUL and matches in no string without it. |
| `GateLimits.ClassInLookaheadIsMissed` | package/kbs/sources/expect5.45/retoglob.c:513-545 | `(?![)(])a` matches `a`; the lookahead is taken to end inside the class, and the gate asks for two characters. |
| `GateLimits.EscapedParenthesisBreaks` | package/kbs/sources/expect5.45/retoglob.c:513-545 | An escaped parenthesis in a lookahead ends it, and a group that was not opened is closed: the translation is undefined. |
| `GateLimits.TrailingBlankBreaks` | package/kbs/sources/expect5.45/retoglob.c:223-233 | A blank at the end makes the loop read past the end with any option x, also where a later t means the blank to be read: the translation is undefined. |
| `GateLimits.RemarkCloses` | package/kbs/sources/expect5.45/retoglob.c:250-252 | A comment in parentheses is skipped exactly if it is closed; the engine lets it go on to the end. |
| `GateLimits.OpenRemarkBreaks` | package/kbs/sources/expect5.45/retoglob.c:250-252 | An unclosed comment after any plain text makes the translation undefined. |
| `Adler32.Update` | package/kbs/sources/zlib1.2.8/adler32.c:65-133 | The checksum of section 2.2 of RFC 1950, byte by byte, for every buffer and canonical starting value and either way of taking remainders; no accumulator ever leaves 32 bits. |
| `Adler32.HoldsNext` | package/kbs/sources/zlib1.2.8/adler32.c:18-22 | Over at most NMAX bytes without reduction the accumulators stay congruent to the sums and within 32 bits. |
| `Adler32.NMaxIsLargest` | package/kbs/sources/zlib1.2.8/adler32.c:14-16 | A block of n bytes cannot overflow exactly when n <= 5552. |
| `Adler32.CapIsReached` | package/kbs/sources/zlib1.2.8/adler32.c:14-16 | The bound is reached, by bytes 255 after the largest sums. |
| `Adler32.Chaining` | package/kbs/sources/zlib1.2.8/adler32.c:65-133 | Checksumming in parts is checksumming the whole. |
| `Adler32.Chop` | package/kbs/sources/zlib1.2.8/adler32.c:29-34 | Folding the high half in keeps the remainder by 65521. |
| `Adler32.Mod28` | package/kbs/sources/zlib1.2.8/adler32.c:35-39 | The remainder by 65521 without division, for values below 2^28. |
| `Adler32.Mod` | package/kbs/sources/zlib1.2.8/adler32.c:40-44 | The remainder without division, for all 32-bit values. |
| `Adler32.Mod63` | package/kbs/sources/zlib1.2.8/adler32.c:45-56 | The remainder without division, for all 63-bit values. |
| `Adler32.ClosedForm` | package/kbs/sources/zlib1.2.8/adler32.c:65-133 | The sums in closed form: each byte counts once for every byte from it on. |
| `Adler32.Combine` | package/kbs/sources/zlib1.2.8/adler32.c:136-162 | For any two words the result is the joined combined sums exactly if the halves are small enough for the subtractions, as those of checksums are; a negative length gives 0xffffffff. |
| `Adler32.TooLargeToReduce` | package/kbs/sources/zlib1.2.8/adler32.c:155-161 | Words with the largest lower halves are not small enough. |
| `Adler32.CombineIsConcatenation` | package/kbs/sources/zlib1.2.8/adler32.c:136-162 | The combined sums are the checksum of the concatenation. |
| `ExpBuffer.MatchMaxHolds` | package/kbs/sources/expect5.45/expect.c:1594-2002 | Over every run of reads and matches: an unmatched run of at most (4 match_max + 7) / 3 characters, which is more than match_max, is wholly in the buffer right after the read that brought its last character. |
| `ExpBuffer.RoomForRead` | package/kbs/sources/expect5.45/expect.c:1765-1784 | Every read has room for at least match_max characters. |
| `ExpBuffer.RunGuarded` | package/kbs/sources/expect5.45/expect.c:1970-2002 | What is dropped is older than the last (4 match_max + 4) / 3 characters, unless a match took what followed. |
| `ExpBuffer.LongRunIsLost` | package/kbs/sources/expect5.45/expect.c:1970-2002 | For every match_max, a run of one character more can lose its first one. |
| `ExpBuffer.ExpState.Shuffle` | package/kbs/sources/expect5.45/expect.c:1938-2002 | Drops exactly the first third and moves the rest down. |
| `ExpBuffer.ExpState.ExpIRead` | package/kbs/sources/expect5.45/expect.c:1755-1789 | Makes room if need be and appends what the channel has, as far as it fits. |
| `ExpBuffer.ExpState.NullStrip` | package/kbs/sources/expect5.45/expect.c:1726-1746 | Nulls are taken out of the new characters only. |
| `ExpBuffer.StripParts` | package/kbs/sources/expect5.45/expect.c:1726-1746 | Exactly the nulls go, and the order is kept. |
| `ExpBuffer.ExpState.ExpRead` | package/kbs/sources/expect5.45/expect.c:1913-1931 | Between commands 0 <= printed == use <= max, and the buffer holds all that came in, stripped, and did not leave: what was there, without its first third if it was two thirds full, and as much of the new input as fits. |
| `ExpBuffer.ExpState.RemoveMatch` | package/kbs/sources/expect5.45/expect.c:2364-2373 | Matched characters leave from the front, as many as were matched, and what followed them stays. |
| `ExpBuffer.MatchedAreCounted` | package/kbs/sources/expect5.45/expect.c:2364-2373 | Over every run exactly as many characters leave as matched as the matches took; all others that left were dropped. |
| `InteractKeys.ChunksDoNotMatter` | package/kbs/sources/expect5.45/exp_inter.c:240-350 | However the input is cut into reads, what is passed through, which keys are matched and what is left undecided is the same. |
| `InteractKeys.DecidedExactly` | package/kbs/sources/expect5.45/exp_inter.c:254-300 | This holds for all inputs exactly when no key begins with a later one, unless an earlier one is always found first; keys of which none begins another qualify. |
| `InteractKeys.UndecidedDependsOnCuts` | package/kbs/sources/expect5.45/exp_inter.c:254-300 | Otherwise there is an input and a cut that change the key found. |
| `InteractKeys.ReadInPieces` | package/kbs/sources/expect5.45/exp_inter.c:240-350 | Reading in two pieces, the undecided end put in front of the second, is reading the whole. |
| `InteractKeys.RestIsRest` | package/kbs/sources/expect5.45/exp_inter.c:333-347 | What CANMATCH keeps is read as undecided again. |
| `InteractKeys.RestBeginsKey` | package/kbs/sources/expect5.45/exp_inter.c:286-347 | And only what could become a key is kept: it is empty or, nulls to be skipped aside, a proper beginning of some key, and begins with none. |
| `InteractKeys.CompareMeans` | package/kbs/sources/expect5.45/exp_inter.c:264-299 | A key is found exactly if what is visible begins with it, possible exactly if what is visible is a proper beginning of it; nulls are invisible if they are to be skipped. |
| `InteractKeys.SearchReads` | package/kbs/sources/expect5.45/exp_inter.c:196-351 | One look at the buffer is a first part of reading it. |
| `InteractKeys.CompareKey` | package/kbs/sources/expect5.45/exp_inter.c:264-299 | Comparing one key: it ends exactly if the visible input begins with it, the input is too short to tell exactly if it is a proper beginning of the key, otherwise they differ. |
| `InteractKeys.IntMatch` | package/kbs/sources/expect5.45/exp_inter.c:196-351 | The first place where the visible input begins with a key, and then the first such key and its extent, or where it is a proper beginning of one; at all places before neither is so. |
| `InteractKeys.Input.Round` | package/kbs/sources/expect5.45/exp_inter.c:1467-1581 | One round keeps what was sent in step with the whole input; the next event waits for input exactly after CANMATCH. |
| `InteractKeys.Input.Drain` | package/kbs/sources/expect5.45/exp_inter.c:1467-1581 | When nothing more can be decided, exactly the meaning of all input was sent and the undecided end, the beginning of some key, is buffered. |
| `TrapSignals.NoSignalIsLost` | package/kbs/sources/expect5.45/exp_trap.c:101-203 | Over every run, with signals during actions and nested calls: a call of the top half finds a marked signal that is owed an action, child signals are counted exactly, and at rest every signal had its action begin after it last occurred. |
| `TrapSignals.EnterKeeps` | package/kbs/sources/expect5.45/exp_trap.c:103-112 | Entering the top half keeps the invariant. |
| `TrapSignals.ScanKeeps` | package/kbs/sources/expect5.45/exp_trap.c:137-158 | The closing scan keeps the invariant. |
| `TrapSignals.ArriveKeeps` | package/kbs/sources/expect5.45/exp_trap.c:190-203 | The bottom half keeps the invariant. |
| `TrapSignals.Traps.BottomHalf` | package/kbs/sources/expect5.45/exp_trap.c:190-203 | Marks the signal and asks for the top half. |
| `TrapSignals.Traps.TopHalfBegins` | package/kbs/sources/expect5.45/exp_trap.c:103-112 | Works on a signal that is owed an action, which is the signal in progress during the action. |
| `TrapSignals.Traps.TopHalfEnds` | package/kbs/sources/expect5.45/exp_trap.c:137-158 | Asks to be called again exactly if something is pending; no signal is in progress then. |
| `BgArming.LastRequestWins` | package/kbs/sources/expect5.45/exp_event.c:34-134 | While the handler runs nothing is installed, and what was asked for last takes effect when it ends. |
| `BgArming.GroupsWithoutCounts` | package/kbs/sources/expect5.45/expect.c:1144-1186 | Taking a spawn id out of the groups removes its occurrences and no others. |
| `BgArming.GroupsWithoutParts` | package/kbs/sources/expect5.45/expect.c:1144-1186 | The groups keep their order, each losing the spawn id, and those left empty go. |
| `BgArming.RemoveKeepsLists` | package/kbs/sources/expect5.45/expect.c:1080-1110 | Removing a group with its cases leaves no case without a listed group and all counts right. |
| `BgArming.AppendKeepsLists` | package/kbs/sources/expect5.45/expect.c:1537-1563 | Appending new groups and cases keeps that. |
| `BgArming.Background.RemoveCases` | package/kbs/sources/expect5.45/expect.c:1080-1110 | Removes exactly the cases of a group, in place. |
| `BgArming.Background.RemoveState` | package/kbs/sources/expect5.45/expect.c:1143-1187 | Takes a spawn id out of all groups, with groups left empty and their cases; its count is 0 and it is disarmed. |
| `BgArming.Background.ArmGroups` | package/kbs/sources/expect5.45/expect.c:1201-1217 | Every occurrence is counted, the first one arms, and nothing else changes. |
| `BgArming.Background.ExpectBackground` | package/kbs/sources/expect5.45/expect.c:1440-1566 | After the command, valid or stopped, every channel counts its occurrences, is armed or blocked exactly when it occurs, and has its handler installed exactly when armed; the groups are the old ones without the new spawn ids, and the new ones that have cases; the cases are those of the old groups left, in their order, and then the new ones; every channel is as RearmedStatus says. |
| `BgArming.RearmedStatus` | package/kbs/sources/expect5.45/expect.c:1143-1217 | A channel that leaves all groups and enters new ones is armed, or, while its handler runs, blocked, exactly if it occurs in them, and never has its handler installed while it runs. |
| `BgArming.Background.CloseChannel` | package/kbs/sources/expect5.45/expect.c:1189-1199 | The channel leaves all groups and is disarmed, whatever its status. |
| `BgArming.Background.HandlerBegins` | package/kbs/sources/expect5.45/exp_event.c:126-134 | The handler is put off while it runs. |
| `BgArming.Background.HandlerEnds` | package/kbs/sources/expect5.45/exp_event.c:110-124 | It is armed again, or a put-off disarm takes effect. |
| `RoundRobin.EveryoneOnce` | package/kbs/sources/expect5.45/exp_event.c:200-204 | A round visits every channel exactly once, from any index, even one left over from more channels. |
| `RoundRobin.Fair` | package/kbs/sources/expect5.45/exp_event.c:200-226 | Over n consecutive calls with n channels, one that has data in each of them is reported with it by one of them, whatever the others have and whatever happens in between. |
| `RoundRobin.TurnComesNearer` | package/kbs/sources/expect5.45/exp_event.c:200-204 | Every call that returns another channel brings the turn nearer. |
| `RoundRobin.ToldOnce` | package/kbs/sources/expect5.45/exp_event.c:207-226 | If nothing happens before the next call, new data is not reported twice, a channel reported because of a new command is reported again only for what it has, and the others keep their news. |
| `RoundRobin.Events.Scan` | package/kbs/sources/expect5.45/exp_event.c:200-237 | Reports the first ready channel in the order of the round, or an end of file without one, and leaves the index and the channels as the calls in Fair have them. |
| `IsoWeek.WeekIsIso` | package/kbs/sources/expect5.45/exp_strf.c:483-588 | For every consistent date the number is that of the week by its Thursday (clause 2.2.10 of ISO 8601:2004), and lies in 1 to 53. |
| `IsoWeek.NoSecondStep` | package/kbs/sources/expect5.45/exp_strf.c:550-559 | 31 December of last year is never in a week of the year before it: the recursion is at most one deep. |
| `IsoWeek.DecemberRule` | package/kbs/sources/expect5.45/exp_strf.c:565-585 | The rule for the last days of December holds exactly when the Thursday is in the next year. |
| `IsoWeek.WeekIsUnique` | package/kbs/sources/expect5.45/exp_strf.c:488-495 | The standard gives one number only. |
| `IsoWeek.NextYear` | package/kbs/sources/expect5.45/exp_strf.c:467-472 | The leap year rule is that of the Gregorian day count. |

## Left out

- GateSound.GateIsSound: says nothing of expressions the engine and the translator read differently; `GateLimits` and `GateRuns.NestedSkipped` say what these are. With option b it covers those without groups and bounds, whose anchors are at the ends. An atom that is not kept does not always mean a missed match: the rest of the expression may allow no match there.
- GateRegexp.FillerAt: of the blanks in expanded syntax only those the translator knows; the engine also skips, for example, carriage returns (`GateLimits.ReturnIsKept`).
- Adler32.Combine: `uLong` has 64 bits; with 32 the excess bits of a half that is too large are cut off, which gives another wrong result.
- RegComp.RegCompState.RegPiece: allocation failure is not modelled; programs of 32767 bytes or more are refused as in the code.
- RegSearch.TclRegExec: the corrupted-program and null-parameter errors cannot occur, because the program comes from the compiler.
- TclRegSub and the debugging dumps of `exp_clib.c`.
- ExpBuffer.ExpState.ExpRead: timeouts, errors and the other results of an event that read nothing; they leave the buffer as it is.
- Resizing the buffer (`expAdjust`): match_max is fixed, and the buffer has three times that and one.
- BgArming.Background.ExpectBackground: indirect spawn ids (`-i varname`), whose counts the code only approximates.
- InteractKeys.IntMatch: regular expression keys, null keys, and the flags that echo or pass on the characters of a key; with the latter a partly matched key is sent before it is known which key it is.
- InteractKeys.Input.Round: the buffer is long enough that it is never shuffled.
- TrapSignals.NoSignalIsLost: every trapped signal has an action, and each half is atomic as described in the module; the window in which the decrement of the child counter races with the handler is not modelled.
- RoundRobin.Events.Scan: one scan; waiting for events between scans, timeouts, and the variant with HAVE_PTYTRAP, which asks the terminal before it reports an end of file.
- Process, terminal and console plumbing, TLS channels, `Dbg.c`, option parsing, logging and the rest of `exp_strftime`: glue that would add only easy members.
- `exp_poll.c`, whose count of handlers is decremented twice.
