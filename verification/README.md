# wCervus userland model

A Dafny model of the parts of the wCervus userland whose behaviour is hardest to see
from one function: the csh script machine and its integer evaluator, herd's package
planning, version order and tar archives, neo's incremental highlighting, awk's lazily
split record and its hashed arrays, hexed's edit overlay and chunked search, diff's
output, fdisk's sector allocation, the calendars of cal, date and herd, and the CRC-32
of ar and herd. Each program has a specification in values and functions, theorems about
it, and, where the C code works by changing things step by step, classes and loops proved
against that specification. `dafny verify dfyconfig.toml` checks everything.

## What is proved

**csh.** `run_script` is a machine over flat lines with a stack of frames. The block pass
accepts exactly the scripts whose block lines balance, and its table pairs every opening
line with the line that closes it. For every well-nested script the machine and the block
tree agree both ways: an effect of the tree is what the machine halts with, and a machine
that halts shows the tree's effect, so one diverges when the other does. The effect is what
the script says, but for one quirk: a `break` outside all loops undoes every frame, so after
a first branch that met one the `else` branch runs as well. In a run where no first branch
outside all loops meets one, effect and meaning are the same, and every run of a script
without a `break` in such a branch is one. At an if/else whose first branch meets the
`break`, and before it does what it says, they are the same exactly when the second branch
ends normally and changes nothing. In every reachable state of a script without stray
`break` inside an `if` the stack mirrors the open blocks. The evaluator, on the printed text
of any expression tree with parentheses only where precedence asks for them, gives its
64-bit value and reads all of the text, whatever blanks stand before the tokens; that value
is the only one that meets the laws of the operators, given as congruences modulo 2^64,
truncated division and bits. Turn k of a `foreach` starts with item k in its variable,
whatever the body did before. Well-nested means that variable expansion does not turn a
line into another block line, that blocks are at most 32 deep, and that `foreach` lines
carry a list. What this shuts out is stated as lemmas too: a full stack opens no further
block (so the body of a false `if` runs), and a `foreach` line without a list opens none.

**herd.** For every acyclic index, a plan lists dependencies first; stopping it after any
install leaves every installed package with its dependencies. After an upgrade that worked
and stayed under the 256-entry cap, planning again finds nothing, in whatever order the
packages are listed, and nothing installed is older than its index record unless its
planning fails. A plan holds nothing that is not needed: an installed package that nobody
asked for, and that is none of the five system packages, keeps its record. `version_cmp` is
a total preorder on the numbers of a version, read in base ten, and `is_newer` a strict weak
order. An archive written from any storable entries is read back to those entries, through
plain, split and long names; directories come back with the slash the writer adds. From any
archive only relative paths without a ".." between slashes are taken; one that is cut to 511 bytes
when it is stored may end in "..", exactly when the cut falls there.

**neo.** After an edit of one row, recolouring from that row down until the open state
stops changing gives the same rows as redrawing and recolouring the whole buffer. What the
colours are is stated on the places of a row: a row has exactly one division into strings,
comments, numbers, listed words and other text (for HTML: comments, tags, attributes, values
and entities), and every place has the colour of its stretch.

**awk.** Any sequence of record and field operations answers as if record and fields were
kept up to date after each. Any sequence of array operations answers as a plain map does,
for any hash function.

**hexed.** Every run of commands does to the bytes shown what it does to a plain byte array,
and the chunked search finds the first match of the edited view. Undo takes back the byte
changed last as long as every edit that was dropped, by typing a byte's own value back, was
one of the last two in the list; the first drop of another one makes it take an older byte.
Typing another value over a byte whose edit is pending does not count as a new change.
A save that fails part way leaves edits whose remembered byte is out of date.

**diff.** The printed text, read by a patch program that sees only that text, turns the
first file into the second.

**fdisk.** New partitions start at the first free aligned sector, and every run of commands
keeps partitions disjoint and inside the usable range. "no free space" looks at the first
gap only, and takes a gap of one sector for none. Room is a free aligned sector, on which a
partition of one sector fits. The message is right exactly unless the first free aligned
sector is the last usable one, or lies below it with a partition right after it. On a table
with aligned starts, and tables made by fdisk itself keep those, only the first of the two
can happen, as on an empty MBR table of a disk of 2049 sectors. Read as "no two sectors
free", it is always right on such a table.

**Calendars.** The closed form in herd equals the summing loops of date and cal from 1970 on,
and the decoding loops invert both. `cal` accepts any year but counts from 1970; it is right
exactly for years from 1970 on and for earlier years that begin on a Thursday.

**CRC.** The table method equals a shift register fed bit by bit, for every message. The
checksum is the complement of the remainder of a polynomial division by the generator of
ITU-T V.42, to which section 8 of RFC 1952 refers. Any change confined to four bytes in a
row changes it.

## Model

| member | source | states |
|---|---|---|
| CshTheorem.MeaningIsReached | usr/bin/csh.c:1686-1889 | for every well-nested script without a `break` in the first branch of an if/else outside all loops, and every store, the result the script says (control outcome, variables, commands run in order) is what the line machine halts with |
| CshTheorem.HaltedRunMeans | usr/bin/csh.c:1686-1889 | conversely, a run of the machine on such a script that halts shows that result, so a script without one keeps the machine running |
| CshTheorem.ScriptRuns | usr/bin/csh.c:1686-1889 | for every well-nested script, stray `break` included, and every amount of fuel, the machine halts with the effect of the block tree or has made at least that many steps without halting |
| CshTheorem.EffectIsReached | usr/bin/csh.c:1686-1889 | for every well-nested script an effect of the tree is what the machine halts with |
| CshTheorem.HaltedRunShows | usr/bin/csh.c:1686-1889 | and a run that halts shows the effect |
| CshTheorem.CalmIsReached | usr/bin/csh.c:1686-1889 | for every well-nested script and every run in which no first branch outside all loops meets a `break`, the result the script says is what the machine halts with |
| CshTheorem.CalmRunMeans | usr/bin/csh.c:1686-1889 | conversely, such a run that halts shows that result |
| CshStructured.CalmMeaning | usr/bin/csh.c:1735-1861 | in a run where no first branch outside all loops strays, the effect is what the script says |
| CshStructured.LoopMeaning | usr/bin/csh.c:1841-1861 | inside a loop the effect is what the script says, for every list and run |
| CshStructured.TameIsCalm | usr/bin/csh.c:1735-1861 | every run of a script without a `break` in the first branch of an if/else outside all loops is such a run |
| CshStructured.TameMeaning | usr/bin/csh.c:1735-1861 | without a `break` in the first branch of an if/else outside all loops, the effect is what the script says |
| CshTheorem.TreeBalanced | usr/bin/csh.c:682-736 | the block pass accepts the lines of every block tree |
| CshTheorem.TreeTabled | usr/bin/csh.c:682-736 | whatever table the block pass fills for those lines sends each opening line of the tree to its own closing line |
| CshTheorem.TreeLevel | usr/bin/csh.c:682-736 | the lines of a statement list leave the nesting depth as they found it and never go below it |
| CshMachine.StepsAdd | usr/bin/csh.c:1691-1887 | m + n turns of the loop are n turns after m |
| CshSkip.SkipOver | usr/bin/csh.c:1712-1839 | a skipping machine walks over any statement list, however nested, and changes nothing but the line |
| CshLive.SimLeaf | usr/bin/csh.c:1839-1887 | a simple line, `break` or `continue` takes the machine where the tree says |
| CshLive.SimIf | usr/bin/csh.c:1712-1747 | an `if` without `else` runs its body exactly when its condition holds |
| CshLive.SimTrue | usr/bin/csh.c:1712-1747 | with a true condition the first branch runs and the second is skipped, or runs too after a stray `break` |
| CshLive.AfterStray | usr/bin/csh.c:1735-1747 | with no frame left `else` and `endif` are passed over, so the second branch runs |
| CshLive.SimFalse | usr/bin/csh.c:1712-1747 | with a false condition the second branch runs and the first is skipped |
| CshLive.SimTurns | usr/bin/csh.c:1808-1836 | the turns of a `while`, the condition being read again at its `end` |
| CshLive.SimWhile | usr/bin/csh.c:1787-1836 | a `while` loop brings about its meaning, or never ends when the tree does not |
| CshLive.SimItems | usr/bin/csh.c:1808-1824 | the turns of a `foreach` from any item on, with `break` and `continue` inside |
| CshLive.SimForeach | usr/bin/csh.c:1749-1824 | a `foreach` loop runs its body once per item, in order |
| CshMachine.VarSetMeans | usr/bin/csh.c:121-132 | a variable that is there, or finds room among 256, holds the value, cut to 1023 characters; a new one on a full table is dropped; nothing else changes |
| CshTurns.TurnIsRight | usr/bin/csh.c:1749-1822 | every step, from any state, that starts a turn of a `foreach` goes to its body with its variable holding the item of that turn: item 0 first, then the next one |
| CshTurns.EveryTurn | usr/bin/csh.c:1749-1822 | so it is in every run of the machine, at every step |
| CshTurns.ForeachTurn | usr/bin/csh.c:1749-1785 | a `foreach` line starts the turn of item 0 |
| CshTurns.EndTurn | usr/bin/csh.c:1808-1822 | an `end` line starts the turn of the next item |
| CshTurns.ItemsTurn | usr/bin/csh.c:1749-1822 | in the block tree turn k starts where turn k - 1 ended but for its variable, which holds item k; the last turn breaks, exits or has the last item |
| CshLive.Sim | usr/bin/csh.c:1691-1887 | the machine, started on the lines of any statement list with a live stack, brings about its effect, and leaves no frame after a stray `break` |
| CshInvariant.Reachable | usr/bin/csh.c:1686-1889 | in every state of every run of a fitting script the stack mirrors the open blocks, is as high as the line is deep, and skips exactly when its top frame is dead |
| CshInvariant.KeepNext | usr/bin/csh.c:1691-1887 | one turn of the loop keeps that invariant, whatever the line |
| CshInvariant.StartInv | usr/bin/csh.c:1689-1690 | a run starts in it |
| CshInvariant.JumpOut | usr/bin/csh.c:1841-1878 | leaving the block of any frame, past its closing line or to it, keeps the invariant |
| CshInvariant.SkippingIsTop | usr/bin/csh.c:738-746 | the scan over all frames answers what the top frame alone says |
| CshInvariant.Room | usr/bin/csh.c:1713-1732 | an opening line of a fitting script always finds room on the stack |
| CshInvariant.OpenAtEnd | usr/bin/csh.c:682-736 | at the line the table gives for a block, that block is the innermost open one; after it the blocks are those from before it |
| CshInvariant.OpenBelow | usr/bin/csh.c:682-736 | below an open line stand exactly the lines that were open before it |
| CshLimits.FullStack | usr/bin/csh.c:1713-1732 | an `if` opens its block exactly while the stack has room; on a full stack the body of a false `if` runs |
| CshLimits.ShortForeach | usr/bin/csh.c:1758-1785 | a live `foreach` opens its block exactly when it has a variable and a list and there is room below 32; without a list the return code and `$status` become 1 |
| CshLimits.StrayBreak | usr/bin/csh.c:1735-1861 | at any if/else outside all loops whose first branch strays the machine runs both branches in turn, whether the second ends, exits or runs on |
| CshLimits.StrayDiffers | usr/bin/csh.c:1735-1861 | there the script says to run the first branch alone, and the two come to the same exactly when the second branch ends normally and changes nothing |
| CshLimits.BreakThenElse | usr/bin/csh.c:1735-1861 | a lone `break` before `else` and a command after it: the script says to run nothing, csh runs the command |
| CshLimits.BreakStrays | usr/bin/csh.c:1841-1861 | outside all loops a list that comes to a `break` of its own strays, whatever stands before and after it |
| CshBlocks.OpenLinesShape | usr/bin/csh.c:682-736 | the parse stack has one entry per level of depth and each entry has stayed open since its line |
| CshBlocks.BlockWordMeans | usr/bin/csh.c:292-297 | a line is a block line of its kind exactly when that word is the first one in its first 4095 characters |
| CshBlocks.OtherLines | usr/bin/csh.c:688-731 | every other line is no block line |
| CshBlocks.TopMatches | usr/bin/csh.c:702-727 | the innermost open line is the one that a closing line matches, by counting depths |
| CshBlocks.MatchUnique | usr/bin/csh.c:702-727 | an opening line matches at most one closing line |
| CshBlocks.Laminar | usr/bin/csh.c:682-736 | two blocks are one inside the other or apart |
| CshBlocks.Apart | usr/bin/csh.c:682-736 | two blocks do not end on the same line |
| CshBlocks.EndsOneBlock | usr/bin/csh.c:682-736 | every closing line of an accepted script ends exactly one block |
| CshBlocks.DepthNonNegative | usr/bin/csh.c:699-727 | in an accepted prefix the depth never falls below zero |
| CshShell.ParseBlocks | usr/bin/csh.c:682-736 | returns 0 exactly for balanced scripts whose depth fits the parse stack, and then the table pairs every opening line with its closing line |
| CshShell.Shell.IsSkipping | usr/bin/csh.c:738-746 | the loop answers whether any frame is dead |
| CshShell.Shell.OnIf | usr/bin/csh.c:1712-1733 | the state after an `if` line is the machine's |
| CshShell.Shell.OnElse | usr/bin/csh.c:1735-1742 | the state after an `else` line is the machine's |
| CshShell.Shell.OnForeach | usr/bin/csh.c:1749-1785 | the state after a `foreach` line is the machine's, and a turn that starts has item 0 in its variable |
| CshShell.Shell.OnWhile | usr/bin/csh.c:1787-1806 | the state after a `while` line is the machine's |
| CshShell.Shell.OnEnd | usr/bin/csh.c:1808-1837 | the state after an `end` line is the machine's: next item, condition again, or out; a turn that starts has the next item in its variable |
| CshShell.Shell.OnBreak | usr/bin/csh.c:1841-1861 | the loop over frames leaves the stack and line of the recursive definition |
| CshShell.Shell.OnContinue | usr/bin/csh.c:1863-1878 | the two nested loops leave the stack and line of the recursive definition |
| CshShell.Shell.OnSimple | usr/bin/csh.c:1839-1887 | the state after any other line is the machine's |
| CshShell.Shell.Turn | usr/bin/csh.c:1691-1887 | one turn of the loop is one step of the machine |
| CshShell.Shell.RunScript | usr/bin/csh.c:1686-1889 | an unbalanced script runs nothing and returns 2; any other makes the machine's steps, and when a well-nested one has halted it shows the effect of its block tree |
| CshEvalProof.EvalOfText | usr/bin/csh.c:748-852 | evaluating the printed text of any expression tree gives its value and reads all of the text, for any blanks before each token |
| CshLaws.ValueMeans | usr/bin/csh.c:754-852 | the value of an expression meets the law of every operator in it |
| CshLaws.MeansOnce | usr/bin/csh.c:754-852 | and no other value does |
| CshLaws.ApplyIsLawful | usr/bin/csh.c:782-847 | every operator on every two longs: sums, differences and products modulo 2^64, truncated quotient and remainder (0 by zero), shifts and bitwise operators bit by bit |
| CshLaws.LawfulOnce | usr/bin/csh.c:782-847 | these laws leave one long for each operator and operands |
| CshLaws.ApplyUnIsLawful | usr/bin/csh.c:763-766 | minus gives 0 modulo 2^64 when added back, tilde flips every bit, the exclamation mark is 1 exactly for 0 |
| CshLaws.LawfulUnOnce | usr/bin/csh.c:763-766 | and these laws leave one long |
| CshGrammar.Symbols | usr/bin/csh.c:782-847 | each operator sign between two numbers is that operator, with its operands in that order |
| CshGrammar.Prefixes | usr/bin/csh.c:763-766 | each prefix sign before a number is that operator |
| CshGrammar.RowsRight | usr/bin/csh.c:782-847 | bar, caret, ampersand, shift, plus, times: each takes all that stands right of it |
| CshGrammar.RowsLeft | usr/bin/csh.c:782-847 | times, plus, shift, ampersand, caret, bar: each takes all that stands left of it |
| CshGrammar.LeftFirst | usr/bin/csh.c:782-847 | operators of one row associate to the left |
| CshGrammar.NumberMeans | usr/bin/csh.c:767-781 | digits in base 10 or 16, of either case and any number, are read to their end with their place value modulo 2^64 |
| CshGrammar.DigitsMean | usr/bin/csh.c:767-781 | the printed text of a number has that place value |
| CshEvalProof.Reads | usr/bin/csh.c:783-847 | at every precedence level, reading the text of a tree arrives behind it with its value |
| CshEvalProof.ReadsBody | usr/bin/csh.c:783-847 | left operand, operator and right operand, read at the operator's own level, associate to the left |
| CshEvalProof.ReadsParens | usr/bin/csh.c:756-762 | a looser operator between parentheses is read as one primary |
| CshEvalProof.NumberReads | usr/bin/csh.c:767-780 | the digits of a number, decimal or hexadecimal, are read back as it |
| CshEvaluator.SkipWs | usr/bin/csh.c:748-750 | stops at the first character that is not a blank |
| CshEvaluator.EvalNumber | usr/bin/csh.c:767-780 | the digit loop computes the literal at the cursor and where it ends |
| CshEvaluator.EvalPrimary | usr/bin/csh.c:754-781 | parentheses, prefix operators and numbers, with the cursor after them |
| CshEvaluator.EvalMul | usr/bin/csh.c:783-794 | the loop over `*`, `/` and `%` computes its level |
| CshEvaluator.EvalAdd | usr/bin/csh.c:796-806 | the loop over `+` and `-` computes its level |
| CshEvaluator.EvalShift | usr/bin/csh.c:808-817 | the loop over shifts computes its level |
| CshEvaluator.EvalBand | usr/bin/csh.c:819-827 | the loop over `&` computes its level and stops before `&&` |
| CshEvaluator.EvalBxor | usr/bin/csh.c:829-837 | the loop over `^` computes its level |
| CshEvaluator.EvalBor | usr/bin/csh.c:839-847 | the loop over the bar computes its level and stops before a double bar |
| CshEvaluator.EvalInt | usr/bin/csh.c:849-852 | on any text the result is the value read at the loosest level, which for every printed tree is the tree's value, the one that meets the laws of its operators |
| CshLongs.TruncatedDivision | usr/bin/csh.c:783-794 | `/` and `%` truncate toward zero: the remainder is smaller than the divisor and has the dividend's sign |
| CshLongs.BitwiseBits | usr/bin/csh.c:819-847 | each bit of the three bitwise operators, the sign included, is the operator on the operands' bits |
| CshLongs.ValueIsLong | usr/bin/csh.c:748-852 | the value of every expression with 64-bit literals is a 64-bit long |
| CshLongs.ApplyIsLong | usr/bin/csh.c:783-847 | every operator takes longs to a long |
| HerdPlan.PlanNameGood | usr/bin/herd.c:1136-1166 | planning a name keeps the order without repeats and with dependencies first, only adds to it, and provides the name when it succeeds |
| HerdLean.PlanNameLean | usr/bin/herd.c:1136-1166 | every name a plan adds is missing, or older than its index record and either asked for with upgrades or one of the five system packages, and is reached from the name asked for along dependencies |
| HerdLean.PlanNameUsed | usr/bin/herd.c:1155-1166 | with success and room left, every name added is the one asked for or a dependency of a later one |
| HerdLean.PlanNameFull | usr/bin/herd.c:1136-1166 | and nothing is missing: the name if it is absent or asked for and older, and in front of every planned name its dependencies that are absent, or system packages and older |
| HerdLean.LeanLeaves | usr/bin/herd.c:1214-1249 | such a plan, stopped anywhere, leaves every package alone that was not asked for and is no system package, and every one that is not older than the index |
| HerdLean.ServedIsCurrent | usr/bin/herd.c:1214-1249 | once it is installed every name asked for is there and not older than its index record |
| HerdPlan.EveryPrefixClosed | usr/bin/herd.c:1170-1194 | after any number of installs of a plan every installed package has its dependencies installed |
| HerdPlan.AfterKeys | usr/bin/herd.c:1170-1194 | what is installed after k installs: the packages from before and the first k of the plan, those at their index records |
| HerdPlan.PlanNameFails | usr/bin/herd.c:1136-1166 | planning fails exactly for names that are missing from the index or need one that fails, whatever is planned already |
| HerdPlan.PlanSettles | usr/bin/herd.c:1136-1166 | a plan with room left has settled every name that was asked for |
| HerdPlan.Replan | usr/bin/herd.c:1136-1166 | on the upgraded system, planning a settled name adds nothing and fails as before |
| HerdSystem.PlanAllGood | usr/bin/herd.c:1251-1275 | planning all installed packages keeps the order good and settles each of them while there is room |
| HerdSystem.UpgradeIdempotent | usr/bin/herd.c:1251-1299 | after an upgrade in which every install worked, planning again over the same index finds nothing, in any order of the names |
| HerdSystem.UpgradeReachesIndex | usr/bin/herd.c:1251-1299 | afterwards no package is older than its index record, unless its planning fails |
| HerdSystem.Herd.PlanInstall | usr/bin/herd.c:1136-1166 | the recursion over the growing order computes the plan, which holds only what is wanted for the name |
| HerdSystem.Herd.ApplyPlan | usr/bin/herd.c:1170-1194 | installs in order, stops at the first failure, and keeps dependencies installed at that point |
| HerdSystem.Herd.Install | usr/bin/herd.c:1214-1249 | when a name cannot be planned nothing is installed and it fails; otherwise it succeeds exactly when every install works, and then every name is there unless the plan was full; dependencies stay installed, names asked for are current, and every other package but the five system ones keeps its record |
| HerdSystem.Herd.Upgrade | usr/bin/herd.c:1251-1299 | plans all names, installs some prefix of the plan, and after full success under the cap a second planning is empty; packages that are not older keep their record, and new ones are dependencies |
| HerdVersion.CmpRunsMeans | usr/bin/herd.c:620-634 | the comparison is decided by the first position where the digit runs, padded with zeros, differ |
| HerdVersion.CmpOrder | usr/bin/herd.c:620-634 | `version_cmp` is reflexive, antisymmetric in sign and transitive, a missing version being least |
| HerdVersion.RunsTransitive | usr/bin/herd.c:624-634 | transitivity of the comparison of digit runs |
| HerdVersion.StampOrder | usr/bin/herd.c:639-658 | version and build key together are ordered the same way |
| HerdVersion.NewerIsLess | usr/bin/herd.c:648-658 | `is_newer` is the strict part of that order |
| HerdVersion.NewerStrictWeakOrder | usr/bin/herd.c:648-658 | `is_newer` is irreflexive and transitive, and so is its negation transitive |
| HerdVersion.TakeNumber | usr/bin/herd.c:625-629 | the cursor loops skip text and read one number |
| HerdText.RunsMean | usr/bin/herd.c:624-632 | the numbers compared are the digit runs of the version, read in base ten, in their order |
| HerdText.VersionParts | usr/bin/herd.c:624-632 | every version is made of such runs with other text between |
| HerdText.KeyMeans | usr/bin/herd.c:639-646 | a build key is the first 14 digits of the stamp, filled up with zeros |
| HerdText.CmpTextMeans | usr/bin/herd.c:657 | the first place where two keys differ decides |
| HerdText.NewerMeans | usr/bin/herd.c:648-658 | newer means: an absent version or the first differing number smaller, or all numbers alike and a known build time that is later |
| HerdVersion.VersionCmp | usr/bin/herd.c:620-634 | the two-cursor loop computes the comparison of digit runs |
| HerdVersion.BuiltKey | usr/bin/herd.c:639-646 | the first 14 digits, filled up with zeros |
| TarProof.RoundTrip | usr/bin/herd.c:1575-1822 | an archive of any storable entries is read back as those entries: path, kind, mode, link and content |
| TarProof.ReadBodies | usr/bin/herd.c:1782-1822 | entry after entry, from any position |
| TarProof.ReadEntry | usr/bin/herd.c:1782-1822 | the bytes written for one entry are read as that entry, by whichever of the three name forms it was written |
| TarProof.ReadSplit | usr/bin/herd.c:1581-1587 | a name split at a slash over the name and prefix fields comes back whole |
| TarProof.ReadUnsplit | usr/bin/herd.c:1588-1598 | a name in a long-name block comes back whole, the cut one in the header being ignored |
| TarProof.ReadLong | usr/bin/herd.c:1796-1802 | a long-name block leaves the name pending for the next header |
| TarProof.ReadBlock | usr/bin/herd.c:1787-1819 | a header block with its data is read as that entry |
| TarArchive.Cut | usr/bin/herd.c:1581-1587 | the last slash with at most 155 bytes before it and 1 to 100 after it, or 0 when there is none |
| TarFormat.HeaderFields | usr/bin/herd.c:1586-1617 | every field of the header holds what was written to it, after all later writes |
| TarFormat.HeaderStamp | usr/bin/herd.c:1602-1618 | the time, the empty owner numbers, the version and the owner names are in their places after all later writes |
| TarFormat.HeaderLongLink | usr/bin/herd.c:1608 | of a link of 100 bytes or more 99 are kept |
| TarFormat.Checksum | usr/bin/herd.c:1613-1617 | the number in the checksum field is the sum of the header's bytes with blanks in that field |
| TarBytes.OctRoundTrip | usr/bin/herd.c:447-455 | a number that fits its octal field is read back from it |
| TarBytes.OctDigitsAt | usr/bin/herd.c:1602-1606 | numbers are written in base eight, digit by digit |
| TarBytes.OctDigitsFront | usr/bin/herd.c:1602-1606 | with no zero in front |
| TarBytes.CStrPadded | usr/bin/herd.c:1804-1807 | a padded name is read up to its padding |
| TarHerd.FindCut | usr/bin/herd.c:1582-1584 | the search from the end finds that cut |
| TarHerd.SumBlock | usr/bin/herd.c:1614-1615 | the loop adds up the bytes |
| TarHerd.FillHeader | usr/bin/herd.c:1578-1617 | the writes into the zeroed block make the header |
| TarHerd.Buffer.Append | usr/bin/herd.c:1558-1571 | the buffer holds what it held and the new bytes with a zero behind them, in the same memory or in new memory that is large enough and, past the first size, less than twice what is needed |
| TarHerd.Grown | usr/bin/herd.c:1561-1562 | doubling ends at a capacity with room, less than twice the need unless it is the old or the first one |
| TarHerd.Buffer.AppendName | usr/bin/herd.c:1589-1596 | a long name with its terminating zero, padded to whole blocks |
| TarHerd.Buffer.TarHeader | usr/bin/herd.c:1575-1619 | appends the header bytes of the three name forms |
| TarHerd.Buffer.AppendEntry | usr/bin/herd.c:2519-2525 | appends the bytes of one entry, files with padded data |
| TarHerd.Buffer.WriteArchive | usr/bin/herd.c:2517-2528 | writes the archive, and what it wrote is read back to the entries |
| TarHerd.ReadEntries | usr/bin/herd.c:1782-1822 | reads any bytes as the recursive reader does, errors included; every path it stores is safe, or the first 511 bytes of a safe one, and it complains only about paths that are not |
| TarHerd.IsSafe | usr/bin/herd.c:1715-1728 | the loops decide exactly whether a path is safe |
| TarSafe.SafeRelMeans | usr/bin/herd.c:1715-1728 | safe means: behind the leading "./" pairs there is nothing, or no slash first and no ".." between slashes or ends |
| TarSafe.ReadSafe | usr/bin/herd.c:1782-1822 | every entry read from any bytes has a safe path, or one cut from a safe path, and a path complained about is not safe |
| TarSafe.CutStaysSafe | usr/bin/herd.c:1707-1728 | a safe path cut to 511 bytes stays safe exactly unless the cut leaves ".." behind a slash |
| TarSafe.CutWitness | usr/bin/herd.c:1707-1728 | a path that is safe in the archive and not as it is stored |
| TarProof.EntryMeans | usr/bin/herd.c:1701-1713 | what is kept of a header: 511 bytes of the path, twelve bits of the mode, the link, and the data of files |
| TarProof.NameMeans | usr/bin/herd.c:1804-1807 | a pending long name, prefix and name with a slash between, or the name |
| TarProof.LongMeans | usr/bin/herd.c:1796-1801 | a long name is what stands before the first zero in at most 1023 bytes |
| TarProof.CStrMeans | usr/bin/herd.c:1804-1814 | a field ends at its first zero or with its buffer |
| TarProof.ReadSkips | usr/bin/herd.c:1803 | extended headers and long link names are passed over with their data |
| TarProof.ReadOldFile | usr/bin/herd.c:1816-1818 | an entry without a kind is a file |
| TarProof.ReadRefuses | usr/bin/herd.c:1791-1795 | a block without the magic, or with more data than there is, is no archive |
| TarProof.ReadBounded | usr/bin/herd.c:1704 | no more than 4096 entries are read |
| NeoRows.IncrementalIsFull | usr/apps/neo.c:661-703 | after an edit of one row, redrawing it and cascading equals redrawing and recolouring every row |
| NeoRows.CascadeRestores | usr/apps/neo.c:661-681 | from rows in step except one, the cascade from that one brings all in step |
| NeoRows.CascadeReaches | usr/apps/neo.c:661-681 | whatever stood below, the cascade puts its row in step with those above |
| NeoRows.CascadeKeeps | usr/apps/neo.c:661-681 | the cascade leaves the rows above, all characters and all drawn text alone |
| NeoRows.EditKeepsConsistent | usr/apps/neo.c:683-703 | an edit with its redraw keeps every row in step |
| NeoRows.PassConsistent | usr/apps/neo.c:1632-1634 | recolouring all rows in order brings every row in step, whatever its colours were |
| NeoRows.RedrawReaches | usr/apps/neo.c:2622-2623 | redrawing all rows does the same |
| NeoRows.ConsistentUnique | usr/apps/neo.c:661-681 | being in step fixes all colours |
| NeoRows.RenderFits | usr/apps/neo.c:683-701 | the drawn text fits the buffer allocated for it |
| NeoRows.RenderColumns | usr/apps/neo.c:690-699 | a row is drawn piece by piece, each piece from the column the one before it reached |
| NeoRows.RenderAt | usr/apps/neo.c:690-699 | a character is drawn as itself, a tab as an arrow and dots or as blanks up to the next tab stop, from the column that the ones before it reach |
| NeoShown.GenericShows | usr/apps/neo.c:533-608 | every row of every language and open state: the row has stretches, each beginning and ending where the rules on its places say, the colours are those of the stretches, and the row leaves 1 open exactly when a comment has no end |
| NeoShown.StretchesOnce | usr/apps/neo.c:533-608 | a row has one such division into stretches |
| NeoShown.ColourTells | usr/apps/neo.c:533-608 | every colour stands exactly on stretches of its kind: a group colour on listed words of that group, and so on |
| NeoShown.SepMeans | usr/apps/neo.c:525-532 | separators are the end, white space and ASCII punctuation but eight characters |
| NeoHtml.HtmlShows | usr/apps/neo.c:610-659 | every row of HTML and open state: comments, tag names, attributes, quoted values, entities and closing brackets begin and end where the rules say, the colours are theirs, and so is the state left open |
| NeoHtml.PiecesOnce | usr/apps/neo.c:610-659 | a row of HTML has one such division |
| NeoHtml.HighlightIsRight | usr/apps/neo.c:661-678 | the colours of a row are right with no language, an ordinary one, or HTML |
| NeoEditor.HlGeneric | usr/apps/neo.c:533-608 | the in-place scan of a row paints its stretches and says whether it leaves a comment open |
| NeoEditor.HlHtml | usr/apps/neo.c:610-659 | the in-place scan of an HTML row paints its pieces and gives its open state |
| NeoEditor.PaintNumber | usr/apps/neo.c:573-583 | a number is coloured to its end |
| NeoEditor.MatchGroup | usr/apps/neo.c:585-601 | the first keyword of the first group that stands at the cursor between separators |
| NeoEditor.Colour | usr/apps/neo.c:661-678 | the right colours of one row from the state open before it |
| NeoEditor.Editor.UpdateSyntax | usr/apps/neo.c:661-681 | the recursion recolours rows until the open state stops changing |
| NeoEditor.Editor.RenderRow | usr/apps/neo.c:683-701 | the loop draws tabs to the next stop |
| NeoEditor.Editor.DrawTab | usr/apps/neo.c:692-695 | the loop of a tab ends at the next tab stop |
| NeoEditor.RowsAreRight | usr/apps/neo.c:661-707 | rows that are in step, as every edit leaves them, are drawn character by character and have the right colours |
| NeoEditor.Editor.RowUpdate | usr/apps/neo.c:683-703 | redraw, then cascade |
| NeoEditor.Editor.InsertChar | usr/apps/neo.c:778-787 | inserts at the place or at the end, changes no other row's text, and keeps all rows in step |
| NeoEditor.Editor.AppendString | usr/apps/neo.c:789-797 | appends, changes no other row's text, and keeps all rows in step |
| NeoEditor.Editor.DeleteChar | usr/apps/neo.c:799-806 | deletes inside the row only, changes no other row's text, and keeps all rows in step |
| NeoEditor.Editor.ChooseLanguage | usr/apps/neo.c:1632-1634 | another language leaves every row in step |
| NeoEditor.Editor.ChangeTabs | usr/apps/neo.c:2622-2630 | another tab width or tab display leaves every row in step |
| AwkRecord.Record.Run | usr/bin/awk.c:724-819 | any sequence of operations answers as if record and fields were kept up to date after each |
| AwkRecord.Record.Do | usr/bin/awk.c:794-819 | each operation answers and changes the record as the eager one does |
| AwkRecord.Record.SplitRecord | usr/bin/awk.c:718-779 | splitting on demand, into slots cleared only up to the field count, changes nothing that can be seen |
| AwkRecord.ClearFields | usr/bin/awk.c:718-722 | clearing the slots up to the field count empties all of them |
| AwkRecord.Record.RebuildRecord | usr/bin/awk.c:781-792 | rebuilding on demand changes nothing that can be seen |
| AwkRecord.Record.Get | usr/bin/awk.c:794-800 | a field, the record, or empty text out of range |
| AwkRecord.Record.Set | usr/bin/awk.c:802-814 | sets a field, making empty ones up to it |
| AwkRecord.Record.SetTo | usr/bin/awk.c:816-819 | sets the record |
| AwkRecord.Record.Assign | usr/bin/awk.c:874 | assigning NF drops or makes fields |
| AwkRecord.Record.CountFields | usr/bin/awk.c:922 | reading NF counts the fields |
| AwkRecord.EnsureCap | usr/bin/awk.c:707-716 | doubling makes room and keeps the slots |
| AwkRecord.SetFieldMeans | usr/bin/awk.c:802-815 | a field that is set reads as set and the others as before, new ones in between as empty; NF reaches it and the record is joined again; setting the record splits it |
| AwkRecord.AssignMeans | usr/bin/awk.c:874 | setting NF keeps that many fields, makes empty ones, and joins the record again |
| AwkFields.JoinOfSplit | usr/bin/awk.c:742-753 | joining the fields of a record with its separator gives the record back |
| AwkFields.SplitOfJoin | usr/bin/awk.c:742-753 | splitting a joined record gives the fields back |
| AwkFields.SplitOfJoinExactly | usr/bin/awk.c:742-753 | that holds exactly when there is a field and none holds the separator |
| AwkFields.SplitCharFields | usr/bin/awk.c:742-753 | no field holds the separator |
| AwkFields.SplitBlankMeans | usr/bin/awk.c:732-741 | blank splitting keeps every other character in order, in words without blanks |
| AwkFields.SplitBlankCat | usr/bin/awk.c:732-741 | a blank separates: both sides are split on their own |
| AwkFields.SplitBlankWord | usr/bin/awk.c:732-741 | a text without blanks is one field |
| AwkFields.EachMeans | usr/bin/awk.c:754-758 | without a separator field k is character k |
| AwkFields.JoinCat | usr/bin/awk.c:781-793 | joining two lists puts the separator between what they are joined to |
| AwkFields.SplitOnBlanks | usr/bin/awk.c:732-741 | the cursor loops split on blanks |
| AwkFields.SplitOnChar | usr/bin/awk.c:742-753 | the cursor loop splits on a character |
| AwkArray.Arr.constructor | usr/bin/awk.c:645 | a new array holds nothing |
| AwkArray.Arr.Find | usr/bin/awk.c:648-649 | the walk along a bucket finds the entry of a key exactly when there is one |
| AwkArray.Arr.Lookup | usr/bin/awk.c:646-650 | looks a key up without creating it |
| AwkArray.Arr.GetOrCreate | usr/bin/awk.c:646-653 | returns the entry with the value of the key, creating a missing one in front of its bucket, and changes no other key |
| AwkArray.Arr.Store | usr/bin/awk.c:878-879 | a value stored through the entry changes that key only |
| AwkArray.Arr.Put | usr/bin/awk.c:878-879 | assignment sets that key and no other |
| AwkArray.Arr.Unlink | usr/bin/awk.c:658 | redirecting one link removes that key and no other |
| AwkArray.Arr.Delete | usr/bin/awk.c:654-659 | deletes the key if it is there and changes no other |
| AwkArray.Arr.Clear | usr/bin/awk.c:660-663 | afterwards no key is there |
| AwkArray.Arr.Keys | usr/bin/awk.c:1278 | a `for` loop over the array visits every key once |
| AwkArray.Arr.Do | usr/bin/awk.c:646-663 | reading (which creates), membership, assignment, `delete` of a key and of all keys each answer and change the array as they do a plain map |
| AwkArray.Arr.Run | usr/bin/awk.c:646-663 | any sequence of them answers as the map does and leaves the pairs of the map |
| AwkArray.ApplyMeans | usr/bin/awk.c:646-663 | on the map: reading creates an element without a value, asking does not, and assigning and deleting touch one element |
| AwkArray.CutOut | usr/bin/awk.c:658 | after the write to the link that led to an entry, the chain is the old one without it |
| AwkArray.PushFront | usr/bin/awk.c:651-652 | an entry put in front of a chain that lacks its key keeps keys single and adds one pair |
| HexedOverlay.EveryRun | usr/bin/hexed.c:43-106 | after every run of typing, undo and save the edits are exact and fit the list, are none just when the view equals the file, and without a save the file is as it was |
| HexedRuns.RunRefines | usr/bin/hexed.c:43-106 | every run, step by step, does to the bytes shown and on disk what it does to a plain array; typing is refused only where it would change one byte too many |
| HexedRuns.StepRefines | usr/bin/hexed.c:61-106 | one command does |
| HexedRuns.EditedMeans | usr/bin/hexed.c:43-59 | a byte has an edit exactly when it is shown other than it is on disk |
| HexedRuns.SwapIsDelete | usr/bin/hexed.c:64-66 | the swap-removal deletes in place exactly for the last two edits |
| HexedRuns.RunsAlike | usr/bin/hexed.c:61-106 | a run agrees with in-place deletion at every step exactly when every edit that was dropped was one of the last two |
| HexedRuns.UndoTakesNewest | usr/bin/hexed.c:81-87 | after every such run undo takes back the byte that came to differ from the disk last, typing it again not counting |
| HexedRuns.UndoIsNewestExactly | usr/bin/hexed.c:61-87 | the first time an edit is dropped undo still takes the newest exactly when that edit was one of the last two |
| HexedRuns.UndoIsNotTheNewest | usr/bin/hexed.c:61-87 | on any file, three bytes changed and the first typed back: undo restores the second and leaves the third |
| HexedOverlay.PutShows | usr/bin/hexed.c:61-79 | typing a byte changes the view there and nowhere else, unless the list is full |
| HexedOverlay.PutExact | usr/bin/hexed.c:61-79 | one edit per byte, inside the file, with the file's byte remembered and a different value, also after the swap-removal |
| HexedOverlay.DirtyMeans | usr/bin/hexed.c:78 | there are edits exactly when view and file differ |
| HexedOverlay.UndoShows | usr/bin/hexed.c:81-87 | undo gives one byte its file value back and changes the view |
| HexedOverlay.WriteShows | usr/bin/hexed.c:93-100 | one write of a save leaves the view alone and moves the file towards it |
| HexedOverlay.StoppedSave | usr/bin/hexed.c:93-100 | after a save that stops, the remembered bytes are right exactly when no byte was written |
| HexedOverlay.EditShows | usr/bin/hexed.c:43-59 | an edit is found by its offset and its value is what is shown |
| Hexed.Hexed.constructor | usr/bin/hexed.c:351-365 | a freshly opened file is shown as it is |
| Hexed.Hexed.FindEdit | usr/bin/hexed.c:43-46 | the loop finds the first edit at an offset |
| Hexed.Hexed.ByteShown | usr/bin/hexed.c:48-59 | reads the view inside the file, and says an edit covers a byte just when it differs from the file |
| Hexed.Hexed.PutEdit | usr/bin/hexed.c:61-79 | the array, its count and the dirty flag after typing a byte, in place |
| Hexed.Hexed.UndoLast | usr/bin/hexed.c:81-87 | moves the cursor to the byte that got its file value back, or says there is nothing |
| Hexed.Hexed.SaveFile | usr/bin/hexed.c:89-106 | success makes the file equal the view; the view stays in every case, also when a write fails |
| Hexed.Hexed.SameAt | usr/bin/hexed.c:264-270 | the comparison reads the chunk with the edits over it |
| Hexed.Hexed.SearchFrom | usr/bin/hexed.c:247-279 | the first offset at or after the start where the view matches, across chunk borders, or -1 when there is none |
| Hexed.Hexed.DoSearch | usr/bin/hexed.c:295-309 | "not found" exactly when the pattern occurs nowhere; otherwise the next match after the cursor, or else the first |
| DiffTool.DiffSound | usr/bin/diff.c:109-189 | for any two files the hunks follow one another, patch the first into the second from their text alone, and are none exactly when the files are equal |
| DiffTool.RunDiff | usr/bin/diff.c:150-189 | the loop prints exactly those hunks; the exit code is 0 exactly for equal files |
| DiffTool.Brief | usr/bin/diff.c:225-231 | -q gives the same exit code |
| DiffTool.FindMeeting | usr/bin/diff.c:160-174 | the nested look-ahead loops find the first meeting place in their order |
| DiffTool.EmitChunk | usr/bin/diff.c:130-148 | one hunk as lines of text |
| DiffTool.HeaderText | usr/bin/diff.c:109-128 | the header of a hunk |
| DiffTool.PrintBlock | usr/bin/diff.c:101-107 | every line of a range with its prefix |
| Diff.PatchOf | usr/bin/diff.c:109-189 | any hunks that follow one another, printed, patch the first file into the second |
| Diff.HunksFollow | usr/bin/diff.c:150-189 | hunks are in order, not empty, with equal lines between them and at least one common line after each but the last |
| Diff.NoHunks | usr/bin/diff.c:150-189 | there are no hunks exactly when the rest of both files is equal |
| Diff.LookFindsNearest | usr/bin/diff.c:160-174 | the meeting place is the nearest one within 64 lines, and the one with fewest lines of the first file |
| Diff.HunkAtMoves | usr/bin/diff.c:160-185 | every hunk moves on, so the loop ends, and ends at the nearest place within 64 lines where the files meet, or at both ends when there is none |
| DiffText.ReadHeaderOf | usr/bin/diff.c:109-128 | the ranges of a hunk can be read back from its header |
| DiffText.ReadShow | usr/bin/diff.c:117-121 | a printed number is read back |
| DiffText.ShowAt | usr/bin/diff.c:117-121 | numbers are printed in base ten, digit by digit |
| DiffText.ShowFront | usr/bin/diff.c:117-121 | with no zero in front |
| Fdisk.Table.FindFreeStart | usr/bin/fdisk.c:205-220 | terminates on any table with the least multiple of 2048, at least 2048, in no partition |
| Fdisk.Table.FindFreeEnd | usr/bin/fdisk.c:222-232 | the last usable sector before the next partition |
| Fdisk.FreeRange | usr/bin/fdisk.c:205-232 | every sector of the range offered is free, and the one after it is not |
| Fdisk.AddSound | usr/bin/fdisk.c:293-296 | a partition put into that range keeps the table sound |
| Fdisk.SkipPart | usr/bin/fdisk.c:212-215 | moving past a partition skips no free aligned sector |
| Fdisk.FirstGapOnly | usr/bin/fdisk.c:259-262 | on any disk with a first gap of one sector the message is wrong as soon as there is room behind the partition |
| Fdisk.LastSectorOnly | usr/bin/fdisk.c:259-262 | on an empty table whose last usable sector is 2048 (an MBR disk of 2049 sectors) the message is given though a partition of that sector fits |
| Fdisk.RoomIsEnough | usr/bin/fdisk.c:255-299 | there is room at an aligned sector exactly when some partition that starts there keeps the table sound |
| Fdisk.NoSpaceMeans | usr/bin/fdisk.c:205-262 | "no free space" is said exactly when the first free aligned sector is at the limit or a partition starts right after it |
| Fdisk.NoSpaceIsRight | usr/bin/fdisk.c:205-262 | without the message there are two free sectors; the message is right (no free aligned sector up to the limit) exactly unless the first free aligned sector is the limit, or lies below it and a partition starts right after it |
| Fdisk.AlignedIsRight | usr/bin/fdisk.c:205-262 | where every partition starts aligned the message is right exactly unless the first free aligned sector is the limit |
| Fdisk.NoPairIsRight | usr/bin/fdisk.c:205-262 | taken as "no aligned sector with the next one free" the message is right exactly unless the first free aligned sector is shut in and there are two elsewhere; always where starts are aligned |
| Fdisk.Table.Offer | usr/bin/fdisk.c:260-262 | the free range offered, when the message is given, and when it is right |
| Fdisk.Table.FindSlot | usr/bin/fdisk.c:256-257 | the first free slot |
| Fdisk.Table.New | usr/bin/fdisk.c:255-299 | which of the five outcomes, when "no free space" is right, first and last sector of the partition added, its range on GPT and MBR disks, and that partitions stay disjoint and in range |
| Fdisk.Table.Delete | usr/bin/fdisk.c:301-310 | frees one used slot and nothing else |
| Fdisk.Table.Relabel | usr/bin/fdisk.c:312-328 | an empty table of the other kind |
| Fdisk.Table.Run | usr/bin/fdisk.c:255-328 | every run of commands keeps partitions disjoint, not empty and in the usable range; aligned starts stay so, a new label makes them so, and then "no free space" is right exactly unless the first free aligned sector is the last usable one |
| Fdisk.Table.ValidIsLaid | usr/bin/fdisk.c:205-232 | partitions share no sector, and stay off the first 34 and last 33 sectors of a GPT disk and off sector 0 of an MBR disk |
| Calendar.CivilIsDayNumber | usr/bin/herd.c:671-679 | the closed form equals adding up years and months, for every date from 1970 on |
| Calendar.CivilMonth | usr/bin/herd.c:671-679 | within any year at all it counts months as adding up does |
| Calendar.DayNumberOnce | usr/bin/date.c:61-65 | no two dates share a day number |
| Calendar.FirstDowNext | usr/bin/cal.c:30-38 | each month starts on the weekday where the one before it ended |
| Calendar.FirstDowCycle | usr/bin/cal.c:30-38 | the calendar repeats every 400 years |
| Calendar.FirstDowRight | usr/bin/cal.c:30-38 | the weekday is right exactly for years from 1970 on and earlier ones that begin on a Thursday |
| Calendar.WrongIn1969 | usr/bin/cal.c:30-38 | the first of January 1969 is put on a Thursday and was a Wednesday |
| CalendarTools.CountDays | usr/bin/date.c:61-65 | the summing loops compute the day number |
| CalendarTools.Decode | usr/bin/cal.c:52-67 | the decoding loops give the one date with that day number, which the closed form maps back |
| CalendarTools.CountFirstDow | usr/bin/cal.c:30-38 | the loops of `first_dow` compute its weekday |
| CalendarTools.ReadClock | usr/bin/date.c:54-66 | a clock reading in range is counted in seconds, which gives a positive time; any other gives 0 |
| CalendarTools.ShowTime | usr/bin/date.c:79-94 | the one moment that counts to the given time |
| CalendarTools.SecondsOnce | usr/bin/date.c:54-66 | no two moments count to the same time |
| CalendarTools.TickCounts | usr/bin/date.c:54-66 | the second after, by clock and calendar, counts one more |
| CalendarTools.EpochIsZero | usr/bin/date.c:54-66 | the count starts at 0 with 1970 |
| CalendarTools.TomorrowCounts | usr/bin/date.c:54-66 | the day after, by the calendar, counts one more |
| CrcTable.Crc32.Sum | usr/bin/ar.c:54-60 | for every message the table method gives the checksum of the bit-by-bit register |
| CrcTable.Crc32.Init | usr/bin/ar.c:42-52 | entry i of the table is eight steps from i; a second call changes nothing |
| CrcTable.FilledShows | usr/bin/herd.c:1632 | a filled table has no 0 in entry 1, which is how herd tells it is filled |
| Crc.ByteStep | usr/bin/ar.c:58 | feeding a byte is eight steps, and equals one table entry against the shifted register |
| Crc.FeedSteps | usr/bin/ar.c:47-49 | feeding n bits is n steps of the register against them |
| Crc.StepsXor | usr/bin/ar.c:47-49 | steps are linear |
| Crc.TableStep | usr/bin/ar.c:58 | eight steps split into the table entry of the low byte and a shift |
| CrcDivision.ChecksumIsRemainder | usr/bin/ar.c:54-60 | for every message, with its first 32 bits inverted and 32 zeros behind it, the complement of the checksum is the remainder of the division by the generator |
| CrcDivision.FeedDivides | usr/bin/ar.c:42-60 | the register is the remainder of what it held and what it was fed |
| CrcDivision.DividedOnce | usr/bin/ar.c:42-60 | quotient and remainder are unique |
| CrcDivision.PolyBits | usr/bin/ar.c:42-52 | the constant of the program is that generator, reflected |
| CrcDetect.BurstSeen | usr/bin/ar.c:54-60 | messages that differ only within four bytes in a row have different checksums |
| CrcDetect.FeedLinear | usr/bin/ar.c:54-60 | the register is linear in what it held and what it is fed |
| CrcDetect.FeedOnce | usr/bin/ar.c:54-60 | what follows a difference keeps it |
| CrcDetect.StepsOnce | usr/bin/ar.c:47-49 | steps lose nothing |

## Left out

- The kernel, drivers, networking, the C library and the small tools: other programs, or easy members only.
- csh: fork, exec, pipes, redirections, globbing, aliases and jobs; what a command does is a function of the line and the store.
- csh: variable expansion is part of that function, so command substitution and `$RANDOM` that change state while a line is read are not modelled; neither are the buffer sizes of names and tokens.
- csh: `g_else_of` is filled by the block pass and never read, so the model does not hold it.
- CshShell.Shell.RunScript: takes a bound on the turns of the loop, since a script may run forever; its contract and the theorems hold for every bound.
- CshEvaluator.EvalInt: signed overflow wraps around and shift counts are taken modulo 64, where C leaves both undefined.
- CshEvaluator.EvalPrimary: `v` and its cursor are values, not a pointer that is passed along.
- herd: downloading, index parsing, signatures, the file system and removal; prompts are answered with yes, and whether an install works is a parameter.
- HerdSystem.Herd.PlanInstall: the index is acyclic, since on a dependency cycle the recursion of the program does not end; names are not cut to 63 bytes.
- HerdVersion.VersionCmp: numbers are unbounded, where the program's `long` overflows beyond 18 digits.
- TarProof.RoundTrip: needs paths under 512 bytes, links under 100, sizes below 8^11 and at most as many entries as the reader keeps; the clock is a parameter; `extract_tar` and gzip are not modelled.
- neo: inserting and deleting whole rows, undo, search and drawing; the language tables are parameters.
- AwkRecord.Record.Run: separators stay the same while a record lives and are not regular expressions.
- AwkRecord.Record.Set: the field number is not negative; with a negative one the program writes in front of its field table.
- AwkRecord.Record.Assign: the number is not negative; with a negative one the program frees entries in front of its field table.
- CshInvariant.Reachable: needs a loop around every `break` in an `if`, since a stray one undoes the frames that would mirror the open blocks.
- AwkArray: the memory of removed entries; `global_cell` is the same structure without deletion.
- awk: the parser, expressions, regular expressions and output.
- Hexed.Hexed.SearchFrom: reads return what is asked for and the buffer can be allocated.
- Hexed.Hexed.SaveFile: after a write that failed part way the remembered bytes are out of date, and later commands are not followed from there.
- Hexed.Hexed.PutEdit: the offset is inside the file, as drawing the screen keeps the cursor there.
- hexed: drawing, keys, parsing of patterns and offsets.
- diff: reading files into lines, colours, and bytes 0 inside a line.
- Fdisk.Table.New: type names, boot flags and partition names are not kept; sizes are given in sectors.
- Fdisk.Table.Run: the disk has at least 34 sectors; below that the program's unsigned subtraction wraps around.
- fdisk: reading and writing the tables on disk, and cutting numbers to 32 bits there.
- date: its weekday names, whose table and index do not agree, and reading the clock chip.
- cal: the layout of the month.
- ar: the archive and zip formats around the checksum.
