# U-Boot common code: a verified model

This project models the parts of U-Boot's `common/` directory where a
step-by-step program has to agree with a simple object, and proves that it
does:

* the hush shell of `cli_hush.c`: characters to words, words through the
  keyword automaton to flat lists of tagged pipes, and the flag-driven loop
  that runs those lists; the variable list, parameter lookup and substitution;
* the line editor and history ring of `cli_readline.c`, with the bytes sent to
  the terminal;
* flash sector selection (`cmd_flash.c`), the Android sparse image writer
  (`aboot.c`), floppy reading with retries (`cmd_fdc.c`) and paged EEPROM
  transfer (`cmd_eeprom.c`);
* the bootstage stash (`bootstage.c`), printing and parsing of device tree
  properties (`cmd_fdt.c`), the memory reservation before relocation
  (`board_f.c`, `board_r.c`) and the ARM flash checksum (`cmd_armflash.c`).

The main results:

* **Shell.** `HushParsing.LineMeans`: for every script of simple commands,
  `if`/`elif`/`else`, `while`, `until`, `for` and chains of one operator,
  nested to any depth, and for every layout of its text (any blanks and comments,
  newlines or `;` inside compounds, words spelled with single and double quotes,
  backslashes and variables anywhere in them), the characters of the command line
  are parsed into a list on which the flag machine runs exactly the commands of
  the structured meaning, in order. Behind it stand
  `HushRefinement.LineRuns` (flag machine = structured evaluation),
  `HushStatus.ShellIsPosix` (that meaning is the one of sections 2.9.3 and 2.9.4
  of POSIX.1-2017 Shell Command Language wherever no differing status is read),
  the exact conditions `HushChains.PosixIffPure`, `HushControl.StatusIffSafe`,
  `HushControl.PosixIffStatusKept` and `HushExit.ExitKeptIffSimple`, and `HushKeywords.AcceptedIffDerivable`
  (accepted keyword sequences = sentences of the nested grammar).
* **Editor.** `LineEditor.Editor.ReadBytes`: for every run of editing, cursor
  and printable keys, replaying the emitted bytes shows the buffer with the
  cursor in place, and `EditorKeys.StrokesRead`: the buffer is what the keys say,
  given the bytes they arrive as. `History.KthPrev`: the ring is a zipper over the recent
  lines.
* **Devices.** `Flash.FillIffAligned`, `Flash.InsideIffNoWrap`, `Flash.CoversExactly`,
  `FlashCommand.PlusLengthIsMinimal`, `SparseImage.EncodedStream`, `Sparse.InsideIffLands`,
  `Floppy.Drive.ReadData`, `Eeprom.Bus.Write`, `Eeprom.ReadBackIff`.
* **Round trips and arithmetic.** `Bootstage.HandOver`, `Fdt.PrintedIsParsed`,
  `HushSubst.TemplateFilled`, `Board.GlobalData.ReserveAll`,
  `Checksum.SelfChecking`.

Code that changes state is a class or a method over arrays with loops; its
contract ties the new state to a function, and the lemmas are about that
function. Calls into the world (commands, block writes, I2C, drive registers,
`getenv`, memory reads) are parameters: functions that may answer anything.

Where code and its promises differ, the model follows the code, a lemma names an
input, and a theorem says exactly when the promise is kept:

* A chain that mixes `&&` and `||` is abandoned at the first operator that does
  not want its command (`HushChains.MixedChainDiffers`, `HushChains.PosixIffPure`).
* The status of a compound command is that of the last command that ran in it,
  so an `if` whose arms are not taken has its condition's status and a finished
  `while` is never 0; POSIX gives 0, or the status of the last body
  (`HushStatus.UntakenIfDiffers`, `HushStatus.LoopStatus`, `HushControl.StatusIffSafe`,
  `HushControl.PosixIffStatusKept`).
* `exit` inside a compound ends the shell with status 0 (`HushExit.ExitStatus`,
  `HushExit.ExitKeptIffSimple`).
* An `elif` behind a `then` without any pipe is never reached
  (`HushRefinement.EmptyThenStops`). POSIX has no empty `then`, so the
  well-formedness of scripts asks for one pipe there.
* A word that ends in an unpaired backslash makes both passes of done_word read
  behind its zero (`HushReader.QuotedBackslashDangles`, `HushReader.PassesStayIff`,
  `HushReader.RunPaired`).
* `${x:+d}` inserts `d` when `x` is unset or empty and nothing when it is set, the
  reverse of section 2.6.2 (`HushSubst.AlternativeReversed`,
  `HushSubst.AlternativeIffEmpty`); the assignment of `${x:=d}` can stay without
  effect (`HushSubst.AssignSeenIff`).
* Sector selection wraps when a bank that ends at the top of the address space
  stands in front of one that starts at 0 (`Flash.TopOfSpaceWraps`,
  `Flash.InsideIffNoWrap`).
* A sparse image whose block numbers wrap is written outside its partition
  (`SparseImage.WrappingImage`, `Sparse.InsideIffLands`).
* A write page of more than 8 bits is not respected by the EEPROM writer unless
  bytes go one at a time (`Eeprom.ChunksStayIff`); an offset plus count beyond
  32 bits writes nothing and reports success.
* A stash header whose count wraps next_id passes when no size is given
  (`Bootstage.WrappingPasses`, `Bootstage.ChecksIntendedIff`).
* A property whose bytes look like text and end with a newline counts as text
  only if the byte behind it is zero, and its strings do not parse back to it;
  neither do those of a text that starts with a bracket (`Fdt.StringsRoundIff`).

## Model

| member | source | states |
|---|---|---|
| `HushRefinement.LineRuns` | uboot-imx/common/cli_hush.c:1744-1911 | for every well-formed script, every world and every bound on jumps back, the flag machine on the flattened line has exactly the history and outcome of the structured evaluation |
| `HushRefinement.CompoundRuns` | uboot-imx/common/cli_hush.c:1782-1911 | the flattened list of any compound command runs as its structured meaning, including nested groups |
| `HushRefinement.CommandRuns` | uboot-imx/common/cli_hush.c:1565-1571 | a pipe's program, simple or group, has the outcome of the command it stands for |
| `HushRefinement.ScriptRuns` | uboot-imx/common/cli_hush.c:1782-1911 | wherever a section's pipes lie in a list, entering them with suitable flags runs the section and leaves at its end with the flags of its mode |
| `HushRefinement.ChainRuns` | uboot-imx/common/cli_hush.c:1800-1805 | the pipes of an and-or chain run as the chain, skipping to its end after an unwanted operator |
| `HushRefinement.ArmsRun` | uboot-imx/common/cli_hush.c:1806-1809 | the double-buffered if_code picks the first arm whose condition succeeds, else the else part |
| `HushRefinement.LoopRuns` | uboot-imx/common/cli_hush.c:1783-1797 | flag_rep, flag_restore and rpipe repeat a while or until loop as its meaning does |
| `HushRefinement.ForRuns` | uboot-imx/common/cli_hush.c:1810-1843 | the for head expands its list once and runs the body once a value |
| `HushFor.ForInOrder` | uboot-imx/common/cli_hush.c:1810-1843 | a finished for, under any rule, has run one round for each field of its list, from the first to the last: the assignment NAME=FIELD, then the body |
| `HushFor.BareForRuns` | uboot-imx/common/cli_hush.c:1810-1843 | the flag machine on a for without body adds exactly one event a field, the i-th being the word NAME=FIELD of field i |
| `HushFor.SimpleRuns` | uboot-imx/common/cli_hush.c:1880-1892 | a line of one command runs it with its words as they are, reports its code, and exits on codes below -1 |
| `HushFor.BadForRefused` | uboot-imx/common/cli_hush.c:1760-1781 | a for without its in, one at the end of the list, or a second line of words behind in runs nothing and gives 1 |
| `HushRefinement.SkipTail` | uboot-imx/common/cli_hush.c:1800-1805 | once skipping starts, every pipe up to the end of the chain is passed over |
| `HushRefinement.EmptyThenStops` | uboot-imx/common/cli_hush.c:1806-1809 | an if whose first then holds no pipe runs its first condition and nothing else, whatever elif follows |
| `HushChains.PureChainsFollowed` | uboot-imx/common/cli_hush.c:1744-1911 | with one operator per chain, the run is the evaluation with the and-or lists of section 2.9.3 of POSIX.1-2017 and the status of the last command that ran |
| `HushChains.MixedChainDiffers` | uboot-imx/common/cli_hush.c:1800-1803 | every chain of simple commands that mixes operators is run differently from POSIX in some world, whatever the bound |
| `HushChains.PosixIffPure` | uboot-imx/common/cli_hush.c:1800-1803 | a chain of simple commands is run as POSIX demands in all worlds exactly when it does not mix operators |
| `HushStatus.ShellIsPosix` | uboot-imx/common/cli_hush.c:1744-1911 | for every script with one operator per chain in which no while, until or else-less if stands in front of an operator or last in a condition, exactly the commands of the evaluation of sections 2.9.3 and 2.9.4 of POSIX.1-2017 run, in order; if none stands last in the script either, the status is that of POSIX too; what an exit reports is the subject of `HushExit.ExitStatus` |
| `HushStatus.ScriptAlike` | uboot-imx/common/cli_hush.c:1897-1905 | the same between the two structured evaluations, for lists of any depth |
| `HushStatus.LoopStatus` | uboot-imx/common/cli_hush.c:1899-1902 | a finished while never has status 0, a finished until always has |
| `HushStatus.UntakenIfDiffers` | uboot-imx/common/cli_hush.c:1806-1809 | `if a; then b; fi && c` with a failing runs only a, where POSIX runs c as well |
| `HushControl.StatusIffSafe` | uboot-imx/common/cli_hush.c:1744-1911 | a script of any depth in which no differing status is read inside has the status of POSIX in all worlds exactly when no while, until or else-less if gives it its status at the end |
| `HushControl.PosixIffStatusKept` | uboot-imx/common/cli_hush.c:1744-1911 | a command of any depth, alone or in front of a chain, is run as POSIX demands in all worlds exactly when no while, until or else-less if gives it its status |
| `HushControl.ScriptSteered` | uboot-imx/common/cli_hush.c:1744-1911 | for every script there is a world in which it ends and its POSIX status is 0, and one in which it is 1 |
| `HushControl.ScriptDiffers` | uboot-imx/common/cli_hush.c:1897-1905 | for every script that ends with a differing status there is a world in which both meanings run the same commands and exactly one of them succeeds |
| `HushControl.SameBranchesHide` | uboot-imx/common/cli_hush.c:1806-1809 | a condition whose status differs need not show: with the same command in both branches the run is that of POSIX in all worlds |
| `HushExit.ExitStatus` | uboot-imx/common/cli_hush.c:1888-1891 | the exit status is that of the exiting command exactly when the command stands outside every compound or has status 0 |
| `HushExit.ScriptExit` | uboot-imx/common/cli_hush.c:1888-1891 | every exit is caused by the last command run, and under POSIX has its status |
| `HushExit.ExitKeptIffSimple` | uboot-imx/common/cli_hush.c:1565-1571 | a script whose commands all start with a simple one keeps the status of its exits in all worlds exactly when it has no compound |
| `HushShell.BoundIrrelevant` | uboot-imx/common/cli_hush.c:1782-1911 | a run that ends within a bound is the same under every larger one |
| `HushShell.ListBoundIrrelevant` | uboot-imx/common/cli_hush.c:1744-1911 | the same for whole lists with nested groups |
| `HushShell.Frame.LoopHead` | uboot-imx/common/cli_hush.c:1783-1797 | the loop-head assignments have the effect of the machine's AtHead |
| `HushShell.Frame.Choose` | uboot-imx/common/cli_hush.c:1798-1855 | the chain of tests on rmode and flags decides as the machine does |
| `HushShell.Frame.Note` | uboot-imx/common/cli_hush.c:1897-1905 | the flags after a command are those of the machine |
| `HushShell.Shell.RunPipeReal` | uboot-imx/common/cli_hush.c:1513-1571 | a group recurses into the list runner, a simple command asks the world |
| `HushShell.Shell.RunListReal` | uboot-imx/common/cli_hush.c:1744-1911 | the imperative loop over mutable flags returns the code and leaves the history of the machine, and `$?` is 0 or 1 by that code if anything ran |
| `HushShell.Shell.RunLine` | uboot-imx/common/cli_hush.c:1744-1911 | running a flattened script reports its structured meaning; the history is that of POSIX when no differing status is read inside it, the returned code when none is read at its end |
| `HushKeywords.OpenIffFlagged` | uboot-imx/common/cli_hush.c:2387-2432 | in every reachable context that is no error, old_flag is 0 exactly when the stack is empty |
| `HushKeywords.ForestAccepted` | uboot-imx/common/cli_hush.c:2372-2432 | any sequence of nested compounds leads the automaton from a context that takes commands back to it |
| `HushKeywords.CompletionExists` | uboot-imx/common/cli_hush.c:2372-2432 | every sequence that the automaton takes from a context to old_flag 0 completes that context as the grammar says |
| `HushKeywords.AcceptedIffDerivable` | uboot-imx/common/cli_hush.c:3191-3197 | a keyword sequence is accepted exactly when some nesting of if, for, while and until produces it |
| `HushParser.ReservedWordIsStep` | uboot-imx/common/cli_hush.c:2387-2432 | the parser's handling of a reserved word is the automaton's step on its stack |
| `HushParser.KeywordErrors` | uboot-imx/common/cli_hush.c:2459-2464 | behind a keyword done_word fails exactly when reserved_word refuses it or a pop brings back a context in error |
| `HushParsing.KeywordIff` | uboot-imx/common/cli_hush.c:2372-2384 | exactly eleven words are reserved; every other word can name a command |
| `HushParsing.SpecialIff` | uboot-imx/common/cli_hush.c:3153-3166 | exactly blanks, newline, semicolon, ampersand, bar, hash, dollar, backslash, the quotes and the marker of substituted text are special |
| `HushParsing.ScriptParsed` | uboot-imx/common/cli_hush.c:2936-3122 | parsing a script's tokens appends exactly its flattened pipes to the open context |
| `HushParsing.CommandParsed` | uboot-imx/common/cli_hush.c:2387-2523 | parsing a command's tokens leaves its words or its group in the current child |
| `HushParsing.TextParsed` | uboot-imx/common/cli_hush.c:2951-3122 | characters to tokens: any layout with blanks between words, comments, newlines only inside compounds and any spelling of the arguments is parsed as its tokens |
| `HushParsing.LineParsed` | uboot-imx/common/cli_hush.c:3170-3199 | the list parsed from any layout of a line is the flattening of its script with the empty units that the newline and the end of input add |
| `HushParsing.LineMeans` | uboot-imx/common/cli_hush.c:3170-3205 | from the characters of a line, in any layout, to the commands run and the outcome: the structured meaning of the script, which is that of POSIX where no differing status is read |
| `HushParsing.PiecesRead` | uboot-imx/common/cli_hush.c:2951-3122 | a word spelled with plain text, backslashes, single and double quotes, `$name`, `${param}` and `$?` in any order is gathered whole |
| `HushParsing.DataUndone` | uboot-imx/common/cli_hush.c:2469-2498 | the copy of what was gathered is the value of the pieces, one behind the other, with variables between their markers |
| `HushParsing.LoneRefused` | uboot-imx/common/cli_hush.c:3060-3085 | a single ampersand or bar is a syntax error |
| `HushParsing.OpenRefused` | uboot-imx/common/cli_hush.c:3002-3013 | a single quote or `${` without its mate is a syntax error |
| `HushParsing.LoneLineRefused` | uboot-imx/common/cli_hush.c:3187-3200 | a line with a single ampersand behind its first word is refused |
| `HushParsing.OpenLineRefused` | uboot-imx/common/cli_hush.c:3191-3197 | a line that leaves an if open is refused |
| `HushParsing.WordBehindRefused` | uboot-imx/common/cli_hush.c:2457-2460 | a word behind a finished compound is a syntax error |
| `HushParsing.QuotedIsOneWord` | uboot-imx/common/cli_hush.c:2962-3021 | text free of dollar, quotes and marker and without dangling backslash, in double quotes in argument position, is one argument equal to the text |
| `HushParser.EscapeAdds` | uboot-imx/common/cli_hush.c:911-919 | inside double quotes, and only there, `*`, `?`, `[` and the backslash are gathered behind a backslash |
| `HushParsing.EscapeUndone` | uboot-imx/common/cli_hush.c:2469-2498 | the copy into argv removes exactly the backslashes that quoting added |
| `HushReader.PassesStayIff` | uboot-imx/common/cli_hush.c:2469-2498 | both passes over a word stop at its zero, whatever lies behind it, exactly when the word has no unpaired final backslash; else they read on behind it |
| `HushReader.QuotedBackslashDangles` | uboot-imx/common/cli_hush.c:2469-2498 | the quoted text of an a and a backslash is gathered as such a word, and both passes read behind it |
| `HushReader.CopyIsWord` | uboot-imx/common/cli_hush.c:2494-2498 | where the passes end inside the memory, the copy read as a C string is the unescaped word |
| `HushReader.RunPaired` | uboot-imx/common/cli_hush.c:2951-3122 | no run of the character loop over input without single quotes and substitution markers gathers an unpaired backslash |
| `HushReader.BackslashNeverLast` | uboot-imx/common/cli_hush.c:3258-3263 | whatever string parse_string_outer is given, no round of the parse of what it makes of it meets a backslash as the last character |
| `HushReader.SizeWord` | uboot-imx/common/cli_hush.c:2469-2472 | the sizing pass over the memory counts exactly the characters that the copying pass writes, and its zero |
| `HushReader.CopyWord` | uboot-imx/common/cli_hush.c:2494-2498 | the copying pass fills the allocated array exactly, reading the same memory |
| `HushReader.TakeWord` | uboot-imx/common/cli_hush.c:2469-2498 | whatever ends behind the word, the argument is the unescaped word |
| `HushReader.Parser.AddQChr` | uboot-imx/common/cli_hush.c:911-919 | a character is gathered, escaped where it has to be |
| `HushReader.Parser.FinishPipe` | uboot-imx/common/cli_hush.c:2527-2589 | the open command joins the list under the current mode, and a fresh one is opened |
| `HushReader.Parser.PushContext` | uboot-imx/common/cli_hush.c:2394-2407 | an opening keyword saves the context and starts a new one |
| `HushReader.Parser.PopContext` | uboot-imx/common/cli_hush.c:2416-2428 | a closing keyword makes the finished list the group of the saved context |
| `HushReader.Parser.TakeKeyword` | uboot-imx/common/cli_hush.c:2387-2432 | updating the context in place is the specified keyword handling, errors included |
| `HushReader.Parser.FinishWord` | uboot-imx/common/cli_hush.c:2436-2523 | ending a word in place is the specified word handling |
| `HushReader.Parser.ReadChar` | uboot-imx/common/cli_hush.c:2951-3122 | one turn of the character loop is the specified one and always consumes input |
| `HushReader.Parser.ReadStream` | uboot-imx/common/cli_hush.c:2936-3122 | the loop's return code and context are those of the specified parse |
| `HushVariables.ListIsMap` | uboot-imx/common/cli_hush.c:2145-2264 | after any run of set and unset calls names are distinct, HUSH_VERSION is first with value 0.01, and lookups agree with a finite map under the same calls |
| `HushVariables.SetAgrees` | uboot-imx/common/cli_hush.c:2145-2234 | one set call keeps the agreement with the map |
| `HushVariables.UnsetAgrees` | uboot-imx/common/cli_hush.c:2236-2264 | one unset call keeps the agreement and the distinct names |
| `HushVariables.SetLookup` | uboot-imx/common/cli_hush.c:2145-2234 | a set call changes the value of its own name only, and not that of the version |
| `HushVariables.SetOutcome` | uboot-imx/common/cli_hush.c:2145-2234 | list and code after a set call for NAME=VALUE, case by case: refused, new, unchanged, exported, changed |
| `HushVariables.VariableList.GetLocalVar` | uboot-imx/common/cli_hush.c:2123-2140 | a lookup gives the first entry of that name, or the special dollar variable |
| `HushVariables.VariableList.SetLocalVar` | uboot-imx/common/cli_hush.c:2145-2234 | list and result after a set call, with all its refusals |
| `HushVariables.VariableList.UnsetLocalVar` | uboot-imx/common/cli_hush.c:2236-2264 | the entry goes unless it is missing or read-only |
| `HushSubst.TemplateFilled` | uboot-imx/common/cli_hush.c:3519-3581 | for any literal segments and parameters written with paired markers, substitution gives the literals interleaved with the looked-up values, assignments of `:=` taking effect from left to right |
| `HushSubst.InsertedFlat` | uboot-imx/common/cli_hush.c:3568-3581 | the returned text is the filled template with every newline a space, unless it has no parameter at all |
| `HushSubst.PlainLookup` | uboot-imx/common/cli_hush.c:2754-2803 | a parameter without operator inserts the environment's value, else the return code in decimal for `$?`, else the variable's value, else nothing, and changes nothing |
| `HushSubst.DefaultIsPosix` | uboot-imx/common/cli_hush.c:2786-2794 | `:-` and `:=` insert what section 2.6.2 of POSIX.1-2017 demands |
| `HushSubst.AlternativeIffEmpty` | uboot-imx/common/cli_hush.c:2786-2796 | `:+` inserts what section 2.6.2 demands exactly when its word is empty |
| `HushSubst.AlternativeReversed` | uboot-imx/common/cli_hush.c:2786-2796 | `${x:+d}` with x set and without x: each gives what POSIX gives for the other |
| `HushSubst.AssignSeenIff` | uboot-imx/common/cli_hush.c:2786-2794 | the assignment of `:=` is seen by later lookups exactly when the word is empty or the variable list takes it and no environment variable hides it |
| `HushSubst.FieldsOfJoined` | uboot-imx/common/cli_hush.c:3596-3616 | words joined by any number of spaces are split into the same words |
| `HushSubst.ReadParam` | uboot-imx/common/cli_hush.c:2765-2800 | name, operator and default of a parameter are read with the buffer restored |
| `HushSubst.LookupInPlace` | uboot-imx/common/cli_hush.c:2754-2803 | the lookup with `:-`, `:=` and `:+` gives the specified value and store, and the buffer is restored byte for byte |
| `HushSubst.SubstituteInPlace` | uboot-imx/common/cli_hush.c:3526-3575 | the marker loop computes the specified text and store and restores the buffer |
| `HushSubst.InsertInPlace` | uboot-imx/common/cli_hush.c:3519-3581 | the whole substitution, newlines turned into spaces, with the input as it was |
| `HushSubst.SplitValue` | uboot-imx/common/cli_hush.c:3596-3616 | the inner loop of make_list_in gives NAME=FIELD for every field in order |
| `HushSubst.PlainFields` | uboot-imx/common/cli_hush.c:3583-3621 | words without parameters and blanks are their own fields |
| `HushSubst.FieldsOfWord` | uboot-imx/common/cli_hush.c:3593-3616 | a word with parameters contributes the fields of its filled text, newlines counting as blanks |
| `HushSubst.MakeListIn` | uboot-imx/common/cli_hush.c:3583-3621 | the whole list of a for: NAME=FIELD for every field of every substituted word, in order, which is the list that the machine hands out |
| `Terminal.ReplayText` | uboot-imx/common/cli_readline.c:202-233 | displayable characters fill the cells from the cursor on and move it |
| `Terminal.ReplayBack` | uboot-imx/common/cli_readline.c:178-200 | backspaces move the cursor and change no cell |
| `Terminal.Redraw` | uboot-imx/common/cli_readline.c:178-233 | text, blanks and backspaces sent behind an unchanged prefix turn the display of one line into that of another |
| `Terminal.Strays` | uboot-imx/common/cli_readline.c:178-183 | a backspace too many drives the cursor into the prompt for good, so that a shown line has had none |
| `EditorKeys.StrokesRead` | uboot-imx/common/cli_readline.c:261-459 | any run of keys, sent as control codes or as cursor sequences given byte by byte, moves, deletes, kills, types and recalls as on a line split at the cursor with a list of at most 19 recallable lines |
| `EditorKeys.BrokenRead` | uboot-imx/common/cli_readline.c:280-323 | an escape sequence that is no cursor key is typed into the line: ESC alone, the byte behind it being lost, or all three bytes |
| `EditorKeys.StrokesTame` | uboot-imx/common/cli_readline.c:261-459 | such runs are in the scope of the display theorem |
| `LineEditor.Editor.InsertKey` | uboot-imx/common/cli_readline.c:207-225 | a key in insert mode shifts the rest of the line, and the display follows |
| `LineEditor.Editor.OvertypeKey` | uboot-imx/common/cli_readline.c:226-232 | a key in overtype mode replaces the character under the cursor, and the display follows |
| `LineEditor.Editor.AddKey` | uboot-imx/common/cli_readline.c:202-233 | a key is inserted, overtypes or is dropped when the buffer is full |
| `LineEditor.Editor.AddKeys` | uboot-imx/common/cli_readline.c:235-243 | a string is added key by key, and the display follows |
| `LineEditor.Editor.Home` | uboot-imx/common/cli_readline.c:178-183 | the cursor goes to column 0 on both sides |
| `LineEditor.Editor.Left` | uboot-imx/common/cli_readline.c:352-357 | the cursor goes one column back on both sides |
| `LineEditor.Editor.Advance` | uboot-imx/common/cli_readline.c:194-200 | sending the characters up to a column moves the cursor there and changes nothing shown |
| `LineEditor.Editor.EraseToEol` | uboot-imx/common/cli_readline.c:185-192 | the line is cut at the cursor and its cells are blanked |
| `LineEditor.Editor.EraseLine` | uboot-imx/common/cli_readline.c:382-386 | line and display become empty |
| `LineEditor.Editor.DeleteHere` | uboot-imx/common/cli_readline.c:358-372 | the character under the cursor goes, the rest closes up in buffer and display |
| `LineEditor.Editor.Rubout` | uboot-imx/common/cli_readline.c:387-402 | the character in front of the cursor goes |
| `LineEditor.Editor.Recall` | uboot-imx/common/cli_readline.c:420-431 | a history line replaces the line in buffer and display |
| `LineEditor.Editor.Browse` | uboot-imx/common/cli_readline.c:403-432 | ^P and ^N walk the recent lines and show what they find |
| `LineEditor.Editor.PressKey` | uboot-imx/common/cli_readline.c:329-458 | every key of the switch edits line, cursor and mode as specified and keeps the display |
| `LineEditor.Editor.ReadByte` | uboot-imx/common/cli_readline.c:261-459 | one input byte, escape sequences included; escLen is 0 whenever the switch is entered |
| `LineEditor.Editor.ReadBytes` | uboot-imx/common/cli_readline.c:261-459 | after any bytes up to the end of the line, broken escape sequences included, line, cursor and history place are those of the plain editing functions and num <= eol_num <= len holds; after any run of tame keys the replayed output shows the line and cursor |
| `LineEditor.Editor.ReadLine` | uboot-imx/common/cli_readline.c:460-467 | Enter terminates the buffer, returns its length and stores the line unless it is empty or starts with the history character |
| `History.AddHolds` | uboot-imx/common/cli_readline.c:101-112 | adding a line to a ring that holds some lines gives a ring that holds those and the new one |
| `History.EnteredHolds` | uboot-imx/common/cli_readline.c:86-112 | after any number of completed lines the ring holds the most recent ones |
| `History.PrevBrowses` | uboot-imx/common/cli_readline.c:114-134 | hist_prev gives the next older line and moves, or gives NULL and stays |
| `History.NextBrowses` | uboot-imx/common/cli_readline.c:136-155 | hist_next gives the next newer line, the empty line in front of the newest, or NULL |
| `History.NextUndoesPrev` | uboot-imx/common/cli_readline.c:114-155 | the two are inverse wherever they move |
| `History.KthPrev` | uboot-imx/common/cli_readline.c:114-134 | the k-th hist_prev behind a completed line gives the k-th most recent line for k up to the smaller of stored lines and HIST_MAX-1, and NULL from then on |
| `History.Log.Finish` | uboot-imx/common/cli_readline.c:463-465 | updating the ring's indices in place stores the line and rewinds |
| `History.Log.Older` | uboot-imx/common/cli_readline.c:114-134 | the index arithmetic in place is one step to the older line |
| `History.Log.Newer` | uboot-imx/common/cli_readline.c:136-155 | and one step to the newer one |
| `Flash.SectorsTile` | uboot-imx/common/cmd_flash.c:219-226 | each address of a bank lies in exactly one sector |
| `Flash.ScanFinds` | uboot-imx/common/cmd_flash.c:223-239 | the sector loop finds a start and an end on the given addresses exactly when there are any |
| `Flash.VisitMeans` | uboot-imx/common/cmd_flash.c:215-269 | what one bank contributes: chosen sectors start at the address and end at the last one or at the bank's end |
| `Flash.VisitFails` | uboot-imx/common/cmd_flash.c:236-268 | which of the faults a bank raises, or that it is passed over, by the addresses of its sectors; a start on the last byte of a bank is no fault |
| `Flash.NothingOutside` | uboot-imx/common/cmd_flash.c:192-273 | for any banks in any order, if no bank that ends at the last address stands in front of one that starts at 0, a successful call for any range selects no sector outside it |
| `Flash.InsideIffNoWrap` | uboot-imx/common/cmd_flash.c:192-273 | disjoint banks keep every selection inside its range exactly when there is no such pair |
| `Flash.WrapShows` | uboot-imx/common/cmd_flash.c:257-259 | with such a pair, the range from its first bank to the top succeeds and selects its second bank |
| `Flash.TopOfSpaceWraps` | uboot-imx/common/cmd_flash.c:257-259 | two banks and a range ending at the last address for which a sector outside is selected |
| `Flash.FillIffAligned` | uboot-imx/common/cmd_flash.c:192-273 | in gap-free flash filling succeeds with a nonzero count exactly when both ends lie on sector boundaries |
| `Flash.BelowFlash` | uboot-imx/common/cmd_flash.c:192-273 | a range starting below the flash never succeeds |
| `Flash.NothingMissed` | uboot-imx/common/cmd_flash.c:192-273 | a successful call selects every sector inside the range |
| `Flash.CoversExactly` | uboot-imx/common/cmd_flash.c:192-273 | the selected sectors cover exactly the addresses of the range |
| `Flash.CountIsSectors` | uboot-imx/common/cmd_flash.c:257-259 | s_count is the number of sectors inside the range |
| `FlashCommand.RoundFinds` | uboot-imx/common/cmd_flash.c:96-132 | rounding gives the end of the sector that holds the address, and fails exactly when none does |
| `FlashCommand.PlusLengthIsMinimal` | uboot-imx/common/cmd_flash.c:96-190 | from a sector start, the plus-length form succeeds and selects exactly the sectors that meet the requested bytes |
| `FlashCommand.ErasesSelected` | uboot-imx/common/cmd_flash.c:402-438 | with a flash that does not fail the erased sectors are exactly the selected ones |
| `FlashCommand.RoundB` | uboot-imx/common/cmd_flash.c:96-132 | the two loops compute the rounding, leaving the address alone on failure |
| `FlashCommand.AddrSpec` | uboot-imx/common/cmd_flash.c:151-190 | both forms of an address range, the length added in 32 bits |
| `FlashCommand.FillSectRanges` | uboot-imx/common/cmd_flash.c:192-273 | the nested loops fill the two arrays, the count and the fault as specified |
| `FlashCommand.EraseRanges` | uboot-imx/common/cmd_flash.c:415-429 | banks are erased in order up to the first failure |
| `FlashCommand.SectErase` | uboot-imx/common/cmd_flash.c:402-438 | nothing is erased when the range is refused or empty |
| `Sparse.InsideIffLands` | uboot-imx/common/aboot.c:96-233 | for any bytes, no block outside the partition is written, whichever writes fail, exactly when every raw or fill chunk that passes the 32-bit check of the partition is empty or lies inside it without wrap |
| `Sparse.InsideByHeaders` | uboot-imx/common/aboot.c:96-233 | in particular, if the block counts in the chunk headers, added to the start of the partition, stay in 32 bits, no block outside the partition is written |
| `SparseImage.WrappingImage` | uboot-imx/common/aboot.c:205-212 | an image of a don't-care and a fill chunk that is answered OKAY and written to block 0, outside its partition |
| `Sparse.ChunkWritten` | uboot-imx/common/aboot.c:97-213 | a raw, fill or don't-care chunk has the effect of its flat expansion |
| `Sparse.CrcPassed` | uboot-imx/common/aboot.c:215-224 | a chunk of type 0xCAC4 writes nothing, keeps the next block and skips its data, or is refused for its size |
| `Sparse.SizeRefused` | uboot-imx/common/aboot.c:124-166 | a raw or fill chunk of the wrong size is refused and nothing is written |
| `Sparse.RangeRefused` | uboot-imx/common/aboot.c:133-190 | one that would go beyond the partition is refused and nothing is written |
| `Sparse.WriteRefused` | uboot-imx/common/aboot.c:142-203 | a first write that fails ends the run with a failure |
| `Sparse.UnknownStops` | uboot-imx/common/aboot.c:226-230 | a chunk of any type but 0xCAC1 to 0xCAC4 ends the run with a failure and writes nothing |
| `Sparse.ImageWritten` | uboot-imx/common/aboot.c:96-233 | a list of chunks writes exactly the flat expansion and advances block and total by scaled and plain counts |
| `Sparse.FlatSize` | uboot-imx/common/aboot.c:205-212 | the flat expansion has as many blocks as the image's total times the block size ratio |
| `Sparse.DeviceHoldsFlat` | uboot-imx/common/aboot.c:96-233 | after those writes a block holds the image's data where it has any and its old contents elsewhere |
| `Sparse.FlatIsStream` | uboot-imx/common/aboot.c:121-213 | the flat expansion, block behind block, is the byte stream of the chunks: data, the fill word over and over, nothing |
| `Sparse.FirstChunkAt` | uboot-imx/common/aboot.c:64-72 | the chunks start behind the file header, and behind its surplus over 28 bytes once more |
| `Sparse.EndAnswered` | uboot-imx/common/aboot.c:239-242 | a run to the end is answered OKAY, behind a failure if the total is not the announced one |
| `Sparse.WholeImage` | uboot-imx/common/aboot.c:44-244 | a complete image with standard header leaves the device as the flat expansion says and is answered OKAY |
| `SparseImage.HeaderSpelled` | uboot-imx/common/aboot.c:61-70 | the 28 bytes of the encoded file header |
| `SparseImage.ChunkSpelled` | uboot-imx/common/aboot.c:99-121 | the 12 bytes of an encoded chunk header, with the type numbers 0xCAC1 to 0xCAC3 |
| `SparseImage.EncodedStream` | uboot-imx/common/aboot.c:44-244 | after writing the encoded image, byte j of block k of the partition is that byte of the stream, or the block is as it was |
| `SparseImage.ImageLaidOut` | uboot-imx/common/aboot.c:61-121 | in the encoded image of any chunk list the writer finds the header and the chunks that were put in |
| `SparseImage.EncodedImage` | uboot-imx/common/aboot.c:44-244 | writing the encoded image of any chunk list that fits leaves the flat expansion on the device, every other block as it was, and answers OKAY |
| `Sparse.Device.WriteRaw` | uboot-imx/common/aboot.c:124-154 | the raw branch with its partition check; a write may break off after any block |
| `Sparse.Device.FillBlocks` | uboot-imx/common/aboot.c:191-203 | the fill loop writes up to the first failing block |
| `Sparse.Device.WriteFill` | uboot-imx/common/aboot.c:156-208 | the fill branch with its checks |
| `Sparse.Device.WriteChunk` | uboot-imx/common/aboot.c:97-233 | the body of the chunk loop, with its size checks and error messages |
| `Sparse.Device.WriteSparseImage` | uboot-imx/common/aboot.c:44-244 | replies and writes of the whole command, for any header and any failing writes; for power-of-two blocks the mask test refuses exactly the sizes that are no multiple |
| `Floppy.LocateIsExact` | uboot-imx/common/cmd_fdc.c:249-258 | every block has one existing track, head and sector, from which its number can be computed |
| `Floppy.SameSide` | uboot-imx/common/cmd_fdc.c:249-258 | blocks behind each other on a track side have consecutive sectors |
| `Floppy.CommandDelivers` | uboot-imx/common/cmd_fdc.c:249-269 | what a command on one side delivers are the blocks it stands for |
| `Floppy.Drive.Transfer` | uboot-imx/common/cmd_fdc.c:444-494 | one read command fills its part of the buffer with sectors of the track under the heads, or breaks off |
| `Floppy.Drive.Recover` | uboot-imx/common/cmd_fdc.c:468-490 | the two retry counters count every failure and give up exactly on the last allowed one |
| `Floppy.Drive.ReadData` | uboot-imx/common/cmd_fdc.c:406-527 | success means exactly the requested blocks in order, whatever failed in between; no command crosses a side; with working seeks the call gives up exactly on its 25th failed transfer |
| `Eeprom.WriteChunk` | uboot-imx/common/cmd_eeprom.c:235-258 | no chunk is empty or exceeds what is left or the transfer limit |
| `Eeprom.ReadChunk` | uboot-imx/common/cmd_eeprom.c:146-158 | no chunk is empty or crosses a 256-byte block |
| `Eeprom.ChunksStayIff` | uboot-imx/common/cmd_eeprom.c:244-257 | every write chunk stays inside a page exactly when pages have at most 8 bits or bytes go one at a time |
| `Eeprom.CellsAre` | uboot-imx/common/cmd_eeprom.c:124-144 | one address octet: 256 bytes a chip, selected by bits 8 to 15 of the offset or the device; two: 65536 bytes and bits 16 to 23 |
| `Eeprom.OctetsName` | uboot-imx/common/cmd_eeprom.c:124-144 | the first octet that the loops build selects the chip, the others are the address in it, upper octet first |
| `Eeprom.PageDoubles` | uboot-imx/common/cmd_eeprom.c:246-247 | a page has one byte, doubled for every write bit |
| `Eeprom.BitsAdd` | uboot-imx/common/cmd_eeprom.c:144-144 | a number below a power of two is the sum of its bits, so that the bits say which chip it is |
| `Eeprom.OrBits` | uboot-imx/common/cmd_eeprom.c:144-144 | a bit of the chip address is set exactly where one of the two has it |
| `Eeprom.ChunkIsFlat` | uboot-imx/common/cmd_eeprom.c:203-353 | a chunk written by a chip whose counter wraps in the page is a flat write |
| `Eeprom.ReadBackIff` | uboot-imx/common/cmd_eeprom.c:109-363 | everything written to a range can be read back exactly when its offsets have cells of their own |
| `Eeprom.ClearBlocksAreDistinct` | uboot-imx/common/cmd_eeprom.c:124-144 | they do when block numbers fit their octet and share no bit with the device address |
| `Eeprom.Bus.Write` | uboot-imx/common/cmd_eeprom.c:186-363 | the chunked write is one flat write when it reports success, touches no cell outside the range in any case, and skips a range beyond 32 bits |
| `Eeprom.Bus.Read` | uboot-imx/common/cmd_eeprom.c:109-175 | the chunked read is one flat read when it reports success |
| `Eeprom.Bus.WriteThenRead` | uboot-imx/common/cmd_eeprom.c:109-363 | written bytes are read back |
| `Bootstage.StashRound` | uboot-imx/common/bootstage.c:391-457 | record i of an unstashed stash is live record i, under the name it was stashed with |
| `Bootstage.NamesRound` | uboot-imx/common/bootstage.c:443-450 | every name is found behind the names in front of it and read whole |
| `Bootstage.HeaderLayout` | uboot-imx/common/bootstage.c:348-359 | bytes 0 to 15 of a stash: version 0, count, size and 0xb00757a3, low byte first |
| `Bootstage.RecordLayout` | uboot-imx/common/bootstage.c:361-365 | record i lies at 16 + 20 * i, with time, start, flags and id at 0, 4, 12 and 16 |
| `Bootstage.NameLayout` | uboot-imx/common/bootstage.c:367-376 | each name lies behind the earlier ones and ends with a zero |
| `Bootstage.NamesSpelled` | uboot-imx/common/bootstage.c:161-172 | a record without name is called user_ or id= and its number in decimal |
| `Bootstage.StashAccepted` | uboot-imx/common/bootstage.c:391-435 | a complete stash is accepted exactly when the size covers it and the table has room |
| `Bootstage.BrokenRefused` | uboot-imx/common/bootstage.c:417-422 | a stash that ran out of room behind its header is never accepted |
| `Bootstage.PassesIffFits` | uboot-imx/common/bootstage.c:391-435 | the 32-bit checks of a header are the intended ones if the count does not wrap next_id, or if a size is given |
| `Bootstage.ChecksIntendedIff` | uboot-imx/common/bootstage.c:391-435 | they are the intended ones for every header exactly when a size is given or no record has been made |
| `Bootstage.WrappingPasses` | uboot-imx/common/bootstage.c:430-435 | without a size, a header with 2^32 - next_id records passes and does not fit |
| `Bootstage.Table.AddRecord` | uboot-imx/common/bootstage.c:61-84 | the first event of an id is kept, an allocating event takes the next id |
| `Bootstage.AppendData` | uboot-imx/common/bootstage.c:323-332 | the pointer moves in any case, bytes are written only where they fit |
| `Bootstage.Table.Stash` | uboot-imx/common/bootstage.c:334-389 | success exactly when header, live records and names fit; nothing is written at or behind the end; a failed stash leaves size 0 |
| `Bootstage.Table.Unstash` | uboot-imx/common/bootstage.c:391-457 | refused, nothing changes; accepted, the records follow at next_id and all others stay |
| `Bootstage.HandOver` | uboot-imx/common/bootstage.c:334-457 | stash and unstash into another table: arrives exactly when it fits both, in order and with names; a failed stash is refused |
| `Fdt.IsPrintableString` | uboot-imx/common/cmd_fdt.c:806-841 | the heuristic holds exactly for nonempty printable bytes without two zeros in a row that end with a zero, or with a newline in front of a zero byte |
| `Fdt.StringsRecognised` | uboot-imx/common/cmd_fdt.c:806-841 | nonempty strings of printable ASCII, one behind the other, are taken for strings |
| `Fdt.ShowsIff` | uboot-imx/lib/ctype.c:17-40 | exactly the bytes 1 to 8, 14 to 31 and 127 to 159 are neither zero nor printable nor blank |
| `Fdt.PrintData` | uboot-imx/common/cmd_fdt.c:849-898 | which of the four forms is printed, and the text of strings, cells and bytes |
| `Fdt.PrintStrings` | uboot-imx/common/cmd_fdt.c:859-872 | the loop over concatenated strings prints each of them in quotes |
| `Fdt.CellTextAt` | uboot-imx/common/cmd_fdt.c:878-884 | cell i of the printed text, character by character: 0x, the bytes of the cell in lower-case digits, a blank or the bracket |
| `Fdt.ByteTextAt` | uboot-imx/common/cmd_fdt.c:891-896 | byte i of the printed text: two lower-case digits, a blank or the bracket |
| `Fdt.DigitsAre` | uboot-imx/lib/vsprintf.c:48-50 | digits count alike in upper and lower case, and nothing else is one |
| `Fdt.ConventionsRead` | uboot-imx/lib/vsprintf.c:28-58 | a cell is read in base 10, behind 0 in base 8, behind 0x in base 16 |
| `Fdt.StringsRoundIff` | uboot-imx/common/cmd_fdt.c:783-796 | the strings of a text property, given as arguments, are parsed to the property exactly when it ends with a zero and does not start with a bracket |
| `Fdt.NumberOfHex` | uboot-imx/lib/vsprintf.c:28-58 | the digit loop reads back a number printed in hexadecimal |
| `Fdt.CellsRound` | uboot-imx/common/cmd_fdt.c:728-760 | however the text of cells is split, the cell loop gives the bytes back |
| `Fdt.BytesRound` | uboot-imx/common/cmd_fdt.c:761-782 | the same for the byte form |
| `Fdt.ParsePropArgs` | uboot-imx/common/cmd_fdt.c:717-798 | the loops over arguments and characters compute the specified parse, errors included |
| `Fdt.PrintedIsParsed` | uboot-imx/common/cmd_fdt.c:717-783 | the printed text of any value, split at spaces into arguments in any way, is parsed to that value |
| `Fdt.PrintThenParse` | uboot-imx/common/cmd_fdt.c:849-898 | printing and parsing any non-text property up to the dump limit gives the same bytes |
| `Board.MaskWraps` | uboot-imx/common/board_f.c:445-460 | rounding down commutes with 32-bit wrap-around |
| `Board.AreaInRam` | uboot-imx/common/board_f.c:379-605 | every area of a configuration that fits lies in RAM at its planned address |
| `Board.AreasDescend` | uboot-imx/common/board_f.c:379-605 | a later area lies wholly below every earlier one |
| `Board.EnoughFits` | uboot-imx/common/board_f.c:379-605 | RAM for all sizes and the worst rounding is enough |
| `Board.FullSpaceFits` | uboot-imx/common/board_f.c:362-377 | RAM that ends with the address space, whose top is address 0, has room for a usual configuration |
| `Board.GlobalData.SetupDestAddr` | uboot-imx/common/board_f.c:362-403 | RAM that reaches the end of 32-bit space gives a top of 0 |
| `Board.GlobalData.ReserveAll` | uboot-imx/common/board_f.c:379-605 | the recorded areas have the configured sizes, are disjoint and in RAM whenever they fit, each as high as its alignment allows; table, code and stack are aligned to 64 kB, 4 kB and 16 bytes, and each pointer names its area |
| `Board.GlobalData.InitrMalloc` | uboot-imx/common/board_r.c:262-275 | the heap's arena is exactly the area that reserve_malloc set aside |
| `Checksum.CrcIsTotal` | uboot-imx/common/cmd_armflash.c:37-56 | the checksum complements a sum congruent to the total modulo 2^32-1 |
| `Checksum.OrderIndependent` | uboot-imx/common/cmd_armflash.c:37-56 | the order of the words does not matter |
| `Checksum.ZeroIff` | uboot-imx/common/cmd_armflash.c:136-144 | it is zero exactly when the words are not all zero and their total is divisible by 2^32-1 |
| `Checksum.SelfChecking` | uboot-imx/common/cmd_armflash.c:136-144 | the checksum of some words, inserted among them anywhere, makes theirs zero |
| `Checksum.ComputeCrc` | uboot-imx/common/cmd_armflash.c:37-56 | the loop over memory computes the checksum of its words, and 0 for a length that is no multiple of 4 |

## Left out

- The half of `cli_hush.c` that is not compiled into U-Boot (jobs, redirection, globbing), Ctrl-C, prompts, an overriding IFS, reparsing of substituted text, and a newline right after `&&` or `||`.
- The bound on jumps back in the shell's functions only tells whether a run ends; `HushShell.BoundIrrelevant` shows that it changes no finished run.
- HushReader.Parser.ReadChar: a backslash as the last character of the input is a syntax error here; the source would go on behind a string, but `HushReader.BackslashNeverLast` shows that no string it is given ends so. The memory behind a word is any bytes in which a pass that reads on comes to an end.
- HushShell.Shell.RunPipeReal: assignments, substitution, reparsing and the dispatch of a simple command are one answer of the world.
- The variable list and the pipe lists are sequences; the links and the freeing of their cells, and the temporary change of a `for` pipe's argv[0], are not captured.
- Values of `for` lists and exit codes of commands are answers of the world: the expansion of words and the dispatch of commands are modelled apart from the interpreter.
- HushParsing.LineMeans: keywords and the name of a `for` are written plainly, a `#` inside a word is quoted, and there is no backslash in single quotes or in `${}`, from where done_word would take it away later. Variables are left between markers for the world to substitute.
- HushExit.ExitKeptIffSimple: a `for` without words as the first thing that a command would run is excluded, as it may make the rest of a script unreachable.
- HushControl.StatusIffSafe: asks that every body holds a command, as POSIX does, and that every `for` has words, and that no differing status is read inside; `HushControl.SameBranchesHide` shows that such a read need not change the run.
- LineEditor.Editor.ReadBytes: unknown escape sequences (which are typed into the line), TAB, raw control characters, a line that does not fit one terminal row, timeouts and the prompt are outside the display theorem.
- Flash: known banks have 1 to 0x7FFF ascending sectors inside 32-bit space; protection, printing and the parsing of address arguments are left out.
- Sparse.WholeImage: CRC32 chunks and file headers longer than the standard one are modelled in the code but not in this theorem, as their skipping does not follow the format; block sizes of zero are excluded because the source divides by them.
- The masks that align addresses in `board_f.c` and page offsets in `cmd_eeprom.c` are modelled as remainders.
- Floppy: drive detection, motor, timing and the result phase; the seek is a success or failure that puts the heads on a track.
- Eeprom: FRAM, SPI and X40430 variants, write enable and delays.
- Bootstage.Table.Unstash: without a size, a header count that wraps next_id in 32 bits is excluded, because the source then overruns its table; memory behind the buffer reads as zero.
- Bootstage: reports, device tree export and timers; ids are taken to be below 2^31, as all ids of a table are, so that their names show no sign.
- Fdt.PrintData: the printed address of a long property is not spelled out.
- Fdt.ParsePropArgs: the scratch buffer of the parser is unbounded, and the missing argument behind the last one reads as empty.
- Board: areas of other architectures, and a frame buffer at a fixed address.
- Checksum.ComputeCrc: lengths are below 2^31, so that the source's signed index does not overflow.
- `cli_simple.c`, `bootm*.c`, `bedbug.c`, the `api` directory and the thin command wrappers: they would add easy members or mostly call code outside this model.
