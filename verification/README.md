# Verified cores of a NuttX tree

A Dafny model of the stateful cores of NuttX and its applications, with proofs about every
input, every run or every reachable state.  `dafny verify dfyconfig.toml` checks the project.

| Files | What they model |
|---|---|
| `NshControl`, `NshScript`, `NshParser` | The NSH parser: `if/then/else/fi`, `while/until/do/done` and `break` dispatched line by line against two bounded stacks, with loops that seek back in the script. `NshParser` is the mutable structure, tied method by method to the functions. |
| `NshStructured`, `NshSteps`, `NshWalk`, `NshSkip`, `NshMeaning` | A structured semantics of such scripts and the proof that the two-stack machine runs scripts that fit as they are meant. |
| `NshWitness`, `NshFaults`, `NshDrift`, `NshExact`, `NshTheorems`, `NshRescue` | The converse: what the machine does on scripts that do not fit, when that is exactly the wrong thing, and a script that a later `break` saves. |
| `NshSafety`, `NshRefusal` | What every run keeps, well formed or not, and what a refused line leaves. |
| `NshJoin`, `NshSpread`, `NshLayout` | Commands on the line of `then`, `else` and `do`: a script laid out so runs as the script with every keyword on a line of its own. |
| `NshLine`, `NshCommands` | How a line is cut into commands, and the offset a loop goes back to. |
| `NshQuote`, `NshExpand`, `NshArgument` | Escapes, `nsh_strchr`, `nsh_dequote` and `nsh_argexpand`, in place, against recursive definitions, and what an argument means. |
| `NshVars`, `NshVarStore`, `NshTexts` | The stored variable texts as a map, the packed buffer that holds them, and stores without repeated names. |
| `Environ`, `NshEnv` | The environment of a task group, and `set`, `unset`, `export` and `$name` on variables and environment together. |
| `NshAlias`, `NshAliasTable` | The alias slot pool with deferred deletion across nested commands. |
| `PcmSubsample`, `PcmStream`, `PcmWav`, `PcmDecoder`, `PcmFile` | In-place subsampling of a PCM stream, the WAV chunk walk, the decoder in front of its lower driver, and WAV files byte by byte. |
| `ModbusMaster`, `ModbusRuns`, `ModbusDevice` | The Modbus master's event machine on its flag port and on a lossless queue. |
| `AudioComposite` | The composite audio driver: forward loops with rollback, reverse loops that fold results. |
| `BinfmtActions`, `BinfmtArgv` | The two arena copiers of the binary loader. |
| `BitmapRle` | The run-length encoder for NxWidgets bitmaps. |
| `NshHexdump` | The skip and count window of `hexdump`. |
| `Common`, `Sequences` | Shared types, and sequences without repetition. |

Conventions.  `CONFIG_*` sizes are parameters.  Command results, allocation results, the
answers of lower drivers and of protocol handlers, and the pieces that reads deliver are
parameters or oracles.  Integers are unbounded; where the C width matters (the 8-bit skip
counter, 32-bit chunk lengths) it is written out.

Where the code differs from what one would expect, the model follows the code and a lemma
states the exact condition:

- A script fits when ifs and loops nest below the limit, no loop stands directly in a loop
  body, and no `break` stands inside an `if` of the loop it leaves.  (A `break` in an `if`
  outside every loop fits.)  A script that fits is run as meant, in both error modes
  (`MeaningPreserved`).  When errors end the script, a script in which no `break` of an
  enclosing loop follows a loop that can be left from inside an `if` is run as meant if and
  only if it fits (`FaithfulIffFits`).  Outside that condition fitting is not necessary:
  such a later `break` restores the count of open ifs (`RescuedFaithful`).
- Subsampling keeps every n-th sample if and only if the gap fits the 8-bit counter
  (`ClosedFormIff`), and a stream that ended in the middle of a gap spoils the next one
  (`FreshStartIff`).
- From a store of distinct names, a variable reads back if and only if its name has no `=`
  (`ReadsBackIff`); on any store it also depends on what else matches the name
  (`ReadsBackIffAnywhere`).  Names with `=` can hide ordinary ones (`PlainNameHidden`), and
  a name that is itself a stored text sends the comparison past both strings (`NameIsText`).
- No name is both an NSH variable and exported, as long as names have no `=`
  (`SingleOwner`).  In general a command keeps it so if and only if the first part of its
  name is free or is what the name itself finds (`KeepsOneOwnerIff`, `SharedRun`).
- The environment holds no empty values: setting one is a request to unset, so a second
  `export NAME` clears the variable (`ExportKeepsIff`), and an exported name without a value
  is forgotten (`EmptyExportForgotten`).  A `setenv` that runs out of memory has already
  removed the old value (`FailureLoses`).
- A loop goes back to its head if and only if the head holds no quote (`HeadReturnsIff`).
- A value arrives through `$name` if and only if it has no backslash (`ValueArrivesIff`).
- The chunk walk of the WAV header goes on forever if and only if it comes to a place twice,
  as with a chunk of length 2^32 - 8 (`EndlessIff`, `EndlessChunk`); and subsampling never
  returns if the header says that samples have no bytes (`LoopEndsIff`).
- A WAV file with other chunks before its data is accepted if and only if the data is not
  empty (`FileReadsBack`).  A buffer that the lower driver refuses is lost, but the decoder
  goes on as if it had been taken (`RefusedAlone`).
- A refused loop keyword is no error while an `if` waits for its `then`: that `if` takes it
  for a failed test (`RefusedLoop`).
- An alias saved while it waits for removal is lost when the running command ends
  (`SavedSurvivesIff`).
- A Modbus request is lost if and only if a post meets its flag already set
  (`DrainedExactIff`), and a broadcast succeeds if and only if it succeeds for the last
  slave (`BroadcastSuccessIff`), from which alone a reply is then taken
  (`BroadcastMovesAddress`).
- A failed composite start leaves nothing running if and only if every device started
  before the failing one can be stopped (`TransactionalIff`).
- The comment of `binfmt_copyargv` promises a copy that is not null on success; an empty
  argument list gives none (`CopyArgv`).

## Model

| member | source | states |
|---|---|---|
| NshTheorems.MeaningPreserved | apps/nshlib/nsh_parse.c:1817-2248 | For every script that fits and whose loop tests hold no quotes, every command result and every layout, the two-stack machine runs the same commands at the same places in the same order as the structured semantics, ends as it does with both stacks empty or aborts as it does, and keeps running as long as it does |
| NshTheorems.HaltsOnlyAsMeant | apps/nshlib/nsh_parse.c:2871-3002 | The converse, for the same scripts: when the machine halts, the structured meaning is defined and is what the machine did |
| NshLayout.JoinedMeaning | apps/nshlib/nsh_parse.c:1817-2248 | The same meaning for every layout: with commands on the line of `then`, `else` or `do`, or on their own, one command to a text line or several, the machine runs the same commands in the same order and ends or aborts as the structured semantics does |
| NshSpread.Follows | apps/nshlib/nsh_parse.c:1970-2193 | For scripts in which every if is followed by its `then` and tests are commands, well formed or not: every point of the run of a script has a matching one in the run of the script with each keyword on its own line, with the same stacks, status and commands run, at the corresponding places |
| NshSpread.EndsToo | apps/nshlib/nsh_parse.c:1970-2193 | For the same scripts: when the spread script has ended, so has the script, at a matching point |
| NshJoin.ParseJoined | apps/nshlib/nsh_parse.c:1970-2193 | A keyword with a command behind it on its line does what the keyword alone and then the command do, in every state but the one in which an if waits for its `then` and the keyword is `do` or belongs to a loop test |
| NshJoin.ThenRuns | apps/nshlib/nsh_parse.c:2153-2172 | A command behind `then` is run exactly if the loop at hand is enabled, the if is not skipped and its test succeeded |
| NshJoin.ElseRuns | apps/nshlib/nsh_parse.c:2174-2193 | A command behind `else` is run exactly if the loop at hand is enabled, the if is not skipped and its test failed |
| NshJoin.DoRuns | apps/nshlib/nsh_parse.c:1970-1988 | A command behind `do` is run exactly if the loop test said so and the if-stack allows it |
| NshTheorems.FaithfulIffFits | apps/nshlib/nsh_parse.c:1817-2248 | When errors end the script: a script in which no break of an enclosing loop follows a loop that can be left from inside an if is run as meant, under all command results and layouts, if and only if it fits |
| NshTheorems.Unfaithful | apps/nshlib/nsh_parse.c:1894-2248 | For each such script that does not fit there are command results under which the machine does something else |
| NshTheorems.Samples | apps/nshlib/nsh_parse.c:1817-1834 | A loop directly in a loop body, and a break inside an if, in or outside another if, go wrong at every nesting limit; a loop inside an if inside a loop is right exactly from limit 3 |
| NshTheorems.NestedLoopsDoNotFit | apps/nshlib/nsh_parse.c:1817-1834 | The loop test looks only at the innermost entry, so a directly nested loop never fits |
| NshTheorems.BreakInIfDoesNotFit | apps/nshlib/nsh_parse.c:3009-3035 | A break inside an if of the loop it leaves never fits |
| NshTheorems.BreakDeeperDoesNotFit | apps/nshlib/nsh_parse.c:3009-3035 | Nor does it when the loop stands in an if |
| NshTheorems.LoopInIfFits | apps/nshlib/nsh_parse.c:1894-2079 | The loop inside an if inside a loop fits exactly with room for one if and two loops |
| NshRescue.RescuedFaithful | apps/nshlib/nsh_parse.c:3009-3035 | A loop left from inside an if, followed in the enclosing loop by a break, is run as meant at every nesting limit from 4, although the machine loses count of the open ifs in between: break restores the count the loop head saved |
| NshRescue.RescuedDoesNotFit | apps/nshlib/nsh_parse.c:1817-2248 | That script does not fit, however much room there is, and is outside the condition of FaithfulIffFits |
| NshRescue.InnerRuns | apps/nshlib/nsh_parse.c:3009-3035 | The inner loop of that script ends as meant, with all open ifs or one forgotten |
| NshMeaning.LiveBlock | apps/nshlib/nsh_parse.c:1894-2248 | From any enabled state with room, the machine walks through a block as the structured semantics runs it: finished, broken out of, aborted or unfinished |
| NshMeaning.LiveIf | apps/nshlib/nsh_parse.c:2087-2248 | An if runs its test and exactly the branch the test selects and leaves the if-stack as it was |
| NshMeaning.LiveRepeat | apps/nshlib/nsh_parse.c:1894-2079 | A loop head and its body are run as often as the test says, also through a break |
| NshMeaning.LiveIterate | apps/nshlib/nsh_parse.c:1990-2054 | Each `done` of an enabled loop seeks back to the loop's own head |
| NshMeaning.LiveBreak | apps/nshlib/nsh_parse.c:3009-3035 | A break directly in a loop body disables the rest of the body |
| NshSkip.SkipBlock | apps/nshlib/nsh_parse.c:1844-1886 | A disabled block that fits is read over without running anything and leaves the stacks as they were |
| NshExact.LiveFails | apps/nshlib/nsh_parse.c:1894-2248 | A block that does not fit takes the machine off the structured run, or leaves it behind the block with fewer ifs open than there are |
| NshDrift.DriftBlock | apps/nshlib/nsh_parse.c:2087-2248 | With ifs forgotten, a block without breaks does not bring the machine back: it stays adrift or an error ends the script |
| NshDrift.CloseBranch | apps/nshlib/nsh_parse.c:2157-2226 | With ifs forgotten, the rest of an if closes the wrong entry, or meets an else or fi that nothing is open for |
| NshFaults.StepIfDeep | apps/nshlib/nsh_parse.c:2135-2141 | An if at the nesting limit is refused and aborts the script |
| NshFaults.StepRepeatDeep | apps/nshlib/nsh_parse.c:1940-1946 | A loop at the nesting limit is refused and aborts the script |
| NshFaults.SkipFails | apps/nshlib/nsh_parse.c:2087-2248 | Even skipped code aborts the script when it nests too deep |
| NshSafety.RunSafe | apps/nshlib/nsh_parse.c:1894-2248 | Over every run of every command sequence whose loop tests hold no quotes: both indices stay below the limit, entry 0 of both stacks is NORMAL, saved if-indices are in range, every jump lands on a loop head, and no internal error is reported |
| NshSafety.NoInternalError | apps/nshlib/nsh_parse.c:2011-2221 | The impossible branches of `done` and `fi` are unreachable |
| NshSafety.IdleSafe | apps/nshlib/nsh.h:588-694 | The zeroed parser structure is a safe state, so every run from it is safe |
| NshSafety.StepSafe | apps/nshlib/nsh_script.c:145-188 | One command, with its error resets and its break, keeps the state safe |
| NshRefusal.LoopRefusedIff | apps/nshlib/nsh_parse.c:1894-2079 | In every consistent state, the exact lines that the loop dispatch refuses |
| NshRefusal.ItefRefusedIff | apps/nshlib/nsh_parse.c:2087-2248 | In every consistent state, the exact lines that the if dispatch refuses |
| NshRefusal.RefusedLoop | apps/nshlib/nsh_parse.c:2068-2079 | A refused loop line closes every loop and no if; it is an error unless an if waits for its `then`, which takes it for a failed test |
| NshRefusal.RefusedItef | apps/nshlib/nsh_parse.c:2237-2248 | A refused if line closes every if and no loop; it is an error unless it is a loop test, which has then failed |
| NshRefusal.RefusedStep | apps/nshlib/nsh_parse.c:2442-2549 | In a script a refused loop line that is an error ends the script, or drops the rest of its text line when errors are ignored |
| NshRefusal.FailedStep | apps/nshlib/nsh_script.c:145-188 | A command that fails outside every test has been run; its error ends the script, or drops the rest of its text line when errors are ignored |
| NshRefusal.SeekableUnneeded | apps/nshlib/nsh_parse.c:1926-1938 | Over every run, a script without loop heads does the same whether or not it can be read again |
| NshRefusal.SeekableForLoops | apps/nshlib/nsh_parse.c:1926-1938 | Loop heads are refused in a script that cannot be read again, and no other line is treated differently there |
| NshControl.LoopKeepsStacks | apps/nshlib/nsh_parse.c:1894-2079 | The loop keywords keep both stacks consistent, on every line |
| NshControl.ItefKeepsStacks | apps/nshlib/nsh_parse.c:2087-2248 | The if keywords keep both stacks consistent, on every line |
| NshScript.ParseKeepsStacks | apps/nshlib/nsh_parse.c:2442-2549 | Dispatching a command keeps both stacks consistent |
| NshScript.SaveKeepsStacks | apps/nshlib/nsh_parse.c:438-495 | Recording a result keeps both stacks consistent |
| NshScript.HaltedStays | apps/nshlib/nsh_script.c:145-188 | A script that has ended or aborted stays so |
| NshSteps.StepSimple | apps/nshlib/nsh_parse.c:2442-2549 | An ordinary command runs exactly when enabled, and a failure ends the script unless errors are ignored |
| NshSteps.StepIf | apps/nshlib/nsh_parse.c:2098-2151 | `if` opens an entry, runs its test when enabled and records the condition, inverted by `!` |
| NshSteps.StepRepeat | apps/nshlib/nsh_parse.c:1894-1968 | `while` and `until` open an entry with the place to come back to; the test runs whenever the if-stack allows it |
| NshLine.HeadReturnsIff | apps/nshlib/nsh_parse.c:2892-2993 | The command at the offset a loop saves is the loop's head if and only if the head holds no quote; else it is what stands behind the last one |
| NshLine.Rereads | apps/nshlib/nsh_parse.c:2871-3002 | A line read again from one of its commands on is cut into the same commands |
| NshLine.ParseLine | apps/nshlib/nsh_parse.c:2871-3002 | The loop that hops from separator to separator finds the commands and offsets of a scan character by character, or the missing quote |
| NshLine.ClosingIsFirst | apps/nshlib/nsh_parse.c:2975-2993 | A quoted part ends at the first quotation mark of its kind that is not escaped |
| NshCommands.LineIsCut | apps/nshlib/nsh_parse.c:2871-3002 | A line of commands joined by semicolons, each of plain text, quoted parts and escaped quotation marks, with or without a comment or newline behind it, is cut into exactly these commands, with the offset behind the last quotation mark of each |
| NshCommands.PiecesHold | apps/nshlib/nsh_parse.c:2871-3002 | Each piece of that cut holds the text of its command |
| NshCommands.MissingQuote | apps/nshlib/nsh_parse.c:2975-2993 | A quotation mark that nothing closes spoils its own command and those behind it, and no command before it |
| NshSteps.StepDone | apps/nshlib/nsh_parse.c:1990-2054 | `done` closes the entry and jumps back exactly if the loop is enabled |
| NshSteps.StepFi | apps/nshlib/nsh_parse.c:2195-2226 | `fi` closes exactly the innermost if |
| NshSteps.StepBreak | apps/nshlib/nsh_parse.c:3009-3035 | `break` disables the innermost loop in its body and does nothing elsewhere |
| NshParser.ParserState.constructor | apps/nshlib/nsh.h:588-694 | The zeroed parser structure is the idle state |
| NshParser.ParserState.CmdEnabledNow | apps/nshlib/nsh_parse.c:1817-1886 | The C tests compute whether a command is enabled |
| NshParser.ParserState.LoopKeywords | apps/nshlib/nsh_parse.c:1894-2079 | nsh_loop in place is the loop dispatch |
| NshParser.ParserState.While | apps/nshlib/nsh_parse.c:1894-1968 | The branch of `while` and `until` in place: its tests in order, and the entry it opens |
| NshParser.ParserState.Done | apps/nshlib/nsh_parse.c:1990-2054 | The branch of `done` in place: its tests in order, and the loop it pops |
| NshParser.ParserState.ItefKeywords | apps/nshlib/nsh_parse.c:2087-2248 | nsh_itef in place is the if dispatch |
| NshParser.ParserState.If | apps/nshlib/nsh_parse.c:2098-2151 | The branch of `if` in place: its tests in order, and the entry it opens |
| NshParser.ParserState.Fi | apps/nshlib/nsh_parse.c:2195-2226 | The branch of `fi` in place: its tests in order, and the entry it closes |
| NshParser.ParserState.Save | apps/nshlib/nsh_parse.c:438-495 | nsh_saveresult in place |
| NshParser.ParserState.Break | apps/nshlib/nsh_parse.c:3009-3035 | cmd_break in place |
| NshParser.ParserState.Parse | apps/nshlib/nsh_parse.c:2442-2549 | The dispatch of one command in place, with what ran, the error and the fault |
| NshParser.ParserState.Advance | apps/nshlib/nsh_parse.c:2871-3002 | One turn of the script loop in place |
| NshParser.ParserState.Script | apps/nshlib/nsh_script.c:145-188 | The script loop in place is that many steps of the machine |
| NshQuote.EscapeAgreement | apps/nshlib/nsh_parse.c:1265-1294 | The quoted flag carried forward equals the parity of the backslashes counted backwards, at every place of every string |
| NshQuote.StrChr | apps/nshlib/nsh_parse.c:1001-1025 | nsh_strchr finds the first unescaped match or reports that there is none; a backslash is never found, the terminator exactly if the string does not end in an open escape |
| NshQuote.Dequote | apps/nshlib/nsh_parse.c:1154-1200 | In-place nsh_dequote computes recursive unescaping |
| NshQuote.DequoteUndoesEscape | apps/nshlib/nsh_parse.c:1154-1200 | Dequoting undoes escaping of any set of characters that has the backslash |
| NshQuote.UnescapeByFlag | apps/nshlib/nsh_parse.c:1154-1200 | Unescaping drops exactly the backslashes that are not themselves escaped |
| NshExpand.ArgExpand | apps/nshlib/nsh_parse.c:1240-1489 | The iterative expansion ends and returns the dequoted recursive expansion of unescaped `$name`, `${name}` and backquotes, or the empty string when a delimiter is unmatched |
| NshExpand.FindSpecial | apps/nshlib/nsh_parse.c:1258-1294 | The search finds the first separator that is not escaped |
| NshExpand.BackQuote | apps/nshlib/nsh_parse.c:1340-1388 | A backquoted command is replaced by its output; an unmatched backquote gives up |
| NshExpand.Dollar | apps/nshlib/nsh_parse.c:1395-1474 | A variable, braced or bare, is replaced by its value; an unmatched brace gives up |
| NshExpand.EscapingProtects | apps/nshlib/nsh_parse.c:1240-1489 | An argument in which all special characters are escaped expands to itself |
| NshExpand.ValueArrivesIff | apps/nshlib/nsh_parse.c:1395-1489 | The value of a variable arrives unchanged if and only if it has no backslash |
| NshArgument.PiecesExpand | apps/nshlib/nsh_parse.c:1240-1489 | Escaped text, backquoted commands and braced variables, in any order in front of any text, are evaluated from left to right, each in the world the commands before it left |
| NshArgument.ArgumentMeans | apps/nshlib/nsh_parse.c:1240-1489 | An argument of such pieces expands to their values one behind the other; a variable without braces takes everything to the end as its name |
| NshArgument.ArgumentIsMeaning | apps/nshlib/nsh_parse.c:1240-1489 | Where no value brings in a backslash, the command receives exactly the texts and values meant |
| NshArgument.UnmatchedGivesUp | apps/nshlib/nsh_parse.c:1340-1474 | An unmatched backquote or brace gives the argument up, after the commands before it have run |
| NshVarStore.VarStore.CmpName | apps/nshlib/nsh_vars.c:48-64 | The comparison decides whether the text at the offset begins with the name and an equals sign |
| NshVarStore.VarStore.FindVar | apps/nshlib/nsh_vars.c:90-110 | The walk finds the offset of the first text that matches the name, or none |
| NshVarStore.VarStore.RemoveVar | apps/nshlib/nsh_vars.c:128-167 | Moving the later bytes down removes exactly one text |
| NshVarStore.VarStore.GetVar | apps/nshlib/nsh_vars.c:196-220 | The value is what stands behind the first equals sign of the first matching text |
| NshVarStore.VarStore.SetVar | apps/nshlib/nsh_vars.c:227-290 | The first matching text is removed and the new one appended; when memory runs out only the removal has happened |
| NshVarStore.VarStore.UnsetVar | apps/nshlib/nsh_vars.c:298-352 | The first matching text is removed, also when shrinking the buffer fails |
| NshVarStore.FlatAt | apps/nshlib/nsh_vars.c:48-352 | The buffer holds each text at its offset, one after the other |
| NshVars.TextsArePairs | apps/nshlib/nsh_vars.c:48-352 | For names without an equals sign the texts are searched, cut and extended as a list of names and values is, and every walk stays inside the texts |
| NshVars.LookupSet | apps/nshlib/nsh_vars.c:227-290 | After a set the name has the value, and other names keep theirs |
| NshVars.LookupWithout | apps/nshlib/nsh_vars.c:298-352 | After an unset the name is gone and other names keep their values |
| NshVars.RunIsMap | apps/nshlib/nsh_vars.c:48-352 | Over every run of sets and unsets on names without an equals sign, the stored names stay distinct and each reads as its last set, or not at all |
| NshTexts.ReadsBackIff | apps/nshlib/nsh_vars.c:227-290 | From a store of distinct names on which the search is defined, it stays defined behind a set, and what was set reads back if and only if its name has no equals sign |
| NshTexts.WalkableIff | apps/nshlib/nsh_vars.c:48-64 | On a store of distinct names the search is defined if and only if no text is the name itself |
| NshVars.NameIsText | apps/nshlib/nsh_vars.c:48-64 | After `set a b` the search for the name `a=b` is not defined: the comparison runs on behind both strings |
| NshVars.ReadsBackIffAnywhere | apps/nshlib/nsh_vars.c:48-290 | On every store and with every name for which both searches are defined: what was just set reads back if and only if the first other text matching the name has that value, or there is none and the name has no equals sign |
| NshVars.StaysDistinctIff | apps/nshlib/nsh_vars.c:227-290 | Where the search is defined, a set keeps the stored names distinct if and only if the name has no equals sign or nothing else is stored under its first part |
| NshVars.PlainNameHidden | apps/nshlib/nsh_vars.c:48-290 | Two names with an equals sign hide a value set later for an ordinary name |
| NshVars.OddNameReadsBack | apps/nshlib/nsh_vars.c:48-290 | A name with an equals sign can read back through the text of another name |
| NshEnv.KeepsOneOwnerIff | apps/nshlib/nsh_envcmds.c:504-663 | Every command on every name for which the search is defined: from a session in which no two texts are stored under one name, the next one has none if and only if the name has no equals sign, or nothing is stored, or its first part is not taken, or what takes it is the text the name finds |
| NshEnv.OneOwnerIff | apps/nshlib/nsh_envcmds.c:504-663 | That no two texts of the two stores share a name means that no name is found in both |
| NshEnv.SafeRun | apps/nshlib/nsh_envcmds.c:504-663 | One owner is kept over every run whose commands meet that condition where they are run |
| NshEnv.SharedRun | apps/nshlib/nsh_envcmds.c:504-663 | `export a 1; set a=b v` leaves `a` in both stores, and `$a` reads `b=v` |
| NshEnv.SingleOwner | apps/nshlib/nsh_envcmds.c:504-663 | Over every run of set, unset and export on names without an equals sign, with failing allocations anywhere, no name is in both stores, and every such name follows the history of its own commands |
| NshEnv.LatestWins | apps/nshlib/nsh_parse.c:1095-1146 | After such a run, a command that works on any name but `?` and `!` for which the search is defined makes `$name` read as the value given, whichever store holds it; a set gives the part of its text between the space at both ends; with an equals sign in the name it reads as the rest of the name and the value, which is never the value |
| NshEnv.FailureLoses | apps/nshlib/nsh_envcmds.c:504-663 | A command on such a name that does not work leaves it without a value, except that an export keeps an NSH variable and a name that unsetenv refuses keeps what it had |
| NshEnv.ExportKeepsIff | apps/nshlib/nsh_envcmds.c:610-663 | Exporting without a value keeps `$name` if and only if the name is not exported yet, or its value there is empty already, or it is the empty name; with an equals sign in the name, if and only if it is no NSH variable |
| NshEnv.EmptyExportForgotten | apps/nshlib/nsh_envcmds.c:610-663 | An exported name without a value is forgotten: a later set makes an NSH variable, which the next export moves to the environment |
| NshEnv.BuiltInsStay | apps/nshlib/nsh_parse.c:1095-1146 | No run of commands, not even on these names, changes what `$?` and `$!` read as |
| NshEnv.TrimLeft | apps/nshlib/nsh_fsutils.c:543-564 | Trimming drops exactly the leading space |
| NshEnv.TrimRight | apps/nshlib/nsh_fsutils.c:543-564 | Trimming drops exactly the trailing space |
| NshEnv.Trim | apps/nshlib/nsh_fsutils.c:543-564 | What is left is the part of the text between the space at both ends |
| NshEnv.TrimIs | apps/nshlib/nsh_fsutils.c:543-564 | There is only one such part |
| Environ.TaskGroup.CmpName | nuttx/sched/environ/env_findvar.c:46-62 | The comparison decides whether the text begins with the name and an equals sign |
| Environ.TaskGroup.FindVar | nuttx/sched/environ/env_findvar.c:88-112 | The index of the first text that matches, or none |
| Environ.TaskGroup.RemoveVar | nuttx/sched/environ/env_removevar.c:64-104 | The last text takes the place of the one removed |
| Environ.RemovedCuts | nuttx/sched/environ/env_removevar.c:64-104 | From an environment of distinct names exactly what the name finds is removed, and the names stay distinct |
| Environ.TaskGroup.GetEnvironment | nuttx/sched/environ/env_getenv.c:61-112 | The value is what stands behind the first equals sign of the text found |
| Environ.TaskGroup.SetEnvironment | nuttx/sched/environ/env_setenv.c:70-210 | setenv with overwriting: an empty value unsets the name, and the old text is removed before the new one is allocated |
| Environ.TaskGroup.UnsetEnvironment | nuttx/sched/environ/env_unsetenv.c:62-91 | unsetenv removes the text found and refuses the empty name and names with an equals sign |
| NshEnv.SessionState.SetCommand | apps/nshlib/nsh_envcmds.c:504-561 | `set` on the two stores |
| NshEnv.SessionState.UnsetCommand | apps/nshlib/nsh_envcmds.c:569-602 | `unset` on the two stores |
| NshEnv.SessionState.ExportCommand | apps/nshlib/nsh_envcmds.c:610-663 | `export` on the two stores |
| NshEnv.SessionState.EnvExpand | apps/nshlib/nsh_parse.c:1095-1146 | The built-in `$?` and `$!` first, then the NSH variable, then the environment |
| NshAlias.AlwaysConsistent | apps/nshlib/nsh_alias.c:76-293 | After every history the live and free queues split the slots, live names differ, exactly the slots held by running commands are marked, each once, and no mark is left when none runs |
| NshAlias.StepSafe | apps/nshlib/nsh_alias.c:76-293 | Each operation keeps that invariant |
| NshAlias.FreshSafe | apps/nshlib/nsh_alias.c:76-96 | The initial lists satisfy it |
| NshAlias.ExpansionRecorded | apps/nshlib/nsh_parse.c:388-402 | The capacity test of nsh_alist_add never drops an alias |
| NshAlias.HeldStays | apps/nshlib/nsh_alias.c:122-152 | While a command runs no operation frees or renames a slot it expanded |
| NshAlias.ReleaseAt | apps/nshlib/nsh_parse.c:409-431 | When a command ends its slots are freed exactly if they wait for removal, and other slots are untouched |
| NshAlias.ReleaseInv | apps/nshlib/nsh_parse.c:409-431 | The end of a command gives up exactly its marks |
| NshAlias.SaveIsUpdate | apps/nshlib/nsh_alias.c:158-194 | Saving is an update of a map of limited size, with the exact failures, and no other name sees it |
| NshAlias.SavedSurvivesIff | apps/nshlib/nsh_alias.c:158-194 | A successful save outlives the running commands if and only if the alias was not waiting for removal |
| NshAlias.UnaliasTakesEffect | apps/nshlib/nsh_alias.c:122-152 | An alias removed at whatever depth of running commands is gone when they have ended, and no other alias is affected |
| NshAlias.UnaliasAllTakesEffect | apps/nshlib/nsh_alias.c:214-227 | Removing all aliases leaves none when the running commands have ended |
| NshAlias.UnwindValue | apps/nshlib/nsh_parse.c:409-431 | When the running commands have ended every alias has the value it had, except those that waited for removal, which are gone |
| NshAlias.DeleteAllInv | apps/nshlib/nsh_alias.c:214-227 | Removing all aliases leaves exactly the expanded ones, marked |
| NshAlias.ExpandsIff | apps/nshlib/nsh_alias.c:247-270 | In every reachable state with a running command, a word is expanded to its text, marked and recorded if and only if it is an alias with a value that is not expanded already; otherwise nothing changes |
| NshAlias.ExpandedOnce | apps/nshlib/nsh_alias.c:247-270 | A word that is expanded is held from then on and is not expanded a second time |
| NshAlias.SavedIsExpanded | apps/nshlib/nsh_parse.c:1033-1051 | An alias saved while no command holds its name is expanded to its value by the next command |
| NshAliasTable.AliasTable.constructor | apps/nshlib/nsh_alias.c:76-96 | alias_init in place |
| NshAliasTable.AliasTable.FindAlias | apps/nshlib/nsh_alias.c:102-116 | alias_find is the lookup |
| NshAliasTable.AliasTable.DeleteAlias | apps/nshlib/nsh_alias.c:122-152 | alias_delete in place |
| NshAliasTable.AliasTable.SaveAlias | apps/nshlib/nsh_alias.c:158-194 | alias_save in place, with its failures |
| NshAliasTable.AliasTable.RemoveAll | apps/nshlib/nsh_alias.c:214-227 | The walk takes the successor before it deletes, and so deletes exactly the entries that were live at the start, although it changes the queue it walks |
| NshAliasTable.AliasTable.ExpandAlias | apps/nshlib/nsh_parse.c:1033-1051 | The text of the live alias of that name, unless it is expanded already; it is marked and recorded, within the list's capacity |
| NshAliasTable.AliasTable.FreeList | apps/nshlib/nsh_parse.c:409-431 | nsh_alist_free in place |
| PcmSubsample.Subsample | nuttx/audio/pcm_decode.c:512-667 | The in-place loop keeps exactly the bytes the byte-at-a-time automaton keeps and leaves its phase, for every buffer and phase from which it returns |
| PcmSubsample.LoopEndsIff | nuttx/audio/pcm_decode.c:606-661 | The copying loop ends if and only if samples have a size, or the buffer holds nothing but bytes to be skipped: an alignment of zero, which the header check lets through, makes it run forever |
| PcmSubsample.OnePass | nuttx/audio/pcm_decode.c:606-661 | One pass copies a sample and skips a gap without overwriting a byte still to be read |
| PcmSubsample.Shrink | nuttx/audio/pcm_decode.c:601-661 | The whole loop writes the kept bytes and leaves the phase, with no byte overwritten before it is read |
| PcmSubsample.FinishSample | nuttx/audio/pcm_decode.c:546-599 | A sample begun in the previous buffer is completed |
| PcmSubsample.Cut | nuttx/audio/pcm_decode.c:512-667 | The automaton on a concatenation is the automaton on its parts |
| PcmStream.PlayBytewise | nuttx/audio/pcm_decode.c:438-667 | Play by buffers, with rate requests between, refines play by bytes |
| PcmStream.ChunkInvariance | nuttx/audio/pcm_decode.c:438-667 | Two runs with the same bytes and requests in the same places give the same output and state, wherever the buffers end |
| PcmStream.ConstantRate | nuttx/audio/pcm_decode.c:512-667 | At a constant rate from a fresh start exactly the bytes at positions p with p mod (align*rate) < align are kept, however the stream is cut |
| PcmStream.ClosedFormIff | nuttx/audio/pcm_decode.c:512-667 | That closed form holds for every stream if and only if align*(rate-1) fits the 8-bit counter |
| PcmStream.ClosedFormBreaks | nuttx/audio/pcm_decode.c:512-667 | Where it does not fit, a stream on which the closed form fails |
| PcmStream.FreshStartIff | nuttx/audio/pcm_decode.c:1031-1150 | A later stream is decoded as from a fresh start if and only if no skip and no partial sample are left over |
| PcmStream.NormalPlay | nuttx/audio/pcm_decode.c:438-498 | A request for normal play takes effect at once: every byte behind it is passed down |
| PcmStream.FastForward | nuttx/audio/pcm_decode.c:438-498 | A request for fast forward in normal play: exactly every rate-th sample is passed down, counted from the first byte behind the request |
| PcmStream.ChangeOfRate | nuttx/audio/pcm_decode.c:438-498 | A new rate during fast forward keeps the phase and changes the gaps behind it |
| PcmStream.GapFinished | nuttx/audio/pcm_decode.c:601-661 | The rest of the gap at hand is skipped, then whole samples are kept as from a fresh start |
| PcmStream.StaysClear | nuttx/audio/pcm_decode.c:438-498 | Over every run of buffers and requests, no gap and no partial sample are pending in normal play |
| PcmWav.EndsIff | nuttx/audio/pcm_decode.c:314-425 | The walk, in 32-bit arithmetic, ends if and only if it ends within as many turns as the buffer has bytes |
| PcmWav.EndlessIff | nuttx/audio/pcm_decode.c:314-425 | The walk goes on forever if and only if it comes to some place twice |
| PcmWav.EndlessChunk | nuttx/audio/pcm_decode.c:314-425 | A chunk of length 2^32 - 8 is followed by itself, and the walk never ends |
| PcmWav.EndsUnwrapped | nuttx/audio/pcm_decode.c:314-425 | Where no sum wraps, the walk ends and stays inside the buffer |
| PcmWav.WalkIff | nuttx/audio/pcm_decode.c:314-425 | The walk finds a data chunk if and only if the chunk list reaches one, and returns the offset past its header |
| PcmWav.HeaderSizeIff | nuttx/audio/pcm_decode.c:292-425 | A header is accepted if and only if it is a supported PCM header whose chunk list reaches a data chunk |
| PcmWav.ParseWav | nuttx/audio/pcm_decode.c:314-425 | On a buffer whose walk ends inside it, the loop ends and returns the header size and when the format is stored |
| PcmDecoder.EndToEnd | nuttx/audio/pcm_decode.c:1031-1150 | Over every accepted run that starts with a header the source can cope with, the lower driver receives the subsampled bytes behind the header, across buffers and rate requests |
| PcmDecoder.FileAtConstantRate | nuttx/audio/pcm_decode.c:1031-1150 | However the bytes behind the header are cut, the lower driver receives exactly every rate-th sample |
| PcmDecoder.StreamOn | nuttx/audio/pcm_decode.c:1031-1150 | While streaming, what is passed down is the stream's subsampling |
| PcmDecoder.FinalEnds | nuttx/audio/pcm_decode.c:1031-1150 | A stream ends with its final buffer and with nothing else |
| PcmDecoder.RefusedAlone | nuttx/audio/pcm_decode.c:1031-1150 | Over every run of a stream in which the lower driver refuses some buffers, it receives the other buffers' parts of the same output |
| PcmDecoder.RefusedHeader | nuttx/audio/pcm_decode.c:1031-1150 | A first buffer that is refused does not begin the stream; the format of a valid header stays, and a configured driver leaves the phase moved on |
| PcmFile.FrontIff | nuttx/audio/pcm_decode.c:292-302 | A header is valid if and only if it is, byte for byte, the front of a PCM WAV file with that format |
| PcmFile.FileReadsBack | nuttx/audio/pcm_decode.c:292-425 | A PCM WAV file with any other chunks before its data is accepted if and only if it has 8 or 16 bits, one or two channels, and data if such chunks are there; its format is read back and what is left to play is its data |
| PcmFile.FilePlayed | nuttx/audio/pcm_decode.c:1031-1150 | A file played at one rate: the lower driver gets every rate-th sample of its data |
| PcmDecoder.PcmDecoder.Configure | nuttx/audio/pcm_decode.c:438-498 | The request in place; NormalPlay, FastForward and ChangeOfRate say what is heard after it |
| PcmDecoder.PcmDecoder.PassDown | nuttx/audio/pcm_decode.c:1031-1150 | A buffer is subsampled in place and handed down |
| PcmDecoder.PcmDecoder.Enqueue | nuttx/audio/pcm_decode.c:1031-1150 | Header first, then data: when a buffer is accepted, what is passed down, and the state after it, also when the lower driver refuses |
| ModbusMaster.Conservation | apps/modbus/mb_m.c:274-443 | Over every run, on either port: releases plus queued events that owe one plus posts absorbed by a set flag equal the outside posts, every release told exactly one waiter, and a lossless queue absorbs nothing |
| ModbusMaster.DrainedExactIff | apps/modbus/nuttx/portevent_m.c:82-94 | A drained run releases once per outside post if and only if every post found its flag clear |
| ModbusMaster.FlagsLose | apps/modbus/nuttx/portevent_m.c:82-94 | Two failures before the next poll give one release, which tells only the later one |
| ModbusMaster.PollsBounded | apps/modbus/mb_m.c:274-443 | With weights 3, 2 and 1, no schedule of deliveries takes more polls than the weight of the queue |
| ModbusMaster.NeverStuck | apps/modbus/nuttx/portevent_m.c:96-150 | An enabled master with an event queued can take one |
| ModbusMaster.DeliveredIff | apps/modbus/nuttx/portevent_m.c:96-150 | The flag port delivers a queued event if and only if none of lower rank is queued, and so leaves no choice |
| ModbusMaster.ReplyDelivered | apps/modbus/mb_m.c:306-431 | A single reply ends in exactly one release and the outcome its frame deserves: wrong address or damage, exception, or success |
| ModbusMaster.SuccessIff | apps/modbus/mb_m.c:306-378 | A reply is a success if and only if it comes from the slave asked and its handler accepts it, or it is an exception reply (section 7 of the MODBUS Application Protocol Specification V1.1b3) with code zero; exception codes and functions without a handler are failures |
| ModbusMaster.HandleConserves | apps/modbus/mb_m.c:301-440 | Handling one event keeps its debt, passes it on or pays it, and lightens the load |
| ModbusMaster.HandlerIff | apps/modbus/mb_m.c:338-348 | The handler is the least table entry with the code before the end of the table |
| ModbusMaster.BroadcastSuccessIff | apps/modbus/mb_m.c:354-365 | A broadcast succeeds if and only if the handler succeeds for the last slave |
| ModbusMaster.BroadcastHidesFailures | apps/modbus/mb_m.c:354-365 | A broadcast that fails for all other slaves is reported as a success |
| ModbusRuns.BroadcastMovesAddress | apps/modbus/mb_m.c:354-365 | After a broadcast that finds a handler, a reply is refused if and only if it does not come from the last slave |
| ModbusRuns.AddressHeld | apps/modbus/mb_m.c:354-365 | Over every run the address stays, unless a broadcast moves it to the last slave |
| ModbusRuns.LastHolds | apps/modbus/mb_m.c:233-443 | Over every run the frame held is the last one loaded, the broadcast mark the last one sent with, and the state of an initialised master the last one switched to |
| ModbusRuns.PausedHolds | apps/modbus/mb_m.c:274-297 | Until it is enabled a master releases nothing, tells nothing and loses no event |
| ModbusDevice.Device.EnableMaster | apps/modbus/mb_m.c:233-250 | Enabling succeeds exactly from the disabled state, and leaves the master enabled |
| ModbusDevice.Device.DisableMaster | apps/modbus/mb_m.c:252-272 | Disabling succeeds exactly when initialised, and leaves the master disabled |
| ModbusDevice.Device.PostEvent | apps/modbus/nuttx/portevent_m.c:82-94 | Setting the flag is the post of the flag port |
| ModbusDevice.Device.GetEvent | apps/modbus/nuttx/portevent_m.c:96-150 | The flag of highest priority is taken, if any is set |
| ModbusDevice.Device.RunHandler | apps/modbus/mb_m.c:324-378 | The search and the slave loop give the exception: the reply's own when its code has the high bit, illegal function without a handler, else the handler's; a broadcast calls the handler for every slave in order |
| ModbusDevice.Device.Dispatch | apps/modbus/mb_m.c:301-440 | The event switch in place |
| ModbusDevice.Device.PollMaster | apps/modbus/mb_m.c:274-443 | A poll is refused unless enabled; else it is the machine's step on the delivered event |
| ModbusDevice.Device.WaitFinish | apps/modbus/nuttx/portevent_m.c:281-312 | The waiter reads and clears the outcomes |
| ModbusDevice.ReadingIs | apps/modbus/nuttx/portevent_m.c:281-312 | A waiter reads the foremost of the outcomes told since the last wait: success, then timeout, then damage, then exception |
| ModbusDevice.RequestAnswered | apps/modbus/nuttx/portevent_m.c:281-312 | After a reply exactly one wait can succeed; it reads what the reply deserves and leaves nothing for the next request to read |
| AudioComposite.TransactionalIff | nuttx/audio/audio_comp.c:320-371 | Success leaves every supporting device started; failure leaves none started if and only if every device started before the failing one can be stopped |
| AudioComposite.RollbackMirrors | nuttx/audio/audio_comp.c:355-365 | The rollback calls are the start calls in reverse order |
| AudioComposite.FailureReported | nuttx/audio/audio_comp.c:320-371 | Without a failing device the result is the initial value or not negative |
| AudioComposite.LatestIs | nuttx/audio/audio_comp.c:320-371 | Without a failure the code is that of the last supporting device, or the initial one |
| AudioComposite.UpsAre | nuttx/audio/audio_comp.c:320-371 | The operation is called once on each device that has it, lowest first |
| AudioComposite.DownsAre | nuttx/audio/audio_comp.c:381-419 | The inverse is called once on each device that has it, highest first |
| AudioComposite.HalfStarted | nuttx/audio/audio_comp.c:355-365 | A started device without a stop stays started after a failure |
| AudioComposite.FoldSign | nuttx/audio/audio_comp.c:381-419 | The reverse loop reports failure if and only if some supporting device failed |
| AudioComposite.FoldIs | nuttx/audio/audio_comp.c:429-467 | The code reported is that of the lowest failing device, else of the lowest supporting one |
| AudioComposite.Composite.Forward | nuttx/audio/audio_comp.c:477-529 | The forward loop activates the devices before the first failure, undoes them, and makes exactly these calls |
| AudioComposite.Composite.Rollback | nuttx/audio/audio_comp.c:809-819 | The nested loop undoes the earlier devices, last first |
| AudioComposite.Composite.Backward | nuttx/audio/audio_comp.c:843-884 | The reverse loop visits every device, last first, whatever the others return |
| BinfmtActions.CopyActions | nuttx/binfmt/binfmt_copyactions.c:63-172 | Unknown actions and lack of memory are refused; else one block of exactly the packed size, from which a reader that follows the links gets the same actions back with all their fields and paths |
| BinfmtActions.AddSizes | nuttx/binfmt/binfmt_copyactions.c:81-106 | The first pass counts the packed size or finds an unknown action |
| BinfmtActions.Pack | nuttx/binfmt/binfmt_copyactions.c:117-169 | The second pass fills the block exactly and links the copies |
| BinfmtActions.PutEntry | nuttx/binfmt/binfmt_copyactions.c:120-164 | One entry is written inside its own range |
| BinfmtActions.OffsetsApart | nuttx/binfmt/binfmt_copyactions.c:117-169 | Entries occupy consecutive ranges |
| BinfmtActions.PackedVisits | nuttx/binfmt/binfmt_copyactions.c:117-169 | Following the links of the packed block visits the same actions in the same order |
| BinfmtActions.VisitsReads | nuttx/binfmt/binfmt_copyactions.c:117-169 | A reader of the block gets every field of every action back: descriptors, flags, mode and path |
| BinfmtActions.SizeAddsUp | nuttx/binfmt/binfmt_copyactions.c:81-106 | The packed size is the sum of the sizes of the actions, each by its kind |
| BinfmtActions.AlignUp | nuttx/binfmt/binfmt_copyactions.c:96-99 | The least multiple of the alignment that is large enough |
| BinfmtArgv.CopyArgv | nuttx/binfmt/binfmt_copyargv.c:71-140 | More than 256 strings are refused before allocation; a missing or empty list has no copy; else one block, filled exactly, from which a reader that follows the pointers gets the same list back |
| BinfmtArgv.Fill | nuttx/binfmt/binfmt_copyargv.c:120-134 | Pointer and string of each argument stand where they belong and the table is closed |
| BinfmtArgv.PlaceOne | nuttx/binfmt/binfmt_copyargv.c:124-130 | Placing an argument disturbs none placed before |
| BinfmtArgv.PlacedReads | nuttx/binfmt/binfmt_copyargv.c:71-140 | A reader that follows the pointers of a filled block up to the null pointer gets the same strings |
| BitmapRle.EncodeRow | apps/tools/bitmap_converter.py:60-80 | The loop encodes the quantized row in full runs of at most 255, fails exactly where quantizing fails, and no encoding of the row is shorter |
| BitmapRle.RoundTrip | apps/tools/bitmap_converter.py:60-80 | Decoding gives back every row |
| BitmapRle.Optimal | apps/tools/bitmap_converter.py:60-80 | No list of runs of 1 to 255 that decodes to the row has fewer entries |
| BitmapRle.OnlyFull | apps/tools/bitmap_converter.py:60-80 | An encoding of the row is the one written if and only if its runs stop short of 255 only where the colour changes |
| BitmapRle.Greedy | apps/tools/bitmap_converter.py:66-75 | A longer held run costs at most the entry it closes and never saves one |
| BitmapRle.QuantizeNearest | apps/tools/bitmap_converter.py:48-57 | The exact match and the fallback are one rule: an index is chosen if and only if it is the first nearest palette colour |
| NshHexdump.Hexdump | apps/nshlib/nsh_dbgcmds.c:415-494 | However the reads split the file, the dumps are file[skip .. min(skip+count, size)], negative values counting as none, each at the offset it prints, and the command fails exactly if it still wanted bytes when a read failed |

## Left out

- NshTheorems.FaithfulIffFits: states the exact condition when errors end the script, and for scripts in which no break of an enclosing loop follows a loop that can be left from inside an if; RescuedFaithful shows that outside this condition fitting is not necessary. In error-ignore mode fitting is proved sufficient (MeaningPreserved), not necessary.
- NshTheorems.MeaningPreserved: takes loop tests without quotes; in error-ignore mode nothing may follow a plain command on its text line, because an error then drops the rest of the line.
- NshLayout.JoinedMeaning: the same.
- NshSpread.Follows: takes scripts in which every if is followed by its `then`, because an error status is swallowed in between (RefusedLoop), and in which no loop tests an `if` and no if tests a `break`.
- NshSpread.EndsToo: the same scripts.
- NshJoin.ParseJoined: leaves out the state in which that error status is swallowed.
- NshSafety.RunSafe: takes loop tests without quotes.
- NshSteps.StepRepeat: takes loop tests as split words, without quotes; HeadReturnsIff says where a loop with a quoted test goes back to, and what the machine makes of it from there is not modelled.
- NshLine.ParseLine: takes lines shorter than 64 KiB, does not write the NUL over the semicolon, and leaves out that an error or a jump stops it.
- NshVarStore.VarStore.FindVar: takes a walk that meets no text equal to the name before the match, because the comparison then reads past both ends (NameIsText); no such text arises from names without an equals sign (TextsArePairs).
- NshVarStore.VarStore.CmpName: takes a text that is not the name itself, for the same reason.
- NshVarStore.VarStore.SetVar: the same walk.
- NshVarStore.VarStore.GetVar: the same walk.
- NshVarStore.VarStore.UnsetVar: the same walk.
- Environ.TaskGroup.CmpName: takes a text that is not the name itself, as there.
- Environ.TaskGroup.FindVar: the same walk.
- Environ.TaskGroup.GetEnvironment: the same walk.
- Environ.TaskGroup.SetEnvironment: the same walk; `ok` stands for all its allocations.
- Environ.TaskGroup.UnsetEnvironment: the same walk.
- Environ.TaskGroup.RemoveVar: takes the shrinking reallocation of the pointer array to succeed, as the source asserts.
- NshExpand.ArgExpand: takes allocations to succeed and leaves out the trace output and the flag for a leading variable.
- NshEnv.SessionState.SetCommand: takes names for which both searches are defined; the option letters of `set` are not modelled.
- NshEnv.SessionState.ExportCommand: takes names for which both searches are defined.
- NshEnv.SessionState.UnsetCommand: takes names for which both searches are defined.
- NshEnv.SessionState.EnvExpand: takes names for which both searches are defined; the digits of the process identifier are a parameter.
- NshAliasTable.AliasTable.ExpandAlias: stops at the chosen text; joining it with the rest of the command line is not modelled.
- PcmWav.ParseWav: takes 32-bit sizes and a walk that ends inside the buffer; EndlessIff says when it does not end.
- PcmDecoder.PcmDecoder.Enqueue: takes a first buffer whose chunk walk ends inside it and, where the format is stored, an alignment that is not zero and exceeds a partial sample left over; LoopEndsIff says when subsampling would not return.
- ModbusDevice.Device.RunHandler: a handler is an answer for each destination address; its writes to the frame and the length are not modelled.
- ModbusDevice.Device.GetEvent: with no flag set the source also polls the serial device and the timers; what they post is an outside post of the model, not part of this call.
- ModbusDevice.Device.PollMaster: the same for a poll that finds no event.
- BinfmtActions.CopyActions: a structure's fields stand in the first byte of its range; their encoding and an overflow of the int that adds up sizes are not modelled.
- BinfmtArgv.CopyArgv: an overflow of the size is not modelled.
- AudioComposite.Composite.Forward: the session table of multi-session builds is not modelled.
- NshHexdump.Hexdump: parsing the options is not modelled.
- Splitting a line into words, redirection, pipes, background and nice commands, and keywords produced by aliases.
- `set +e` and `set -e` inside a running script, and a seek that fails.
- Listing all variables.
- Alias printing and the argument loops of `alias` and `unalias`.
- Modbus framing, CRC, timers, the ASCII mode and the slave.
- The other commands, drivers, loaders and libraries of the tree.
