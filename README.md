# Arxis AI Support: reply formatting, the demo conversation machine and the release scripts

This project models, in Dafny, the deterministic logic of the Arxis AI Support
desktop assistant and proves properties of it. There are three parts.

- **Reply formatting and streaming** (`Formatter`, `Streaming`).
  - `format_response_text` turns every two-character backslash-n escape of a
    reply into a real line break. Each line then goes through a per-line
    pass, and all three of its branches keep the line as it is.
  - `split_text_for_streaming` cuts a reply into the chunks the chat window
    streams. A line-break marker stands between the chunks of consecutive
    lines. Each non-blank line is cut greedily into word groups, and a group
    is flushed once it is longer than 20 characters or its word equals the
    line's last word.
  - The copies of both functions in main.py (lines 325-372) are the same
    code, so the same members model them. Each row of the table cites the
    file whose lines state the property most directly.
- **The demo conversation machine** (`SupportFsm`). This covers
  `MockSupportBot.MockFSM` of demo.py as a class with its two fields and a
  ghost history of `set_next_state` calls. `Step` is one turn of
  `run_state_machine` as written. `DecideCorrected` is the same turn with the
  CONFIRM test corrected (see Findings). `ProcessChat` models the demo window's quit/exit
  short-circuit, and `IsQuitCommand` is the same test in main.py.
- **The release scripts** (`BuildScripts`).
  - preBuild.py turns the DEBUG flag of Functions.py off.
  - update_version.py writes a new version into Functions.py and version.rc.
  - Both scripts are classes whose methods work on the files as sequences
    of lines. Pure functions (`PreBuildLines`, `ReadVersions`, `Rewrite`,
    `UpdateVersion`) say what the scripts compute. Lemmas say which lines
    change, into what, and that no other line does.
  - Python's `IndexError` on a missing marker, a missing comma field or a
    missing command-line argument becomes an `Err` of the `Failure`
    datatype.

`Text` holds the parts of Python's `str` behaviour the code relies on, over
ASCII:
- `lower`, `strip`, `split()` and `split(sep)`, `sep.join`, `in` and
  `replace`.
- `replace` scans left to right without overlaps. Replacing the empty
  string inserts the replacement everywhere.
- `split(sep)` always yields at least one part.

`Outcome` holds the `Option` and `Result` types.

The chunker follows the code, not the prose description of it. The code
flushes a group when the current word is *equal* to the line's last word
(`word == words[-1]`), not only when the line is exhausted. An earlier copy
of the last word therefore ends a chunk early (`RepeatedLastWordFlushesEarly`).
No word is lost or repeated either way (`LineChunksMeaning`,
`LineChunksResplit`).

On the shipped Functions.py, the first line containing `Version =` is
`Version = "".join(["v", Version_Number])`. The value update_version.py
extracts from it is `.join([v, Version_Number])`, which does not occur in
that line, so the rewrite leaves the line unchanged. The model computes this
(`UpdateChangesOnlyMarkedLines` states the line becomes `Replace(line, old,
…)`), but no lemma about that particular file is given.

## Model

| member | source | states |
|---|---|---|
| Text.Lower | usr/lib/Arxis-AI-Support/demo.py:56 | `lower()` keeps the length and lowers each ASCII letter in place |
| Text.Strip | usr/lib/Arxis-AI-Support/Functions.py:43 | `strip()` is empty exactly when the line is blank; otherwise it neither starts nor ends with whitespace |
| Text.Words | usr/lib/Arxis-AI-Support/Functions.py:45 | `split()` yields non-empty whitespace-free words, and none exactly for a blank text |
| Text.SplitOn | usr/lib/Arxis-AI-Support/Functions.py:40 | `split(sep)` yields at least one part, and no part holds the separator |
| Text.JoinSplit | usr/lib/Arxis-AI-Support/Functions.py:17 | joining the parts of a split with the separator restores the text |
| Text.SplitJoin | usr/lib/Arxis-AI-Support/Functions.py:31 | splitting a join of separator-free parts gives the parts back |
| Text.SplitCount | usr/lib/Arxis-AI-Support/Functions.py:40 | a split has one more part than the text has separators |
| Text.WordsOfJoinSpace | usr/lib/Arxis-AI-Support/Functions.py:50 | words joined with single spaces split back into the same words |
| Text.Contains | usr/lib/Arxis-AI-Support/demo.py:79 | `sub in s`: some suffix of `s` starts with `sub`; `ContainsTrans`, `ContainsChar`, `ContainsPair` and `ContainsSlice` state its properties |
| Text.JoinWith | usr/lib/Arxis-AI-Support/Functions.py:31 | `sep.join(parts)`; `JoinSplit`, `SplitJoin` and `JoinCount` relate it to `split` |
| Text.Replace | usr/lib/Arxis-AI-Support/Functions.py:15 | `s.replace(t, r)`, left to right without overlaps, the empty pattern inserting everywhere; `ReplaceSame`, `ReplaceAbsent`, `ReplaceIntroduces` and `RemoveCharLeavesNone` state its properties |
| Text.ReplaceAbsent | usr/lib/Arxis-AI-Support/Functions.py:15 | replacing a non-empty text that does not occur changes nothing |
| Text.ReplaceSame | usr/lib/Arxis-AI-Support/preBuild.py:34 | replacing a text by itself changes nothing, the empty pattern included |
| Text.ReplaceIntroduces | usr/lib/Arxis-AI-Support/update_version.py:80-82 | after replacing an occurring text, the replacement occurs |
| Text.RemoveCharLeavesNone | usr/lib/Arxis-AI-Support/update_version.py:34 | `replace(c, "")` leaves no `c` and adds no character |
| Formatter.FormatResponseText | usr/lib/Arxis-AI-Support/Functions.py:6-31 | `format_response_text` (and `_format_response_text`, main.py:325-346); `FormatEmptyUnchanged`, `FormatIsUnescape`, `FormatKeepsLines` and `FormatIdempotent` state what it computes |
| Formatter.FormatEmptyUnchanged | usr/lib/Arxis-AI-Support/Functions.py:12-13 | an empty reply is returned unchanged |
| Formatter.FormatIsUnescape | usr/lib/Arxis-AI-Support/Functions.py:15-31 | formatting equals replacing every backslash-n escape by a line break: the per-line pass changes nothing |
| Formatter.FormatKeepsLines | usr/lib/Arxis-AI-Support/main.py:330-346 | in the main.py copy, the lines of the result are those of the unescaped text, each verbatim and in order |
| Formatter.UnescapeLeavesNoEscape | usr/lib/Arxis-AI-Support/Functions.py:15 | no backslash-n pair survives the replacement |
| Formatter.FormatIdempotent | usr/lib/Arxis-AI-Support/Functions.py:12-31 | formatting twice gives the same text as formatting once |
| Formatter.UnescapeEscape | usr/lib/Arxis-AI-Support/Functions.py:15 | unescaping inverts escaping on texts without a backslash-n pair |
| Formatter.EscapeUnescape | usr/lib/Arxis-AI-Support/Functions.py:15 | escaping inverts unescaping on texts without a real line break |
| Formatter.UnescapePlain | usr/lib/Arxis-AI-Support/Functions.py:15 | a backslash-free prefix passes through the replacement unchanged |
| Formatter.UnescapeLineThen | usr/lib/Arxis-AI-Support/Functions.py:15 | a backslash-free line followed by an escape becomes that line and a real line break |
| Formatter.FormatTwoLines | tests/test_functions.py:21-23 | `Line1\nLine2` written with an escape formats to two real lines |
| Formatter.FormatKeepsListLines | tests/test_functions.py:25-28 | a numbered line, a bullet line and a paragraph come out as exactly those three lines |
| Formatter.ClassifyNumbered | usr/lib/Arxis-AI-Support/Functions.py:22 | a line opening with a digit and `)` takes the numbered branch |
| Formatter.ClassifyBullet | usr/lib/Arxis-AI-Support/Functions.py:25 | a line opening with `-` takes the bullet branch |
| Formatter.ClassifyPlain | usr/lib/Arxis-AI-Support/Functions.py:28 | a line opening with a letter takes the plain branch |
| Streaming.ChunkFrom | usr/lib/Arxis-AI-Support/Functions.py:46-56 | the inner loop as a function of the remaining words and `current_chunk`; `ChunkFromIsGroups`, `GroupsCover` and `GroupsShape` state what it yields |
| Streaming.LineChunks | usr/lib/Arxis-AI-Support/Functions.py:43-56 | the chunks of one line, none for a blank line; `LineChunksMeaning`, `LineChunksResplit` and `LineChunksNoBreak` state what they are |
| Streaming.StreamChunks | usr/lib/Arxis-AI-Support/Functions.py:39-62 | each line's chunks joined with the marker; `StreamSplitsIntoLines` and `StreamMarkerCount` state its shape |
| Streaming.ChunkWords | usr/lib/Arxis-AI-Support/Functions.py:45-56 | the inner loop's chunks are those of the greedy grouping `ChunkFrom` |
| Streaming.ChunkLine | usr/lib/Arxis-AI-Support/Functions.py:43-56 | a line's chunks are `LineChunks(line)`: none for a blank line |
| Streaming.SplitTextForStreaming | usr/lib/Arxis-AI-Support/Functions.py:34-62 | the loop's chunk list is `StreamChunks(text)`: each line's chunks with a marker between consecutive lines |
| Streaming.ChunkFromIsGroups | usr/lib/Arxis-AI-Support/Functions.py:48-56 | each chunk is a group of the line's words joined with single spaces |
| Streaming.GroupsCover | usr/lib/Arxis-AI-Support/Functions.py:48-56 | the groups hold the pending words and then the line's words, in order, none lost or repeated |
| Streaming.GroupsShape | usr/lib/Arxis-AI-Support/Functions.py:54-56 | every group is non-empty and is flushed exactly when the code flushes it: over 20 characters or ending with the last word, and no shorter prefix qualified |
| Streaming.LineChunksMeaning | usr/lib/Arxis-AI-Support/main.py:354-367 | a line's chunks are its word groups joined by spaces; the groups concatenate to `line.split()`; each group is well flushed, so a multi-word chunk was at most 20 characters before its last word; only a blank line yields no chunk |
| Streaming.LineChunksResplit | usr/lib/Arxis-AI-Support/Functions.py:45-56 | splitting every chunk of a line on whitespace gives back the line's words in order |
| Streaming.LineChunksNoBreak | usr/lib/Arxis-AI-Support/Functions.py:50-55 | every word chunk is non-empty and holds no line break, so none equals the marker |
| Streaming.StreamSplitsIntoLines | usr/lib/Arxis-AI-Support/main.py:351-370 | cutting the chunk list at the markers gives each line's chunks: exactly one marker between consecutive lines and none after the last |
| Streaming.StreamMarkerCount | usr/lib/Arxis-AI-Support/Functions.py:40-60 | the number of markers equals the number of newlines in the text |
| Streaming.RepeatedLastWordFlushesEarly | usr/lib/Arxis-AI-Support/Functions.py:54 | a copy of the last word earlier in the line flushes the chunk there: `w x w` streams as `w` and `x w` |
| SupportFsm.ProvidesName | usr/lib/Arxis-AI-Support/demo.py:43-47 | the START test: the lowered input contains "name" or some `split()` word is alphabetic and longer than two letters; `StartTurn` and `NameMentionMovesOn` state what it decides |
| SupportFsm.ReadAnswer | usr/lib/Arxis-AI-Support/demo.py:78-99 | for a given veto list: confirmed exactly on a positive indicator with no veto word; unclear exactly when not confirmed and no negative indicator occurs; rejected otherwise |
| SupportFsm.ConfirmVerdictAsWritten | usr/lib/Arxis-AI-Support/demo.py:56-99 | the CONFIRM test as written: confirmed exactly on a positive indicator with none of "not", "no", "isn't", "aren't", "don't"; rejected exactly when not confirmed and a negative indicator occurs |
| SupportFsm.ConfirmVerdict | usr/lib/Arxis-AI-Support/demo.py:68-89 | the corrected CONFIRM test: the same with "incorrect" added to the veto words (see Findings) |
| SupportFsm.SaysFarewell | usr/lib/Arxis-AI-Support/demo.py:102-105 | the IDENTIFIED test: the lowered input contains one of the six farewell cues; `IdentifiedTurn` states what it decides |
| SupportFsm.DecideWith | usr/lib/Arxis-AI-Support/demo.py:42-114 | one turn for a given veto list; every state change is START→CONFIRM, CONFIRM→IDENTIFIED, CONFIRM→START or IDENTIFIED→END |
| SupportFsm.Decide | usr/lib/Arxis-AI-Support/demo.py:32-114 | the turn as the demo writes it, with its five veto words; every state change is one of the four transitions above |
| SupportFsm.DecideCorrected | usr/lib/Arxis-AI-Support/demo.py:68-95 | the turn with the corrected veto list; every state change is one of the four transitions; `CorrectionOnlyConcernsIncorrect` shows it differs from `Decide` only on answers containing "incorrect" |
| SupportFsm.IsQuitCommand | usr/lib/Arxis-AI-Support/demo.py:241 | `user_input.lower() in ["quit", "exit"]`; `QuitCommandShape` states which inputs pass and `ProcessChat` what passing does |
| SupportFsm.MockFsm.constructor | usr/lib/Arxis-AI-Support/demo.py:20-22 | a new machine is in START, not completed, with no state set |
| SupportFsm.MockFsm.IsCompleted | usr/lib/Arxis-AI-Support/demo.py:24-25 | completed exactly when END has been set at some point |
| SupportFsm.MockFsm.SetNextState | usr/lib/Arxis-AI-Support/demo.py:27-30 | the state becomes the argument; completion is set by END and never withdrawn |
| SupportFsm.MockFsm.Step | usr/lib/Arxis-AI-Support/demo.py:32-114 | one turn as the demo writes it: the reply, at most one `set_next_state` call and the new state are those `Decide` gives; the machine stays consistent |
| SupportFsm.ProcessChat | usr/lib/Arxis-AI-Support/demo.py:241-257 | quit or exit sets END and shows the closing notice without a turn; any other input runs one turn and shows its reply, then the ended notice once completed |
| SupportFsm.StartTurn | usr/lib/Arxis-AI-Support/demo.py:42-53 | START moves to CONFIRM exactly when the input mentions "name" or has an alphabetic word of more than two letters; otherwise it stays and asks for the name |
| SupportFsm.NameMentionMovesOn | usr/lib/Arxis-AI-Support/demo.py:43 | "name" in any case is enough to leave START |
| SupportFsm.ConfirmOnlyOnUnvetoedPositive | usr/lib/Arxis-AI-Support/demo.py:78-89 | CONFIRM moves to IDENTIFIED exactly on a positive indicator with none of the five veto words |
| SupportFsm.UnclearAnswerStays | usr/lib/Arxis-AI-Support/demo.py:97-99 | an answer with no indicator keeps CONFIRM and asks for clarification |
| SupportFsm.NegativeAnswerRestarts | usr/lib/Arxis-AI-Support/demo.py:91-95 | an answer the demo's test does not confirm but that holds a negative indicator returns to START |
| SupportFsm.NotCorrectRejected | usr/lib/Arxis-AI-Support/demo.py:74-84 | an answer containing "not correct" or "not right" is vetoed and rejected |
| SupportFsm.NotCorrectRestarts | usr/lib/Arxis-AI-Support/demo.py:68-95 | such an answer sends CONFIRM back to START, never to IDENTIFIED |
| SupportFsm.IdentifiedTurn | usr/lib/Arxis-AI-Support/demo.py:101-111 | IDENTIFIED moves to END exactly on a farewell cue in any case; otherwise it stays and offers more help |
| SupportFsm.OtherStatesSayGoodbye | usr/lib/Arxis-AI-Support/demo.py:113-114 | any other state, END included, replies "Goodbye!" and changes nothing |
| SupportFsm.EndAbsorbs | usr/lib/Arxis-AI-Support/demo.py:113-114 | no sequence of inputs leaves END |
| SupportFsm.EndOnlyThroughIdentified | usr/lib/Arxis-AI-Support/demo.py:101-107 | a run that reaches END from another state passes through IDENTIFIED |
| SupportFsm.HappyPath | usr/lib/Arxis-AI-Support/demo.py:42-107 | any input the START test accepts, then "yes", then "bye" take a new machine to END |
| SupportFsm.YesConfirms | usr/lib/Arxis-AI-Support/demo.py:78-89 | "yes" confirms |
| SupportFsm.NoRestarts | usr/lib/Arxis-AI-Support/demo.py:91-95 | "no" returns to START |
| SupportFsm.ByeEnds | usr/lib/Arxis-AI-Support/demo.py:102-107 | "bye" ends an identified conversation |
| SupportFsm.QuitCommandShape | usr/lib/Arxis-AI-Support/main.py:196-216 | only a four-letter input lowering to quit or exit qualifies, and the test ignores case |
| SupportFsm.UpperQuitIsQuit | usr/lib/Arxis-AI-Support/main.py:196 | "QUIT" qualifies |
| SupportFsm.IncorrectConfirmedAsWritten | usr/lib/Arxis-AI-Support/demo.py:78-89 | as written, the answer "incorrect" is confirmed |
| SupportFsm.IncorrectIdentifiedAsWritten | usr/lib/Arxis-AI-Support/demo.py:56-89 | as written, the machine moves from CONFIRM to IDENTIFIED on "incorrect" and thanks the user for confirming |
| SupportFsm.IncorrectRejected | usr/lib/Arxis-AI-Support/demo.py:68-95 | with the corrected veto list, an answer containing "incorrect" is rejected |
| SupportFsm.IncorrectRestarts | usr/lib/Arxis-AI-Support/demo.py:68-95 | with the corrected veto list, such an answer sends CONFIRM back to START |
| SupportFsm.CorrectionOnlyConcernsIncorrect | usr/lib/Arxis-AI-Support/demo.py:82-85 | on any answer without "incorrect" the corrected turn equals the demo's, in every state |
| BuildScripts.Matching | usr/lib/Arxis-AI-Support/preBuild.py:17 | the filtered list holds only lines containing the marker |
| BuildScripts.IndexOf | usr/lib/Arxis-AI-Support/preBuild.py:19 | `index` finds the first position holding an equal line |
| BuildScripts.FirstMatch | usr/lib/Arxis-AI-Support/preBuild.py:16-20 | the first position whose line contains the marker, or the length when there is none |
| BuildScripts.MatchingHead | usr/lib/Arxis-AI-Support/preBuild.py:17-19 | the filtered list is empty exactly when no line matches, and starts with the first matching line |
| BuildScripts.GetPosition | usr/lib/Arxis-AI-Support/preBuild.py:16-20 | `_getPosition` returns the smallest index whose line contains the marker, and fails exactly when no line does (update_version.py:24-27 is the same code) |
| BuildScripts.DropLast | usr/lib/Arxis-AI-Support/update_version.py:49 | slicing to `len - 1` drops the last character; an empty text stays empty |
| BuildScripts.SecondField | usr/lib/Arxis-AI-Support/preBuild.py:27 | `split("=")[1]` exists when the line holds `=`, holds no `=`, and occurs in the line |
| BuildScripts.MarkerHasEquals | usr/lib/Arxis-AI-Support/preBuild.py:25-27 | a line holding a marker ending in `=` holds `=`, so its second field exists |
| BuildScripts.DebugSetting | usr/lib/Arxis-AI-Support/preBuild.py:27 | the DEBUG setting is unpadded, holds no `=`, and occurs in the line |
| BuildScripts.PreBuildLines | usr/lib/Arxis-AI-Support/preBuild.py:13-36 | what the script does to the lines; `PreBuildChangesOnlyDebugLine`, `PreBuildTurnsDebugOff`, `PreBuildFailsWithoutMarker` and `PreBuildIdempotentWhenOff` state it |
| BuildScripts.PreBuildChangesOnlyDebugLine | usr/lib/Arxis-AI-Support/preBuild.py:30-36 | only the first DEBUG line changes, by replacing its setting with "False"; every other line is written back identical |
| BuildScripts.PreBuildTurnsDebugOff | usr/lib/Arxis-AI-Support/preBuild.py:34 | afterwards the DEBUG line holds "False" |
| BuildScripts.PreBuildFailsWithoutMarker | usr/lib/Arxis-AI-Support/preBuild.py:17-19 | the script fails exactly when no line holds "DEBUG =" |
| BuildScripts.PreBuildIdempotentWhenOff | usr/lib/Arxis-AI-Support/preBuild.py:11-34 | a flag already set to False leaves the file unchanged |
| BuildScripts.PreBuild.constructor | usr/lib/Arxis-AI-Support/preBuild.py:9-11 | the fields start empty, with "False" as the value to write |
| BuildScripts.PreBuild.ReadLines | usr/lib/Arxis-AI-Support/preBuild.py:22-28 | keeps the lines and reads the setting of the first DEBUG line; fails exactly when there is none |
| BuildScripts.PreBuild.WriteLines | usr/lib/Arxis-AI-Support/preBuild.py:30-36 | replaces the read setting by the new value on the first DEBUG line only, and hands back the lines |
| BuildScripts.PreBuild.Run | usr/lib/Arxis-AI-Support/preBuild.py:7-14 | reading then writing computes `PreBuildLines` |
| BuildScripts.VersionSetting | usr/lib/Arxis-AI-Support/update_version.py:32-34 | the old version holds no quote and no `=` and is unpadded |
| BuildScripts.TupleSetting | usr/lib/Arxis-AI-Support/update_version.py:48-54 | the filevers and prodvers values hold no parenthesis and no `=` |
| BuildScripts.QuotedSetting | usr/lib/Arxis-AI-Support/update_version.py:56-72 | the FileVersion and ProductVersion values fail exactly when the line has no comma, and otherwise hold no `'`, `)`, `u` or comma |
| BuildScripts.ReadVersions | usr/lib/Arxis-AI-Support/update_version.py:29-74 | the five values `readLines` takes, or the first failure; `UpdateFailsOnlyWhenReading` states when it fails |
| BuildScripts.RewriteSource | usr/lib/Arxis-AI-Support/update_version.py:77-85 | the Version line rewritten; see `UpdateChangesOnlyMarkedLines` |
| BuildScripts.RewriteResource | usr/lib/Arxis-AI-Support/update_version.py:86-103 | the four marker lines rewritten in order; see `UpdateRewritesResourceLines` |
| BuildScripts.Rewrite | usr/lib/Arxis-AI-Support/update_version.py:76-103 | `writeLines` on both files; see `UpdateChangesOnlyMarkedLines` and `UpdateWritesResourceVersions` |
| BuildScripts.UpdateVersion | usr/lib/Arxis-AI-Support/update_version.py:8-22 | the whole script on its argument list and both files; `UpdateNeedsArgument`, `UpdateFailsOnlyWhenReading` and `UpdateChangesOnlyMarkedLines` state it |
| BuildScripts.CommasShape | usr/lib/Arxis-AI-Support/update_version.py:93 | the tuple form of the new version has each dot turned into a comma and nothing else changed |
| BuildScripts.UpdateNeedsArgument | usr/lib/Arxis-AI-Support/update_version.py:19-21 | without a version argument the script fails before reading any file |
| BuildScripts.UpdateFailsOnlyWhenReading | usr/lib/Arxis-AI-Support/update_version.py:29-103 | the script fails exactly when reading does: a marker line is missing or a quoted-version line has no comma |
| BuildScripts.UpdateChangesOnlyMarkedLines | usr/lib/Arxis-AI-Support/update_version.py:76-103 | only the Version line of Functions.py changes, with the old version replaced by "v" and the new one; on version.rc every line other than the four marker lines is written back identical |
| BuildScripts.UpdateRewritesResourceLines | usr/lib/Arxis-AI-Support/update_version.py:92-100 | with distinct marker lines, the tuples are replaced by the new version with commas and the quoted values by the new version as given |
| BuildScripts.UpdateWritesSourceVersion | usr/lib/Arxis-AI-Support/update_version.py:80-82 | where the old version occurs on the Version line, "v" and the new version occur afterwards |
| BuildScripts.UpdateWritesResourceVersions | usr/lib/Arxis-AI-Support/update_version.py:92-100 | where a read value occurs on its marker line, the new version occurs there afterwards, in comma form on the tuple lines |
| BuildScripts.Updater.constructor | usr/lib/Arxis-AI-Support/update_version.py:11-17 | all fields start empty |
| BuildScripts.Updater.ReadLines | usr/lib/Arxis-AI-Support/update_version.py:29-74 | keeps both files' lines and stores the five values `ReadVersions` takes from their marker lines; fails exactly when it does |
| BuildScripts.Updater.WriteLines | usr/lib/Arxis-AI-Support/update_version.py:76-103 | rewrites the Version line and then the four marker lines one after another, as `Rewrite` computes, and hands both files back |
| BuildScripts.Updater.Run | usr/lib/Arxis-AI-Support/update_version.py:8-22 | the argument check, reading and writing together compute `UpdateVersion` |

## Left out

- The GUI is not modelled: widgets, message display, status updates and the character-by-character display pacing.
- The asyncio and threading plumbing is not modelled, and neither is the random 1-3 second delay in `run_state_machine`.
- support.py (both copies), bot.py, the root main.py and tmp_check_support.py are not part of this model. They wrap a state-machine library and the OpenAI client whose code is not available.
- main.py's quit/exit branch also calls `set_next_state("END")` on the real bot. That bot and its `process` call are not modelled; only the test itself (`IsQuitCommand`) is.
- Files are not opened, read or written, and the `print` in preBuild.py's `_getPosition` is dropped. Their contents are passed in and handed back as sequences of lines. Lines keep whatever line ending they carry, so `strip` removes it as Python does.
- Unicode is not modelled. `lower`, `isalpha`, `isdigit`, `split` and `strip` follow their ASCII behaviour.
- The formatter's `None` input, which Python returns unchanged, is not modelled. Inputs are strings.
- The exception handler of the demo's `process_chat` is not modelled. No modelled step raises.
- BuildScripts.Updater.ReadLines: the source stores each value as soon as it is read and raises at the first failure, leaving the values before it stored. The model stores all five values only once all are found, and leaves them unchanged on failure. The object is not used after a failure.
- BuildScripts.Updater.WriteLines: the source truncates Functions.py on opening it before looking up the Version line. Opening files is not modelled.
- The no-op slices `FileVersion[0 : len]` and `ProductVersion[0 : len]` (update_version.py:63,72) have no member of their own. They return the value unchanged.

## Findings

| source | as written | input that shows it | evidently intended | confidence | as-written member | corrected member |
|---|---|---|---|---|---|---|
| usr/lib/Arxis-AI-Support/demo.py:58-89 | An answer counts as a confirmation if it contains a positive indicator and none of "not", "no", "isn't", "aren't", "don't". The negative indicator "incorrect" contains the positive "correct" and none of those words. | The answer "incorrect" in the CONFIRM state is confirmed and moves to IDENTIFIED. | "incorrect" is listed as a negative indicator, so it should send the conversation back to START. The corrected test adds "incorrect" to the veto words; `DecideCorrected` is the machine's turn with it, and differs from the demo's only on such answers. The demo's machine (`Decide`, `Step`) keeps the code as written. | not executed | SupportFsm.IncorrectIdentifiedAsWritten | SupportFsm.IncorrectRestarts |
