# Suaegi, verified

A Dafny model of the stateful core of the Suaegi desktop application, and proofs about it. `dafny verify dfyconfig.toml` checks everything.

What is modelled, file by file:

- **The embedded editor** (`editor.rs`). `Editor` is the state of the tabs with its transitions; the class `EditorState` has the fields and the methods of the original, each proved equal to its transition. `FindReplace` proves search and replacement over the text, `ExactPresses` when replacing one by one gives the right text whatever it selects, `EditorTabs` what every call keeps, `EditorMatches` where the recorded match is over whole runs, `EditorCalls` what each call does to tabs, buffer and search bar, `EditorSaves` a save from its beginning to its reply, and `EditorProtocol` puts the editor beside a disk with other writers, requests in flight and late replies, and proves what holds in every interleaving; `EditorRuns` are runs that get somewhere. `Positions` is the way between offsets and the line and column of the text widget.
- **The tmux emulation for agent teams** (`claude_agent_teams.rs`). `TmuxArgs` parses the arguments, `AgentTeam` is the pane topology with the requests it makes, `AgentTargets` tells which pane a command means, `SendKeys` and `PaneFormat` make texts, `PaneFormatPieces` and `PaneNames` tell what a format renders to, `LockFile` is the lock file in its single steps, and `TeamStore` the transaction around a command, run by many processes over that lock file.
- **Parsers and printers**. `ShellWords` is the command-line splitter with the path escaper as its inverse, and `ShellSpelling` every other way to write words. `SafariCookies` is the decoder of Safari's cookie file, `SafariFile` a writer of such files, and `Utf8` the text encoding of section 3 of RFC 3629. `GhosttyConfig`, `GhosttyMapping`, `GhosttyImport` and `GhosttyPalette` are the import of Ghostty settings, `GhosttyWriter` and `GhosttyLines` are writers of such files, `GhosttyValues` tells key by key what is accepted, and `GhosttyThemes` what a theme gives.
- **Stale replies**. `FileExplorer`, `ExplorerRows`, `ExplorerDetails` and `ExplorerRuns` are the tree of files; `DiffPanel` the panel of changes; `Downloads` and `DownloadRuns` the download broker.
- **Durable and Git-facing decisions**. `VmStore`, `VmLifecycle`, `VmOutcomes` and `VmRuns` are the store of provisioned machines, `OutputTail` the tail of their commands' output, `ForkSync` the synchronisation of a fork, and `BranchRename` the renaming of a fresh branch.

Objects whose methods update fields are classes; their methods are proved against functions on a datatype that holds the same fields, and the properties of whole runs are lemmas about those functions. Loops are methods with invariants. Hash maps are iterated in an order about which nothing is known.

## What the code does not do

Some promises do not hold of the code as it is. In each case the exact condition is proved, or a run is given where the promise fails.

- Going through line and column, an offset after a carriage return is lost: a position counts no carriage returns. So a single replacement selects exactly its own match if and only if no end of the match follows a carriage return; when none does, replacing one match after the other gives what replacing all of them gives (`ReplacingOneByOneIsReplaceAll`). The text may come out right although more or less than the match was selected (`OnePressIsExactIff`, `EqualTextsWithoutSelecting`). Over all presses, each changes exactly its match if and only if a condition on the text holds, and then the text is again that of replacing all (`ExactPressesAreReplaceAll`). That is as far as an equivalence goes: inexact presses may make up for each other, so equal texts at the end do not tell that any press was exact (`InexactPressesMayAgree`).
- For the same reason the recorded match may leave the text, and the search that follows a replacement then slices the text outside itself. It does so exactly where a replacement does not fit (`PasteFitsIff`, `ReturnBeforeMatch`).
- Loading the active document's own location keeps a duplicate of it (`StaysDistinctIff`).
- Once the edit generation is saturated at 2^64 - 1, edits made during a save count as saved (`EditsDuringSaveStayUnsavedIff`).
- The team lock excludes exactly as long as no removal of a stale file takes the file away from under a live holder (`RunIsHeldIff`). There are three ways to such a removal, each enough by itself: the file is found before the process id is written into it (`UnwrittenPidBreaksExclusion`); a holder has died (`DeadHolderBreaksExclusion`); or the holder releases between another process's failed creation and its reading of the process id, which then finds no file and counts the owner as dead (`ReleaseBeforeReadingBreaksExclusion`). Without all three the lock excludes (`AssumptionsGiveExclusion`). Where it does not, a command that has succeeded may be lost (`HarmLosesACommand`).
- A cluster of options with an unknown character sets the flags before that character, and survives whole as a positional too (`UnknownOptionSurvives`).
- A path under an expanded and loaded directory is hidden once a refresh of the parent no longer lists that directory (`DroppedDirectoryHides`).
- A palette whose last line has no value is dropped as a whole (`SlotsAsPromisedIff`).
- A patch that arrives after the panel was closed and opened on the same worktree is accepted with no file selected (`LatePatchIff`, `LatePatchAfterReopening`).
- Two downloads from one address are told apart only by their age (`CompletesTheRightOneIff`). A download that nobody asked for, and one that was cancelled but goes on in the browser, are not even kept; when they complete, a request for the same address is told that its download has (`UnaskedAnswersAnother`, `CancelledAnswersAnother`). And ids start again after a reset (`OldIdEndsNewerIff`).
- The branch that is renamed is the one checked out at that moment; a checkout between the last check and the renaming is not noticed (`RenamesTheCheckedIff`, `CheckoutRenamesAnother`), and neither is a publication (`RenamesUnpublishedIff`, `PublishedBranchIsRenamed`).

## Assumptions

- `write_file` compares the signature and replaces the file in one step, and no two versions of a file have the same signature. Numbers of requests are never used twice. A request is answered at most once.
- The text widget resolves a position to the first offset that has it, and keeps text and selection as they are otherwise; in particular a carriage return ends no line of the widget, also where no line feed follows it, and has no column of its own. Offsets count characters, where the original counts bytes of UTF-8.
- The lock file is created, read and removed in one step each; its process id is written in one step, which may be the creation or a later one. A process id is not used again after its process has died. Reading the team and replacing its file are one step each; a process may fail or die between any two steps.
- Names in a directory are not empty, contain no slash and differ. The original reads names lossily, so names that are not UTF-8 may collide.
- Git is a set of named branches over an acyclic graph of commits. A push without force moves a branch only forward. Anybody may push, fetch, check out and publish between two commands, but the set of branches stays as it is while a free name is looked for.
- The store of machines has one writer, and a write of it happens as a whole or not at all.
- Floating-point numbers, prompts, remote calls, clocks and commands appear as parameters: what they answer is any value.

## Model

| member | source | states |
|---|---|---|
| Positions.BytePosition | crates/suaegi-app/src/editor.rs:123-135 | the loop over characters gives the line and column of an offset, and past the end that of the end |
| Positions.PositionsAgreeIff | crates/suaegi-app/src/editor.rs:123-135 | positions never go back, and two offsets share a position exactly when only carriage returns lie between them |
| Positions.ResolveIsExactIff | crates/suaegi-app/src/editor.rs:123-135 | an offset survives the way through a position exactly when it does not follow a carriage return |
| Positions.ResolveSkipsReturns | crates/suaegi-app/src/editor.rs:123-135 | the way through a position goes back over exactly the carriage returns directly before the offset |
| Positions.SelectionIsExactIff | crates/suaegi-app/src/editor.rs:381-406 | selecting a range through positions selects that range exactly when neither end follows a carriage return |
| Text.FindIsLeftmost | crates/suaegi-app/src/editor.rs:341-379 | the search gives the leftmost occurrence, and nothing only when there is none |
| Text.RFindIsRightmost | crates/suaegi-app/src/editor.rs:341-379 | the backward search gives the rightmost occurrence, and nothing only when there is none |
| Text.ReplaceIsSplitThenJoin | crates/suaegi-app/src/editor.rs:408-444 | replacing all is cutting the text at its non-overlapping matches and joining the pieces by the replacement |
| Text.SplitJoinsBack | crates/suaegi-app/src/editor.rs:408-444 | those pieces joined by the query give the text back, and the count of replacements is the number of joins |
| Text.TrimIsInner | crates/suaegi-app/src/ghostty_import.rs:40-67 | trimming drops blanks at both ends, all of them and nothing else |
| Text.LowerAt | crates/suaegi-app/src/claude_agent_teams.rs:637-650 | lowering changes the letters from A to Z and nothing else |
| FindReplace.FindNextFailsIff | crates/suaegi-app/src/editor.rs:341-379 | searching fails exactly without a text, without a query, or when no occurrence exists; otherwise the match reads as the query in the unchanged text |
| FindReplace.FindNextForward | crates/suaegi-app/src/editor.rs:341-379 | going forward takes the leftmost occurrence after the current match, and the leftmost of all when there is none |
| FindReplace.FindNextBackward | crates/suaegi-app/src/editor.rs:341-379 | going back takes the rightmost occurrence before the current match, and the rightmost of all when there is none |
| FindReplace.ReplacingElsewhereFinds | crates/suaegi-app/src/editor.rs:381-392 | where the match is gone or not there, replacing changes no text: it shows the leftmost match of all, and fails exactly when there is none |
| FindReplace.ReplacingOneByOneIsReplaceAll | crates/suaegi-app/src/editor.rs:381-444 | from the first match, replacing as often as there are non-overlapping matches selects its own match every time if and only if no match and no earlier replacement puts a carriage return before a match's end, and then gives exactly the text of replace-all; all texts, queries and replacements |
| FindReplace.PressesReplaceRest | crates/suaegi-app/src/editor.rs:381-406 | the same, for what is left of the text after some presses, by induction over the text |
| FindReplace.WithoutReturnsSelectable | crates/suaegi-app/src/editor.rs:381-444 | that condition holds of every text and replacement without carriage returns |
| FindReplace.ReturnBeforeMatch | crates/suaegi-app/src/editor.rs:381-406 | the concrete text where it fails: the carriage return before a match is lost with it, and the recorded match lies outside the text |
| FindReplace.OnePressIsExactIff | crates/suaegi-app/src/editor.rs:381-406 | one replacement changes exactly its match, whatever it selects, if and only if as many carriage returns stand before the match as before its end, and either none do or the replacement is nothing else |
| FindReplace.EqualTextsWithoutSelecting | crates/suaegi-app/src/editor.rs:381-406 | a text where a replacement selects more than its match and the text is right all the same |
| ExactPresses.ExactPressesAreReplaceAll | crates/suaegi-app/src/editor.rs:381-444 | from the first match, replacing as often as there are non-overlapping matches changes exactly the match every time if and only if, at each match of the text as replaced so far, as many carriage returns stand before the match as before its end and either none do or the replacement is nothing else; and then it gives exactly the text of replace-all, whatever it selects |
| ExactPresses.ExactPressesReplaceRest | crates/suaegi-app/src/editor.rs:381-406 | the same, for what is left of the text after some presses, by induction over the text |
| ExactPresses.SelectableIsExactable | crates/suaegi-app/src/editor.rs:381-444 | selecting one's own match every time is a special case |
| ExactPresses.InexactPressesMayAgree | crates/suaegi-app/src/editor.rs:381-444 | a text where neither of two presses is exact and the text at the end is that of replace-all |
| Editor.EditorState.OpenFind | crates/suaegi-app/src/editor.rs:315-322 | the method, proved equal to the transition of `Editor` that the lemmas are about: the search bar opens only over a text |
| Editor.EditorState.CloseFind | crates/suaegi-app/src/editor.rs:324-329 | the method, proved equal to the transition of `Editor` that the lemmas are about: closing the search bar keeps the documents |
| Editor.EditorState.SetFindQuery | crates/suaegi-app/src/editor.rs:331-335 | the method, proved equal to the transition of `Editor` that the lemmas are about: a new query forgets the match |
| Editor.EditorState.SetReplacement | crates/suaegi-app/src/editor.rs:337-339 | the method, proved equal to the transition of `Editor` that the lemmas are about: a new replacement keeps it |
| Editor.EditorState.Close | crates/suaegi-app/src/editor.rs:152-157 | the method, proved equal to the transition of `Editor` that the lemmas are about: closing drops every document and the search |
| Editor.EditorState.CloseActive | crates/suaegi-app/src/editor.rs:689-693 | the method, proved equal to the transition of `Editor` that the lemmas are about: the last hidden document becomes the active one |
| Editor.EditorState.BeginLoad | crates/suaegi-app/src/editor.rs:159-169 | the method, proved equal to the transition of `Editor` that the lemmas are about: the active document is kept hidden, others of the location are dropped, and the location loads under the new number |
| Editor.EditorState.AcceptLoad | crates/suaegi-app/src/editor.rs:171-236 | the method, proved equal to the transition of `Editor` that the lemmas are about: only the reply to the load that a document waits for is accepted, whether it is active or hidden |
| Editor.EditorState.Activate | crates/suaegi-app/src/editor.rs:238-253 | the method, proved equal to the transition of `Editor` that the lemmas are about: switching exchanges the active document with the hidden one of that location |
| Editor.EditorState.Perform | crates/suaegi-app/src/editor.rs:266-289 | the method, proved equal to the transition of `Editor` that the lemmas are about: an edit, and only an edit, makes the buffer unsaved, raises the saturating generation and forgets the match |
| Editor.EditorState.FindNext | crates/suaegi-app/src/editor.rs:341-379 | the method, proved equal to the transition of `Editor` that the lemmas are about: the search loop, wrapping once |
| Editor.EditorState.ReplaceCurrent | crates/suaegi-app/src/editor.rs:381-406 | the method, proved equal to the transition of `Editor` that the lemmas are about: the match is replaced only if it still reads as the query, and the next one is looked for |
| Editor.EditorState.ReplaceAll | crates/suaegi-app/src/editor.rs:408-444 | the method, proved equal to the transition of `Editor` that the lemmas are about: all matches at once, with their number |
| Editor.EditorState.RequestClose | crates/suaegi-app/src/editor.rs:486-498 | the method, proved equal to the transition of `Editor` that the lemmas are about: an unsaved buffer asks instead of closing |
| Editor.EditorState.BeginSave | crates/suaegi-app/src/editor.rs:513-542 | the method, proved equal to the transition of `Editor` that the lemmas are about: at most one save at a time, of the text and signature of that moment |
| Editor.EditorState.AcceptSave | crates/suaegi-app/src/editor.rs:544-600 | the method, proved equal to the transition of `Editor` that the lemmas are about: a reply is applied to the document that waits for it, and the buffer becomes clean only if its generation is the saved one |
| Editor.EditorState.CloseWorktree | crates/suaegi-app/src/editor.rs:620-627 | the method, proved equal to the transition of `Editor` that the lemmas are about: the documents of one worktree go, and no others |
| EditorCalls.ActivateSwitches | crates/suaegi-app/src/editor.rs:238-253 | switching works exactly when the location is open; then its document is active, the one before is hidden in its place, and the same documents are open |
| EditorCalls.LoadOpens | crates/suaegi-app/src/editor.rs:159-169 | which documents are open after a load has begun: the loading one, the one before, and the hidden ones of other locations |
| EditorCalls.LoadReplyShows | crates/suaegi-app/src/editor.rs:171-236 | a load's reply is taken exactly by the document that waits for it, which becomes what was loaded: a clean text, or why there is none; no other document changes |
| EditorCalls.LookupFinds | crates/suaegi-app/src/editor.rs:680-687 | a location is found at the active document first, then at the first hidden one |
| EditorCalls.CloseShowsLast | crates/suaegi-app/src/editor.rs:689-693 | after closing, the document that was hidden last is shown; closing everything leaves nothing |
| EditorCalls.ClosingAsks | crates/suaegi-app/src/editor.rs:486-511 | an unsaved buffer asks back instead of closing, and only such a one |
| EditorCalls.WorktreeCloses | crates/suaegi-app/src/editor.rs:620-627 | closing a worktree leaves exactly the documents of the others |
| EditorCalls.ActingEdits | crates/suaegi-app/src/editor.rs:266-289 | moving the caret changes nothing else; an edit makes the buffer unsaved, counts up to the limit of 64 bits and forgets the match, the confirmation and the error |
| EditorCalls.ReplacingAllEdits | crates/suaegi-app/src/editor.rs:408-444 | replacing all matches is one edit of the whole text, counted |
| EditorCalls.BarChanges | crates/suaegi-app/src/editor.rs:315-339 | what opening, closing and filling in the search bar changes |
| EditorSaves.ReplyTaken | crates/suaegi-app/src/editor.rs:544-600 | a reply is taken by the document that waits for it, active or hidden, and changes no other: text and generation stay, it waits no more, and it is clean exactly when the text was written and its generation is the saved one; otherwise it tells what failed |
| EditorSaves.ReplyLeft | crates/suaegi-app/src/editor.rs:544-600 | any other reply changes nothing |
| EditorSaves.SaveBegins | crates/suaegi-app/src/editor.rs:513-542 | a save takes text, signature and generation of its moment, and only of an unsaved buffer that is not being saved |
| EditorSaves.ActingMeanwhile | crates/suaegi-app/src/editor.rs:266-289 | whatever is done to the text meanwhile, the document goes on waiting, and its generation differs exactly when something was edited and the counter was not saturated |
| EditorSaves.WrittenIsCleanIff | crates/suaegi-app/src/editor.rs:513-600 | from the beginning of a save, over anything done to the text and a switch of tabs, to its success: the buffer carries the new signature and is unsaved exactly when something was edited meanwhile and the counter was not saturated |
| EditorTabs.InPlaceEvolves | crates/suaegi-app/src/editor.rs:255-406 | searching and editing calls leave hidden documents alone, and without an edit the buffer as it was |
| EditorTabs.AfterCall | crates/suaegi-app/src/editor.rs:152-289 | every document open after a call comes from one open before it, by the one change that the call allows |
| Editor.Editor.PasteFitsIff | crates/suaegi-app/src/editor.rs:381-406 | whether the range recorded after a replacement stays in the text, and the search after it slices inside the text, told before the call: exactly when the carriage returns before the match are no more than what follows the match and the returns before its end |
| EditorTabs.MatchStaysShown | crates/suaegi-app/src/editor.rs:341-444 | the recorded match stays a range of the text that is open under every call, if a replacement is only made where it fits |
| EditorMatches.OnlyReplacingIsUnsafe | crates/suaegi-app/src/editor.rs:341-406 | while the match is in the text, the one unsafe call is a replacement that does not fit |
| EditorMatches.MatchShownInRuns | crates/suaegi-app/src/editor.rs:341-444 | the match stays a range of the text over every run of safe calls |
| EditorMatches.WithoutReturnsEveryRunIsSafe | crates/suaegi-app/src/editor.rs:341-444 | when no text, no replacement and nothing typed, pasted or loaded has a carriage return, every call of every run is safe and the match always lies in the text |
| EditorTabs.UnsavedKept | crates/suaegi-app/src/editor.rs:152-600 | no call loses an unsaved buffer, except closing, discarding, closing its worktree, loading its location anew, or a reply that saves it |
| EditorTabs.UnsavedStays | crates/suaegi-app/src/editor.rs:152-627 | the same over every run of calls |
| EditorTabs.CountAfter | crates/suaegi-app/src/editor.rs:152-253 | how many open documents a location has after each call |
| EditorTabs.StaysDistinctIff | crates/suaegi-app/src/editor.rs:159-169 | open locations stay pairwise distinct exactly when the call does not load the active document's own location, which always leaves a duplicate |
| EditorTabs.RunsStayDistinctIff | crates/suaegi-app/src/editor.rs:152-253 | over every run: distinct all the way exactly when no call of it loads the active document's own location |
| EditorProtocol.InvStep | crates/suaegi-app/src/editor.rs:513-600 | the invariant of editor, disk, requests in flight and replies holds after every step of editor, disk or other programs |
| EditorProtocol.InvAfter | crates/suaegi-app/src/editor.rs:513-600 | and so over every interleaving |
| EditorProtocol.CleanBufferIsItsVersion | crates/suaegi-app/src/editor.rs:266-289 | a clean ready buffer is exactly the version whose signature it carries; a buffer being saved is unsaved; and the save in flight is for the version it carries |
| EditorProtocol.LandedSaveReplacesItsBase | crates/suaegi-app/src/editor.rs:863-871 | a save that lands for a waiting buffer replaces exactly the version the buffer was based on, and nothing else on disk changes |
| EditorProtocol.ConflictBlocks | crates/suaegi-app/src/editor.rs:544-600 | a reply with a conflict finds the disk moved on from the version its buffer is based on, and leaves the buffer blocked, however many documents are open at the location |
| EditorProtocol.BlockedStep | crates/suaegi-app/src/editor.rs:513-600 | the buffer stays blocked, and based on the same version, under every step: edits, tab switches, saves, replies, other writers |
| EditorProtocol.NothingLandsUntilReload | crates/suaegi-app/src/editor.rs:513-600 | from any files on disk, in every interleaving: after a conflict, and as long as the buffer is not reloaded, no save that it waits for changes the disk |
| EditorProtocol.StaleSavesNeverLand | crates/suaegi-app/src/editor.rs:863-871 | and, reload or not, no save of the file based on the buffer's version or an older one ever changes the disk again |
| EditorProtocol.EditsDuringSaveStayUnsavedIff | crates/suaegi-app/src/editor.rs:266-289 | edits made during a save stay unsaved after its success exactly when the 64-bit generation was not saturated when it began |
| EditorRuns.OpensTheFile | crates/suaegi-app/src/editor.rs:159-236 | from every state a file on disk can be opened, and the buffer is its clean text |
| EditorRuns.SavesTheText | crates/suaegi-app/src/editor.rs:513-600 | from there, what is typed is saved by the next save, undisturbed: the disk has it, and the buffer is clean |
| EditorRuns.LateSaveConflicts | crates/suaegi-app/src/editor.rs:544-600 | if another program writes meanwhile, its text stays on disk, and what was typed stays in the buffer, unsaved |
| ShellWords.SplitCommandLine | crates/suaegi-app/src/cli.rs:4142-4192 | the quote and escape loop computes the word splitting |
| ShellWords.SplitReadsThePathBack | crates/suaegi-app/src/external_editor.rs:336-355 | appending an escaped path to any command line that splits adds exactly that path to its words: every path |
| ShellWords.SplitReadsTheWordsBack | crates/suaegi-app/src/external_editor.rs:70-83 | splitting the escaped words, joined by blanks, gives the words back: every list of words |
| ShellSpelling.EverySpellingSplits | crates/suaegi-app/src/cli.rs:4142-4192 | however words are written, bare, escaped, in single or double quotes or mixed, with whatever blanks around them, the line splits into these words |
| ShellSpelling.UnclosedFails | crates/suaegi-app/src/cli.rs:4142-4192 | an open quotation of either kind, and a backslash at the end, are errors, whatever comes before |
| ShellSpelling.EscapesIff | crates/suaegi-app/src/external_editor.rs:70-83 | a word is written as it is exactly when it is not empty and all its characters are safe |
| TmuxArgs.ParseTmuxArgs | crates/suaegi-app/src/claude_agent_teams.rs:552-614 | the loop over arguments and cluster characters computes the parse |
| TmuxArgs.ParseConcat | crates/suaegi-app/src/claude_agent_teams.rs:552-614 | after a complete context, parsing goes on from what the context gave |
| TmuxArgs.ClusterIsSeparated | crates/suaegi-app/src/claude_agent_teams.rs:552-614 | a recognized cluster, with or without a value attached, parses exactly as its options written one by one |
| TmuxArgs.ClustersAreShorthand | crates/suaegi-app/src/claude_agent_teams.rs:552-614 | in every context where it is read as an option |
| TmuxArgs.PositionalsAdd | crates/suaegi-app/src/claude_agent_teams.rs:552-614 | positionals, flags and values found do not depend on what was parsed before |
| TmuxArgs.PositionalStays | crates/suaegi-app/src/claude_agent_teams.rs:570-574 | an argument that is empty, a dash, without a dash in front or with two and more is a positional, in its place, and nothing else, in every context where an option could stand |
| TmuxArgs.UnknownOptionSurvives | crates/suaegi-app/src/claude_agent_teams.rs:552-614 | an option with an unknown character survives whole as a positional, in its place; the flags before that character are set all the same, and no others by it |
| TmuxArgs.ParseReadsPrinted | crates/suaegi-app/src/claude_agent_teams.rs:552-614 | parsing inverts a printer: the flags, each option's values in order, and the positionals in order, between the options and after `--` |
| SendKeys.SendKeysText | crates/suaegi-app/src/claude_agent_teams.rs:616-635 | the loop over tokens computes the typed text |
| SendKeys.NamedKeysSeparate | crates/suaegi-app/src/claude_agent_teams.rs:616-635 | a named key stands, without blanks, between what the tokens before it and those after it type on their own |
| SendKeys.WordsAreJoined | crates/suaegi-app/src/claude_agent_teams.rs:616-635 | words alone are typed as the literal form types them |
| SendKeys.ControlKeys | crates/suaegi-app/src/claude_agent_teams.rs:637-650 | `c-x` types the control code of `x`, its code modulo 32, for the known characters only |
| SendKeys.NamedKeys | crates/suaegi-app/src/claude_agent_teams.rs:637-650 | the other names stand for control keys, the blank and the delete key |
| SendKeys.OtherTokensAreWords | crates/suaegi-app/src/claude_agent_teams.rs:637-650 | everything else is a word |
| PaneFormat.RenderFormat | crates/suaegi-app/src/claude_agent_teams.rs:652-707 | the replacing and removing loops compute the rendering |
| PaneFormat.RemovePlaceholders | crates/suaegi-app/src/claude_agent_teams.rs:652-707 | the removing loop ends, because the text shrinks |
| PaneFormat.NoFirstPlaceholderIff | crates/suaegi-app/src/claude_agent_teams.rs:652-707 | the search for a complete placeholder fails exactly when there is none |
| PaneFormat.RenderLeavesNoPlaceholder | crates/suaegi-app/src/claude_agent_teams.rs:652-707 | the result is the fallback, or a non-empty trimmed text without any complete placeholder, whatever the values contain |
| PaneFormat.PlainFormatsStay | crates/suaegi-app/src/claude_agent_teams.rs:652-707 | formats without complete placeholders come out as they are, up to the blanks around them, whatever the values |
| PaneFormatPieces.RendersItsMeaning | crates/suaegi-app/src/claude_agent_teams.rs:652-707 | a format made of texts and placeholders renders to the texts with the values in their places, unknown placeholders leaving nothing, trimmed; the fallback if nothing is left |
| PaneNames.SessionKeys | crates/suaegi-app/src/claude_agent_teams.rs:656-660 | the values for the session and the window |
| PaneNames.WindowKeys | crates/suaegi-app/src/claude_agent_teams.rs:661-663 | the fixed values for the window |
| PaneNames.PaneKeys | crates/suaegi-app/src/claude_agent_teams.rs:664-688 | the values for the pane: its id, its place, and whether it is the leader |
| PaneNames.NamesThePane | crates/suaegi-app/src/claude_agent_teams.rs:652-707 | the full name of a pane is rendered as session, window, place and id |
| AgentTeam.AgentTeamState.SplitWindow | crates/suaegi-app/src/claude_agent_teams.rs:251-302 | the method, proved equal to the transition that the lemmas are about: splits and records the pane, its origin and the column |
| AgentTeam.AgentTeamState.RespawnPane | crates/suaegi-app/src/claude_agent_teams.rs:304-346 | the method, proved equal to the transition that the lemmas are about: only the handle changes, never the leader's |
| AgentTeam.AgentTeamState.SelectLayout | crates/suaegi-app/src/claude_agent_teams.rs:348-376 | the method, proved equal to the transition that the lemmas are about: the main-vertical layout is recorded |
| AgentTeam.AgentTeamState.SelectPane | crates/suaegi-app/src/claude_agent_teams.rs:427-436 | the method, proved equal to the transition that the lemmas are about: the focus is recorded before the terminal is asked |
| AgentTeam.AgentTeamState.KillPane | crates/suaegi-app/src/claude_agent_teams.rs:438-464 | the method, proved equal to the transition that the lemmas are about: the pane goes, and the last column falls back to the last other pane |
| AgentTeam.AgentTeamState.TypeKeys | crates/suaegi-app/src/claude_agent_teams.rs:396-407 | the method, proved equal to the transition that the lemmas are about, with the text it sends |
| AgentTeam.AgentTeamState.Run | crates/suaegi-app/src/claude_agent_teams.rs:164-208 | a command from a pane that is not the team's is refused, any other dispatched, with all requests it makes |
| AgentTargets.KillsTheMeant | crates/suaegi-app/src/claude_agent_teams.rs:438-464 | whatever options and words: `kill-pane` kills the pane of the last `-t`, else the calling one, exactly when it is live, not the leader and its terminal was closed; the others stay in order |
| AgentTargets.KillByTarget | crates/suaegi-app/src/claude_agent_teams.rs:438-464 | in particular with `-t` from any pane, and without it |
| AgentTargets.RespawnsTheMeant | crates/suaegi-app/src/claude_agent_teams.rs:304-346 | `respawn-pane` gives the new handle to the pane meant and changes nothing else; when it works |
| AgentTargets.RespawnAsksFor | crates/suaegi-app/src/claude_agent_teams.rs:304-346 | which terminal is split, with what, and which ones are closed, in order |
| AgentTargets.SplitsTheMeant | crates/suaegi-app/src/claude_agent_teams.rs:251-302 | `split-window` splits the pane meant, or goes on in the last column with `-h`; the new pane, its id, origin, direction, layout, and what is printed |
| AgentTargets.SplitUnknown | crates/suaegi-app/src/claude_agent_teams.rs:251-258 | an unknown pane is not split |
| AgentTargets.FocusesTheMeant | crates/suaegi-app/src/claude_agent_teams.rs:427-436 | `select-pane` focuses the terminal of the pane meant and remembers the calling one; not with a style or a title |
| AgentTargets.LayoutOfTheMeant | crates/suaegi-app/src/claude_agent_teams.rs:348-376 | what each layout makes of the columns |
| AgentTargets.TypesIntoTheMeant | crates/suaegi-app/src/claude_agent_teams.rs:396-407 | `send-keys` types the text of its words into the terminal of the pane meant |
| AgentTargets.StrangersAreRefused | crates/suaegi-app/src/claude_agent_teams.rs:165-171 | called from a pane that is not the team's, nothing happens |
| AgentTeam.FreshIsConsistent | crates/suaegi-app/src/claude_agent_teams.rs:251-302 | a fresh team is consistent |
| AgentTeam.CommitConsistent | crates/suaegi-app/src/claude_agent_teams.rs:251-464 | every command keeps: the order lists the panes without repetition, each pane is under its own id, the leader is first, every id is issued, the last column is a live pane other than the leader, and panes come from smaller numbers |
| AgentTeam.RunsStayConsistent | crates/suaegi-app/src/claude_agent_teams.rs:251-464 | and so over every run, in which numbers only grow |
| AgentTeam.OnlyNewIdsAppear | crates/suaegi-app/src/claude_agent_teams.rs:251-302 | a pane that appears has an id never issued before |
| AgentTeam.GoneStaysGone | crates/suaegi-app/src/claude_agent_teams.rs:438-464 | no run of commands brings the id of a gone pane back |
| AgentTeam.ColumnsKeepLast | crates/suaegi-app/src/claude_agent_teams.rs:438-505 | horizontal splits and kills keep the last column the last pane of the order |
| AgentTeam.SplitsGoToTheLastColumn | crates/suaegi-app/src/claude_agent_teams.rs:478-505 | in any run of horizontal splits and kills, as long as another pane is live the next split goes to the last pane, never again to the leader |
| TeamStore.StepKeepsInv | crates/suaegi-app/src/claude_agent_teams.rs:723-771 | each step of the lock file, of reading, acting and writing, of failing and of dying keeps the persisted team equal to the commands committed so far, unless it removes the lock file from under its holder |
| TeamStore.CommandsAreSerializable | crates/suaegi-app/src/claude_agent_teams.rs:723-771 | concurrent commands give the team of their sequential application in lock order in every run in which no removal takes the lock file from under its holder, whoever dies on the way; commands that fail, whose team cannot be read or written, or whose process dies before writing, change nothing; at most one process is inside |
| TeamStore.AssumptionsGiveSerializability | crates/suaegi-app/src/claude_agent_teams.rs:723-771 | under the three assumptions about the lock file there is no such removal in any run, so commands are serializable |
| TeamStore.UndisturbedCommits | crates/suaegi-app/src/claude_agent_teams.rs:723-746 | with the lock free, a process alone commits its command and leaves the lock as it was |
| TeamStore.OverlapLosesACommand | crates/suaegi-app/src/claude_agent_teams.rs:723-746 | when two processes are inside at once, what the first commits is overwritten by the second |
| TeamStore.HarmLosesACommand | crates/suaegi-app/src/claude_agent_teams.rs:748-771 | after a removal of the lock file from under a holder that has not read yet, a run is possible in which what the remover's command makes of the old team overwrites what the holder committed |
| TeamStore.PersistedTeamsAreConsistent | crates/suaegi-app/src/claude_agent_teams.rs:723-746 | at every moment of every run the persisted team is consistent, whether the lock excludes or not |
| LockFile.StepKeepsHeldIff | crates/suaegi-app/src/claude_agent_teams.rs:748-771 | one step keeps at most one holder, named by the file, exactly when it does not remove the file of a live holder |
| LockFile.RunIsHeldIff | crates/suaegi-app/src/claude_agent_teams.rs:748-771 | over every run: so all the way exactly when no removal takes the file away from under a live holder |
| LockFile.HarmBreaksExclusion | crates/suaegi-app/src/claude_agent_teams.rs:748-771 | after any such removal, whoever comes next takes the lock as well |
| LockFile.AssumedNeverHarms | crates/suaegi-app/src/claude_agent_teams.rs:748-771 | if creating the file and writing the pid is one step, no holder dies, and a file is there when the pid of a found one is read, there is no such removal in any run |
| LockFile.AssumptionsGiveExclusion | crates/suaegi-app/src/claude_agent_teams.rs:748-771 | under these assumptions the file always names the only holder, and nobody takes it for stale |
| LockFile.UnwrittenPidBreaksExclusion | crates/suaegi-app/src/claude_agent_teams.rs:868-873 | a run within the other two assumptions in which a file without its pid is taken for stale: two live processes hold the lock |
| LockFile.DeadHolderBreaksExclusion | crates/suaegi-app/src/claude_agent_teams.rs:748-771 | a run within the other two in which a holder dies and the removal of its file breaks exclusion |
| LockFile.ReleaseBeforeReadingBreaksExclusion | crates/suaegi-app/src/claude_agent_teams.rs:752-758 | a run within the other two in which the holder releases between a failed creation and the reading of its pid: the file removed as stale is the next holder's |
| Utf8.DecodeEncoded | crates/suaegi-app/src/browser.rs:1228-1236 | decoding UTF-8 inverts encoding it, for every text |
| Utf8.DecodeIsExact | crates/suaegi-app/src/browser.rs:1228-1236 | only the encoding of a text decodes to it: overlong forms, surrogates and stray bytes decode to nothing |
| SafariCookies.DecodeSafariBinaryCookies | crates/suaegi-app/src/browser.rs:1210-1333 | the decoder, with every slice in bounds, gives the cookies of the file's pages in order, cut at 20,000 |
| SafariCookies.ImportPage | crates/suaegi-app/src/browser.rs:1269-1330 | the loop over one page's slots, stopping at the limit |
| SafariCookies.ImportPages | crates/suaegi-app/src/browser.rs:1259-1332 | the loop over the pages, stopping at the first that does not fit or at the limit |
| SafariCookies.ReadPageTable | crates/suaegi-app/src/browser.rs:1238-1257 | the loop over the page sizes, refused when the table is broken |
| SafariCookies.AnyBytesImport | crates/suaegi-app/src/browser.rs:1210-1333 | arbitrary bytes give at most 20,000 cookies, each with a bounded non-empty domain and name and an absolute path |
| SafariCookies.BrokenFilesGiveNothing | crates/suaegi-app/src/browser.rs:1210-1333 | a file without the magic number, or whose page table does not fit, gives nothing |
| SafariCookies.BrokenPagesGiveNothing | crates/suaegi-app/src/browser.rs:1210-1333 | a page without its header or whose slots do not fit gives nothing, nor does a slot that points outside |
| SafariCookies.CStringIff | crates/suaegi-app/src/browser.rs:1210-1333 | a text ends at the first zero before the end, and is UTF-8 |
| SafariCookies.RecordGivesIff | crates/suaegi-app/src/browser.rs:1210-1333 | a record gives a cookie exactly when its size fits and it has a domain and a name; what stands for a missing path or value |
| SafariFile.RecordDecodes | crates/suaegi-app/src/browser.rs:1289-1326 | a written record decodes to its cookie, whatever follows it |
| SafariFile.PageDecodes | crates/suaegi-app/src/browser.rs:1269-1330 | a written page decodes to its cookies in order |
| SafariFile.DecodeInvertsWriting | crates/suaegi-app/src/browser.rs:1210-1333 | decoding inverts writing: every list of at most 20,000 valid cookies, however laid out in pages and whatever follows them, is imported |
| FileExplorer.FileExplorerState.Begin | crates/suaegi-app/src/file_explorer.rs:106-115 | the method, proved equal to the transition that the lemmas are about: a new tree forgets the old one |
| FileExplorer.FileExplorerState.ToggleDirectory | crates/suaegi-app/src/file_explorer.rs:125-137 | the method, proved equal to the transition that the lemmas are about: and the answer says whether a load is needed |
| FileExplorer.FileExplorerState.CollapseAll | crates/suaegi-app/src/file_explorer.rs:87-90 | the method, proved equal to the transition that the lemmas are about: only the root stays expanded |
| FileExplorer.FileExplorerState.BeginDirectoryRefresh | crates/suaegi-app/src/file_explorer.rs:98-100 | the method, proved equal to the transition that the lemmas are about: the number of the latest request changes, the listing stays |
| FileExplorer.FileExplorerState.AcceptDirectory | crates/suaegi-app/src/file_explorer.rs:139-157 | the method, proved equal to the transition that the lemmas are about: only the latest request of a directory, of the shown worktree, is accepted |
| FileExplorer.FileExplorerState.AppendRows | crates/suaegi-app/src/file_explorer.rs:192-222 | the recursion ends on every well-formed tree, because paths lengthen over finitely many directories, and appends the rows of the directory |
| FileExplorer.FileExplorerState.Rows | crates/suaegi-app/src/file_explorer.rs:182-186 | the rows are those of the root |
| FileExplorer.LoadedIsListing | crates/suaegi-app/src/file_explorer.rs:241-253 | a loaded directory gives each entry its path below the directory, and hiding names keeps them unique |
| ExplorerDetails.EntryIsListed | crates/suaegi-app/src/file_explorer.rs:241-253 | a listing keeps every name that is not hidden, in its place, with its kind and its path, and no other |
| ExplorerDetails.RowsTell | crates/suaegi-app/src/file_explorer.rs:192-222 | every row tells an entry as it is listed, whether it is expanded and whether it is being loaded |
| ExplorerDetails.CollapsedShowsTheRoot | crates/suaegi-app/src/file_explorer.rs:87-90 | after collapsing everything the rows are the root's entries alone, in order, and all listings stay loaded |
| ExplorerRows.RowsNoneTwice | crates/suaegi-app/src/file_explorer.rs:192-222 | no path is listed twice |
| ExplorerRows.RowsShow | crates/suaegi-app/src/file_explorer.rs:192-222 | a path has a row under a directory exactly when its parent lists it and every ancestor in between is listed as a directory, expanded and loaded |
| ExplorerRuns.RowsPreorder | crates/suaegi-app/src/file_explorer.rs:192-222 | a row follows its parent's row with only rows under the parent between |
| ExplorerRuns.RowsInOrder | crates/suaegi-app/src/file_explorer.rs:192-222 | the rows directly in a directory are all entries of its listing, in the listing's order, or none |
| ExplorerRuns.RowsDepth | crates/suaegi-app/src/file_explorer.rs:192-222 | a row's depth is the number of slashes in its path |
| ExplorerRuns.EveryRun | crates/suaegi-app/src/file_explorer.rs:106-222 | all of this for the rows after every run of calls and late replies |
| ExplorerRuns.DroppedDirectoryHides | crates/suaegi-app/src/file_explorer.rs:192-222 | expanded and loaded ancestors are not enough: a refresh that no longer lists a directory hides what is under it |
| ExplorerRuns.CollapseAndExpand | crates/suaegi-app/src/file_explorer.rs:125-137 | a directory collapsed and expanded again needs a load exactly when it is not loaded by then; otherwise everything is as if it had stayed expanded, whatever replies came meanwhile |
| GhosttyConfig.StripInlineComment | crates/suaegi-app/src/ghostty_import.rs:22-38 | the flag loop cuts the value at its first hash that follows a blank outside quotes |
| GhosttyConfig.CommentIn | crates/suaegi-app/src/ghostty_import.rs:22-38 | that place is a comment, none is before it, and it is the end if there is none |
| GhosttyConfig.ParseConfig | crates/suaegi-app/src/ghostty_import.rs:40-67 | the loop over lines gives the parse of their entries |
| GhosttyConfig.ParseHolds | crates/suaegi-app/src/ghostty_import.rs:40-67 | a parse holds, for every key, exactly the values that the entries give it, in order |
| GhosttyConfig.EntriesAppend | crates/suaegi-app/src/ghostty_import.rs:40-67 | a file appended to another adds its entries to the other's |
| GhosttyConfig.MergeConfig | crates/suaegi-app/src/ghostty_import.rs:160-168 | the loop gives the same map in every iteration order |
| GhosttyConfig.MergingIsConcatenating | crates/suaegi-app/src/ghostty_import.rs:160-168 | merging parsed files is as good as parsing them put one after the other: the same keys, last values and palette entries |
| GhosttyWriter.FileReads | crates/suaegi-app/src/ghostty_import.rs:40-67 | a file written with quoted values parses back to its entries, in order and with every character, hashes and blanks included |
| GhosttyLines.EverySpellingReads | crates/suaegi-app/src/ghostty_import.rs:22-67 | however a file is written, with blanks anywhere, comments, values bare or in quotes of either kind, and lines that are no assignment, its entries are those meant, in order, with every character |
| GhosttyMapping.KeyOf | crates/suaegi-app/src/ghostty_import.rs:238-420 | different names are different keys |
| GhosttyMapping.ApplyMapping | crates/suaegi-app/src/ghostty_import.rs:207-432 | the loop over keys gives the settings, each accepted key once, and the rejected keys with the notes, all told by the keys' effects |
| GhosttyValues.ColourKeySets | crates/suaegi-app/src/ghostty_import.rs:264-286 | each colour key sets its own colour, in small letters after a hash, and refuses what is no colour |
| GhosttyValues.DividerSets | crates/suaegi-app/src/ghostty_import.rs:323-330 | the divider's colour is set for dark and light themes |
| GhosttyValues.SwitchKeySets | crates/suaegi-app/src/ghostty_import.rs:370-383 | each switch is set by `true` and `false` alone |
| GhosttyValues.StyleKeysSet | crates/suaegi-app/src/ghostty_import.rs:384-420 | cursor styles, the middle click and the font family |
| GhosttyValues.OptionKeySets | crates/suaegi-app/src/ghostty_import.rs:239-251 | the option key by its names, on macOS alone |
| GhosttyValues.BlurSets | crates/suaegi-app/src/ghostty_import.rs:311-322 | a blur radius is kept as on or off, with a note when on |
| GhosttyValues.WeightSets | crates/suaegi-app/src/ghostty_import.rs:396-406 | a weight from 100 to 900 is kept, others are refused |
| GhosttyValues.PaddingReads | crates/suaegi-app/src/ghostty_import.rs:186-199 | one padding, or two whose average is kept, each up to 512 |
| GhosttyValues.PaddingKeysSet | crates/suaegi-app/src/ghostty_import.rs:347-357 | each padding key sets its own padding |
| GhosttyValues.MeasuresSet | crates/suaegi-app/src/ghostty_import.rs:252-395 | shares, sizes and heights go each to its own setting |
| GhosttyValues.PaletteEntryReads | crates/suaegi-app/src/ghostty_import.rs:287-310 | a palette entry names one of sixteen slots and its colour |
| GhosttyValues.IntegerIff | crates/suaegi-app/src/ghostty_import.rs:177-184 | an integer is one of 64 bits, with its sign |
| GhosttyValues.BlankIsRefused | crates/suaegi-app/src/ghostty_import.rs:231-236 | blank values are refused, and every value of `selection-word-chars` |
| GhosttyValues.LastValueCounts | crates/suaegi-app/src/ghostty_import.rs:231-236 | of several values the last counts |
| GhosttyValues.UnknownIff | crates/suaegi-app/src/ghostty_import.rs:421-421 | keys of other names are unknown |
| GhosttyValues.OthersAreRefused | crates/suaegi-app/src/ghostty_import.rs:421-421 | and refused |
| GhosttyImport.WritesOwned | crates/suaegi-app/src/ghostty_import.rs:207-432 | each setting is written by one key only |
| GhosttyImport.RejectedWrites | crates/suaegi-app/src/ghostty_import.rs:231-253 | a rejected key writes nothing, except that an unknown non-empty value of `macos-option-as-alt` blanks its setting on macOS |
| GhosttyImport.OrderDoesNotMatter | crates/suaegi-app/src/ghostty_import.rs:207-432 | the settings are the same in every iteration order of the keys |
| GhosttyImport.LayerTheme | crates/suaegi-app/src/ghostty_import.rs:462-471 | the loop puts the theme under the configuration, in every iteration order |
| GhosttyImport.Import | crates/suaegi-app/src/ghostty_import.rs:434-484 | whatever the iteration orders, the import reports the settings, accepted and unsupported keys that the merged and themed configuration stands for |
| GhosttyImport.ReportsAgree | crates/suaegi-app/src/ghostty_import.rs:434-484 | so two imports of equivalent configurations report the same |
| GhosttyImport.ImportIsConcatenated | crates/suaegi-app/src/ghostty_import.rs:434-484 | importing several files reports the same as importing one file made of all of them |
| GhosttyThemes.PairIff | crates/suaegi-app/src/ghostty_import.rs:456-460 | a theme's name is a pair exactly when `light:` or `dark:` stands at its beginning or after a comma, blanks apart |
| GhosttyThemes.ThemeTells | crates/suaegi-app/src/ghostty_import.rs:449-475 | the last theme named counts; its palette entries come first, and of its other colours, and nothing else, those count that the configuration does not set; a pair and a missing file give nothing and are noted |
| GhosttyPalette.LastValidIsLast | crates/suaegi-app/src/ghostty_import.rs:287-310 | the entry that counts for a slot is valid, and no later one is valid for it |
| GhosttyPalette.SlotEndsAs | crates/suaegi-app/src/ghostty_import.rs:231-310 | each slot ends as the last valid entry of the configuration, else of the theme, else as it was, if the very last palette entry is not blank; otherwise as it was |
| GhosttyPalette.SlotsAsPromisedIff | crates/suaegi-app/src/ghostty_import.rs:231-310 | so all slots end as promised exactly when the last entry is not blank or no entry is valid |
| GhosttyPalette.BlankEntryDropsThePalette | crates/suaegi-app/src/ghostty_import.rs:232-236 | a line without a value loses every palette entry before it |
| ForkSync.AncestorIsLower | crates/suaegi-app/src/fork_sync.rs:335-341 | ancestry has no cycle |
| ForkSync.AheadIsZeroIff | crates/suaegi-app/src/fork_sync.rs:327-350 | nothing is ahead exactly when origin's commit is an ancestor of upstream's |
| ForkSync.BothZeroIff | crates/suaegi-app/src/fork_sync.rs:327-361 | both counts are zero exactly when the commits are equal |
| ForkSync.Git.PushToOrigin | crates/suaegi-app/src/fork_sync.rs:363-367 | a push without force moves the branch only to a commit that has all it had, whatever happened to origin since the fetch |
| ForkSync.Git.SyncDefaultBranch | crates/suaegi-app/src/fork_sync.rs:247-378 | the method does what `Synchronised` tells: its report, what it leaves everywhere, and its push, whatever others do before each command |
| ForkSync.RefusalIff | crates/suaegi-app/src/fork_sync.rs:252-290 | the first check that fails tells the refusal, and a synchronisation goes on exactly when none does |
| ForkSync.SeenIff | crates/suaegi-app/src/fork_sync.rs:291-326 | both commits are seen exactly when both fetches work and both branches resolve, and are those tracked at that moment; otherwise which of the two is reported missing |
| ForkSync.PushesOneFastForward | crates/suaegi-app/src/fork_sync.rs:327-378 | whatever others do, origin is left alone or its branch is moved to the upstream commit that was seen by one fast-forward; the report is the verdict on the commits seen |
| ForkSync.QuietSyncIff | crates/suaegi-app/src/fork_sync.rs:247-378 | when nobody touches the branch meanwhile: origin's branch ends as upstream's exactly when its commit was an ancestor and the push worked, or they were equal, and the report says so |
| ForkSync.ActChanges | crates/suaegi-app/src/fork_sync.rs:363-367 | what others do to one branch at one place changes nothing else |
| ForkSync.VerdictMeans | crates/suaegi-app/src/fork_sync.rs:327-378 | up to date exactly when the commits are equal, diverged exactly when origin's is no ancestor, pushed exactly when it is a proper ancestor |
| ForkSync.NothingIsLost | crates/suaegi-app/src/fork_sync.rs:363-367 | everything reachable from the branch before a push is reachable after it |
| DiffPanel.DiffState.BeginCompareWithFileTree | crates/suaegi-app/src/diff_panel.rs:223-239 | the method and its whole new state: an older compare is stopped first |
| DiffPanel.DiffState.Close | crates/suaegi-app/src/diff_panel.rs:243-251 | the method and its whole new state: the request numbers are kept |
| DiffPanel.DiffState.AcceptCompare | crates/suaegi-app/src/diff_panel.rs:260-265 | the method and its whole new state: the worktree and the latest number decide |
| DiffPanel.DiffState.ApplyCompare | crates/suaegi-app/src/diff_panel.rs:267-270 | the method and its whole new state: the handle is given up |
| DiffPanel.DiffState.BeginPatch | crates/suaegi-app/src/diff_panel.rs:272-276 | the method and its whole new state: file and number are set together |
| DiffPanel.DiffState.AcceptPatch | crates/suaegi-app/src/diff_panel.rs:290-295 | the method and its whole new state: the worktree and the latest number decide |
| DiffPanel.DiffState.ApplyPatch | crates/suaegi-app/src/diff_panel.rs:297-299 | the method and its whole new state: the patch alone changes |
| DiffPanel.DiffState.DiffLoaded | crates/suaegi-app/src/state.rs:21382-21396 | a compare's reply is applied only if accepted and not cancelled |
| DiffPanel.DiffState.FileDiffLoaded | crates/suaegi-app/src/state.rs:21398-21410 | a patch's reply is applied only if accepted |
| DiffPanel.StepKeepsInv | crates/suaegi-app/src/diff_panel.rs:219-299 | the invariant of panel, requests and replies holds after every event |
| DiffPanel.EveryInterleaving | crates/suaegi-app/src/diff_panel.rs:219-299 | the files shown answer the latest compare, of the shown worktree; at most one handle is neither stopped nor completed; a loaded patch answers the latest patch request, of the shown worktree, and of the selected file if one is selected |
| DiffPanel.PanelTells | crates/suaegi-app/src/diff_panel.rs:260-270 | in every interleaving, an open panel is loading exactly until the latest compare is answered, and then shows that answer, each kind by a panel of its own |
| DiffPanel.PatchTells | crates/suaegi-app/src/diff_panel.rs:272-299 | a patch shown, or an error, is what the latest patch request was answered; with a file selected it is shown as soon as it is there |
| DiffPanel.ToggleTells | crates/suaegi-app/src/diff_panel.rs:219-251 | asking for the changes of a worktree closes the panel if it is shown, does nothing if it is unknown, and otherwise starts a compare |
| DiffPanel.SelectTells | crates/suaegi-app/src/diff_panel.rs:272-276 | selecting a listed file asks for its patch |
| DiffPanel.RepliesOpenNothing | crates/suaegi-app/src/diff_panel.rs:243-265 | no reply opens a closed panel |
| DiffPanel.LatePatchIff | crates/suaegi-app/src/diff_panel.rs:272-299 | over every run, a patch's reply is taken with no file selected exactly when it answers the latest patch request, that was for the shown worktree, and no file is selected by then |
| DiffPanel.LatePatchAfterReopening | crates/suaegi-app/src/diff_panel.rs:223-295 | a run in which that happens: closing and opening the same worktree before the reply |
| Downloads.DownloadBroker.BeginDownload | crates/suaegi-app/src/browser.rs:2477-2504 | the method, proved equal to the transition that the lemmas are about: the request waits last |
| Downloads.DownloadBroker.DownloadStarted | crates/suaegi-app/src/browser.rs:1988-2005 | the method, proved equal to the transition that the lemmas are about: the request that waited longest gets the download |
| Downloads.DownloadBroker.DownloadCompleted | crates/suaegi-app/src/browser.rs:2006-2023 | the method, proved equal to the transition that the lemmas are about: the oldest active download of the address is answered |
| Downloads.DownloadBroker.CancelDownload | crates/suaegi-app/src/browser.rs:2506-2528 | the method, proved equal to the transition that the lemmas are about: a waiting request comes before an active one |
| Downloads.DownloadBroker.ResetAll | crates/suaegi-app/src/browser.rs:2543-2553 | the method, proved equal to the transition that the lemmas are about: everything pending is answered, waiting requests first |
| DownloadRuns.EveryRun | crates/suaegi-app/src/browser.rs:1988-2023 | in every run each callback is in exactly one of queued, active and called, once; downloads start in request order; a success reports the path asked for |
| DownloadRuns.ResetAnswersAll | crates/suaegi-app/src/browser.rs:2543-2553 | after a reset nothing is pending and every callback has been called once |
| DownloadRuns.CompletesTheRightOneIff | crates/suaegi-app/src/browser.rs:1988-2023 | over every run and for every download of the browser, asked for or not, cancelled or not: its completion answers no other request exactly when every other active download of its address is younger, and it is active itself |
| DownloadRuns.CompletionAnswersOldest | crates/suaegi-app/src/browser.rs:2006-2023 | whichever download completes, the oldest active one of its address is answered, with the path asked for |
| DownloadRuns.OldestCompletes | crates/suaegi-app/src/browser.rs:2006-2023 | so the oldest active download of its address is answered with its own path when it completes |
| DownloadRuns.UnaskedAnswersAnother | crates/suaegi-app/src/browser.rs:1988-2023 | a run in which a download that nobody asked for completes, and a request is told that its own has |
| DownloadRuns.CancelledAnswersAnother | crates/suaegi-app/src/browser.rs:2506-2528 | a run in which a cancelled download completes, and a newer request is told that its own has |
| DownloadRuns.CancelEndsItsOwn | crates/suaegi-app/src/browser.rs:2506-2528 | until the 64-bit counter saturates, cancelling by the id of a pending download ends that one |
| DownloadRuns.OldIdEndsNewerIff | crates/suaegi-app/src/browser.rs:2506-2553 | after a reset an id, also one from before, ends a download exactly when it is the id of a pending one, and then one asked for after the reset |
| DownloadRuns.OldIdCancelsNewer | crates/suaegi-app/src/browser.rs:2543-2553 | a run in which an id from before a reset does end a newer download, because ids start again |
| VmStore.StoreFile.Upsert | crates/suaegi-app/src/ephemeral_vm.rs:522-542 | retain, push, sort and write: the new store or, on an error, the old one |
| VmStore.SortOrdered | crates/suaegi-app/src/ephemeral_vm.rs:526-531 | sorting leaves a sorted list as it is |
| VmStore.UpsertChangesItsOwn | crates/suaegi-app/src/ephemeral_vm.rs:522-542 | an upsert changes only its own id and keeps the store sorted, unique and bounded; it is refused for room exactly when the store is full and does not know the id |
| VmStore.UpdateInPlace | crates/suaegi-app/src/ephemeral_vm.rs:522-542 | a record that keeps its id and time is updated in its place; the list is not reordered and room is never the reason for a failure |
| VmLifecycle.Run | crates/suaegi-app/src/ephemeral_vm.rs:416-501 | the writes of a call before and after its command, its result, and everything on disk meanwhile |
| VmOutcomes.OutcomeIsStored | crates/suaegi-app/src/ephemeral_vm.rs:416-501 | for every store, call and answers: what is stored before and after the command, by how the command went: a destroyed machine is Cleaned exactly when it succeeded or there is none, CleanupFailed with the error exactly when it failed, a suspended or resumed one alike; what the call answers; nothing else changes |
| VmRuns.LifecycleUpdatesOnly | crates/suaegi-app/src/ephemeral_vm.rs:416-501 | every store a lifecycle call writes differs in its own record at most, in its place, with the same id, recipe and creation time |
| VmRuns.DestroyIsNeverForgotten | crates/suaegi-app/src/ephemeral_vm.rs:434-501 | from the start of a destroy command until the call returns, at every crash point the stored status is CleanupPending, CleanupFailed or Cleaned |
| VmRuns.EveryRunKeepsTheStore | crates/suaegi-app/src/ephemeral_vm.rs:503-542 | every store ever written by every run from the empty store is sorted, unique by id and of at most 256 records |
| OutputTail.ReadTail | crates/suaegi-app/src/ephemeral_vm.rs:713-731 | the loop drops leading continuation bytes of the last bytes |
| OutputTail.TailIsTheLongestSuffix | crates/suaegi-app/src/ephemeral_vm.rs:713-731 | of UTF-8 text, what is left decodes to the longest suffix that fits, wherever the cut falls |
| BranchRename.PrefixAndLeaf | crates/suaegi-app/src/branch_rename.rs:22-28 | a branch is its prefix and its leaf, and a leaf has no slash |
| BranchRename.NewLeafKeepsPrefix | crates/suaegi-app/src/branch_rename.rs:63-65 | a renamed branch keeps its prefix, whatever the leaf |
| BranchRename.CandidatesDiffer | crates/suaegi-app/src/branch_rename.rs:126-136 | the names tried are pairwise different |
| BranchRename.ChooseName | crates/suaegi-app/src/branch_rename.rs:120-136 | the loop ends on every finite branch set and picks the base name or the smallest free suffix from 2 up |
| BranchRename.Worktree.RenameFromFirstWork | crates/suaegi-app/src/branch_rename.rs:69-168 | whatever others do before each step: an attempt ends in a renaming exactly when every check passes, and settles exactly when the branch is not program-made, published, without a slug or already so named; the new name is the first free one and keeps the prefix |
| BranchRename.OneFirstFree | crates/suaegi-app/src/branch_rename.rs:120-136 | among finitely many branches there is exactly one first free name |
| BranchRename.ActChanges | crates/suaegi-app/src/branch_rename.rs:141-163 | what others do to the repository, act by act |
| BranchRename.Worktree.CheckAndRename | crates/suaegi-app/src/branch_rename.rs:141-163 | the last checks and the renaming, with what others do in between |
| BranchRename.RenamesTheCheckedIff | crates/suaegi-app/src/branch_rename.rs:141-163 | the renamed branch is the checked one exactly when what others do since the check leaves it checked out; and it was the expected one and unpublished when checked |
| BranchRename.WithoutCheckoutRenamesTheChecked | crates/suaegi-app/src/branch_rename.rs:141-163 | in particular when nobody checks anything out or renames a branch meanwhile |
| BranchRename.CheckoutRenamesAnother | crates/suaegi-app/src/branch_rename.rs:141-163 | a run in which a checkout after the last check has another branch renamed |
| BranchRename.RenamesUnpublishedIff | crates/suaegi-app/src/branch_rename.rs:141-163 | what is renamed is what others leave checked out, published or not; with the checked branch left alone it is a published one exactly when somebody publishes it after the last check |
| BranchRename.PublishedBranchIsRenamed | crates/suaegi-app/src/branch_rename.rs:141-163 | a run in which a published branch is renamed |
| Decimal.PrintInjective | crates/suaegi-app/src/branch_rename.rs:126-136 | different numbers print differently |

## Left out

- Everything drawn on the screen, fonts, themes, icons, file watching and platform calls.
- The Markdown preview, spell checking and syntax highlighting of the editor; the status of the search bar beyond its match.
- `list-panes`, `display-message`, `capture-pane`, `last-pane` and the session and window commands of the tmux emulation: they read the state and make text from it, or focus a terminal. The environment of a new terminal. Authentication of a team's token, and the size limit of its file.
- Numbers of panes are unbounded; the original counts in 64 bits.
- The contents of error messages that quote a path, a branch or an id.
- Git status marks in the file explorer, the filter, and the order of a listing. The mark of a directory that holds both a renamed and a copied file depends on the iteration order of a hash map.
- The order of the applied keys of a Ghostty import, which is the iteration order; the sorting of the rejected keys; the search for configuration and theme files; the limits on their size.
- What an expiry date in a cookie file stands for: its eight bytes go to a function that is a parameter.
- The other cookie importers, cookie storage, and the browser's own name for a download nobody asked for.
- `toggle_file_tree` and the colouring of a patch.
- The recognition of GitHub addresses and the query for a fork's parent; the identity that git reports is a parameter.
- Validation of recipes, pairing, environment variables, timeouts and killing of commands; pairing appears as the saving of a whole record.
- Output that is not UTF-8: invalid bytes are replaced in the original.
- How a slug is made of a prompt, and the display name of a renamed branch; the slug is a parameter.
- PushToOrigin: does not model hooks, protected branches or quotas of a server; any refusal is possible.
- AttachedOrNext: an option whose value is missing gets the empty text, as in the original; no further claim is made about it.
- Chromium and Firefox profiles, command dispatch, forge and tracker clients, and the automation schedule.
