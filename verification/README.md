# Tracks: discussions, over-reach rollback, locks and logs

This project models five parts of Tracks and proves what each promises over every input or every run.

**Inline discussions.** A markdown text is the only store of discussion threads. Every write parses the text
again, finds its thread by content, and splices lines. `Syntax` models lines and speaker tags and holds the three
tag scanners against the regular expressions they stand for, in both directions. `Scan` is the parser as a fold
over lines, `Parser` the parser as it runs: a class that updates a stack, a node list and counters. `Forest` has
two definitions of the comment tree, by nesting of intervals and by "nearest earlier shallower comment", and
proves them equal. The writer's operations (`Splice`, `Writer`) are shown to be edits of trees: `ReplyProof`,
`ReplyExact`, `StartProof` and `StatusProof` give for `reply`, `start`, `set_status` and `resolve_all_open` the
exact condition under which the parse of the new text is the edited parse of the old one, and `Counterexamples`
holds documents that break it. `Meaning` and `Wording` read the parse off the lines: where threads begin, what they are
anchored to, what each comment says, and what the small scanners find; `Placing` does the same for the places where the
writer puts its lines, and says on which documents a reply always lands. `Locate` relocates threads and comments by
content, `Relocation` says exactly which ones are found, and `Distance` treats the edit distance behind it. `Document`
lifts the results to texts and tokens. `Delta`, `Verdict`, `DeltaAgree`, `StartDelta` and `StatusDelta` treat the delta
checker: what it accepts, what its acceptance guarantees, and when it accepts what the writer writes.

**Over-reach audit and rollback.** `FileTree` models files, links and directories, and how a path is read through the
links above it; `Listing` how git spells paths in the two listings that the rollback reads, where names with special
characters are quoted; `Auditor` the snapshot, the set of changed paths and one restore; `Rollback` the repository and
the auditor as classes whose file operations demand, as a precondition, that no link is above the path they touch.
`Turns` is the restore phase on files and links alone, one turn for each path, with HEAD, the index and exceptions;
`Settling` says exactly when the turns end with what they should; `Phases` ties the auditor's two phases to it, and
`Inverse` draws the conclusion for a full and for a partial rollback. `RollbackExamples` holds runs that a rollback
does not give back.

**Writer lock.** `WriterLock` interleaves the single file operations of any number of processes that may crash.

**Import reachability.** `Reach` proves the worklist search against paths.

**Transactions and logs.** `InstallUndo` (the installer's undo log), `Install` (the steps of an installation, and
exactly what a failure after any of them leaves), `Completion` (when all steps succeed), `Installed` (what is there
then), `Frontmatter` (sealing), `ReleaseLog` (the release gate over the event log) and `Wake` (the supervisor's
wake-up channel).

`Text` and `Wrappers` hold strings, lines and the option type.

## What turned out not to hold

* `reply` and `start` go wrong when what follows the insertion point still continues a comment: the writer stops
  at a code fence, the parser does not. `ReplyExactly` and `StartExactly` are equivalences;
  `ReplyBeforeFence` and `StartInsideComment` are documents that fail.
* `set_status` and `resolve_all_open` lose the thread when its initiator has white space at an end: `**@ foo:**`
  is parsed as speaker ` foo`, and the rewritten line reads back as another speaker (or as a label, and then as
  no thread at all). `StatusExactly` and `ResolveExactly` are equivalences; `SpacedSpeaker` is a document that fails.
* The comment on `set_status` lets the initiator or the one party asked close a thread; by its code the initiator may
  do so only when the root asks nobody, or several (`ResolverExactly`, tracks/discuss/writer.py:187-232).
* A force rollback ends without an exception and with the old tree if and only if there is a commit, no recorded path
  is hidden behind a link through which the same is read, every clean path of the set is listed under its own name,
  nothing unchanged lies below a changed path, and whatever a checkout brings back against the old tree is cleared away
  again (`RollbackIsInverse`, `ForceRollback`). Families that fail: the agent moves a directory and puts a link in its
  place, so an edit of the Human inside reads as unchanged and its only copy is removed (`HumanEditLost`); the agent
  edits a clean tracked file whose name git quotes, such as `é.md`: the removal takes it, no listing has it, and it is
  gone without an exception (`QuotedNameLost`); the checkout of a file stands in the way of a recorded path below it,
  and the restore raises (`RestoreRaises`); a tracked file deleted by the Human and recreated by the agent ends at its
  HEAD content (`DeletedFileRevived`); a new file staged by the agent survives (`StagedFileSurvives`), unless git quotes
  its name (`QuotedStagedGone`). What comes back may be cleared by a deeper checkout (`ClearedAgain`).
* In a repository without a commit a rollback raises before it has done anything: the listing of HEAD fails, where the
  comment on it (tracks/effects/audit.py:85-93) promises the empty set (`Rollback.AuditLog.RollbackAgentChanges`).
* The writer lock can be held twice after a single crash: the read, the liveness check and the unlink of a reclaim
  are three steps (`RaceExists`). A lock file that its dead creator left behind is reclaimed if and only if its id was
  written (`AbandonedExactly`); without it the file blocks everybody for good (`EmptyFileBlocks`, reached by
  `StuckReachable`). Without a harmful unlink, whoever comes back from `acquire` or `suspended` without an exception
  owns the file (`AcquireOutcome`, `SuspendedOutcome`).
* Adding a module can create an import island (`NewModuleCanAddIsland`); `NewModuleKeeps` says exactly when it makes
  none.
* The installer loses a directory when `replace_dir` fails between its two renames (`HalfReplaceLoses`). A failure
  after any of its steps restores the project if and only if `.tracks` was not there before, or nothing stays of the
  scaffold files that were missing, of the rewritten `.tracks/env/.gitignore` of an environment that was there, and
  of the temporary files (`FailureRestores`); `IgnoreFileRewritten` and `ScaffoldStays` are projects that a failed
  health check does not give back.
* The delta checker refuses a new thread inside a fence, before a quote that the thread would take over, and after a
  last line of prose without a newline (`StartIsDelta`, an equivalence).
* The delta checker refuses a status change when the initiator, stripped, is a label and no tag stands before the
  root line in its run (`StatusIsDelta`, an equivalence).

## Model

| member | source | states |
|---|---|---|
| Text.SplitRender | tracks/discuss/writer.py:48-49 | lines joined with the final newline of the text are read back as those lines |
| Text.RenderSplit | tracks/discuss/writer.py:126-143 | splitting a text and joining it again with its own final newline gives the text |
| Syntax.TagInComplete | tracks/discuss/parser.py:33-35 | every way the colon-inside expression can match a line, the scanner finds the same stripped name, status word and body |
| Syntax.TagInSound | tracks/discuss/parser.py:33-35 | what the colon-inside scanner finds is a match of the expression |
| Syntax.TagOutComplete | tracks/discuss/parser.py:36-39 | the same for the colon-outside form: every match is found |
| Syntax.TagOutSound | tracks/discuss/parser.py:36-39 | and every find is a match |
| Syntax.TagPlainComplete | tracks/discuss/parser.py:40-41 | the same for the plain form: every match is found |
| Syntax.TagPlainSound | tracks/discuss/parser.py:40-41 | and every find is a match |
| Syntax.ParsedSpeaker | tracks/discuss/parser.py:45-63 | a parsed speaker has no `*` or `[`, no leading `@` and is no label; a parsed body is stripped |
| Syntax.SpeakerRoundTrip | tracks/discuss/writer.py:36-45 | a written comment line reads back as the same speaker and body if and only if the speaker is non-empty, stripped, no label, without leading `@` and without `*` or `[` |
| Syntax.StatusRoundTrip | tracks/discuss/writer.py:187-232 | a root line rewritten with a status reads back with that status and the same speaker if and only if the parsed speaker is stripped |
| Syntax.TailRoundTrip | tracks/discuss/writer.py:36-45 | a further body line stays a continuation if and only if it is not itself a tag |
| Forest.IterTree | tracks/discuss/model.py:48-52 | walking a thread's tree yields its comments in scan order, each once |
| Forest.TreeByParents | tracks/discuss/parser.py:155-176 | the tree the nesting gives is the tree in which each comment's parent is the nearest earlier comment of smaller depth |
| Forest.InsertIsAddChild | tracks/discuss/parser.py:155-176 | a comment one level deeper put right after a comment's subtree becomes that comment's last child and moves nothing else |
| Forest.ReplyInTree | tracks/discuss/parser.py:155-176 | the same for whole threads |
| Forest.TreeMap | tracks/discuss/parser.py:84-93 | an edit that keeps depths keeps the shape of the tree |
| Scan.ParseTidy | tracks/discuss/parser.py:155-201 | in every parse each thread has one root of depth 1, deeper comments after it, and lines strictly increasing inside and across threads |
| Scan.RootsOrdered | tracks/discuss/parser.py:204-216 | root lines strictly increase from thread to thread, for every text |
| Parser.Accumulator.Flush | tracks/discuss/parser.py:178-201 | closing the open thread appends it, frozen, to the finished ones |
| Parser.Accumulator.ContinueLastComment | tracks/discuss/parser.py:137-146 | an untagged quote extends the latest comment's body and mentions, and nothing when no thread is open |
| Parser.Accumulator.OnNonQuote | tracks/discuss/parser.py:148-153 | a blank line changes nothing; prose closes the thread and becomes the anchor |
| Parser.Accumulator.AddRoot | tracks/discuss/parser.py:155-166 | a depth-1 comment closes the open thread and opens a new one |
| Parser.Accumulator.PopTo | tracks/discuss/parser.py:170-172 | the stack is popped to the nearest earlier comment shallower than the new one |
| Parser.Accumulator.AddComment | tracks/discuss/parser.py:155-176 | a comment is added as the fold adds it, an orphan reply as a root |
| Parser.Accumulator.Feed | tracks/discuss/parser.py:116-135 | the stack machine and the fold take the same step on every line |
| Parser.FreezeIsTree | tracks/discuss/parser.py:84-93 | freezing the linked builder nodes gives the tree of the comments |
| Parser.ParseThreads | tracks/discuss/parser.py:204-216 | the loop with its fence flag computes the threads of the fold, with id, initiator, status, last speaker, reply count, snippet, mentions, tree and anchors |
| Frame.AtBorn | tracks/discuss/parser.py:116-176 | every comment of every scan prefix comes from a tagged line outside fences whose speaker, text, mentions and depth it carries |
| ReplyExact.TaggedIsComment | tracks/discuss/parser.py:204-216 | every tagged line outside a fence is a comment of the parse |
| Meaning.ThreadReads | tracks/discuss/parser.py:148-166 | each thread begins at a tag of depth 1, or at one before which no thread is open; its status is that tag's, and it is anchored at the last line of prose above it, or at none |
| Meaning.CommentReads | tracks/discuss/parser.py:116-176 | each comment begins its thread exactly if its tag begins one, has its tag's speaker, line and depth, and the body and mentions of its tag and of all quotes up to the next tag or line of prose |
| Wording.BlankExactly | tracks/discuss/parser.py:148-151 | a line is blank if and only if it is all white space |
| Wording.FenceExactly | tracks/discuss/parser.py:30 | a line is a fence if and only if it can be read through the fence expression |
| Wording.QuoteComplete | tracks/discuss/parser.py:31 | a line that reads through the quote expression has that depth and content, and is a comment if the content is a tag |
| Wording.QuoteSound | tracks/discuss/parser.py:31 | and every quote the parser sees can be read so |
| Wording.TagExactly | tracks/discuss/parser.py:45-63 | for every content: the first of the three expressions through which it reads decides; a label is no tag, any other gives its name without leading `@`s, the status its word stands for, and its trimmed body; what reads through none is no tag |
| Wording.MentionsExactly | tracks/discuss/parser.py:42-67 | the mentions found are those that begin anywhere in the text, in order |
| Wording.NormalizeExactly | tracks/discuss/model.py:18-21 | a normalized text is its words with single spaces between them |
| Wording.SameKey | tracks/discuss/model.py:24-26 | two speakers are one if and only if their words agree up to the case of ASCII letters |
| Wording.PublishedReads | tracks/discuss/parser.py:178-201 | what a query returns of a thread, in terms of its comments: first and last speaker, number of replies, the first 80 characters of the normalized root |
| Wording.MentionedExactly | tracks/discuss/parser.py:178-201 | the agents mentioned are exactly those that some comment of the thread mentions, each once, in the order of their first mentions |
| Blocks.BlockReads | tracks/discuss/writer.py:36-45 | a written block, multi-line body included, is read as exactly the one comment it was written for |
| ReplyProof.SubtreeScanAgrees | tracks/discuss/writer.py:91-112 | the writer's own scan for the end of a subtree stops where the parser still has that subtree open and complete |
| ReplyProof.ReplyRefines | tracks/discuss/writer.py:115-143 | the parse of the output of `reply` is the old parse with the written comment added and line numbers shifted |
| ReplyExact.ReplyOnTrees | tracks/discuss/writer.py:115-143 | on trees: the target gains exactly one last child, one level deeper; every other thread, comment, status and anchor is the same |
| ReplyExact.ReplyNeeds | tracks/discuss/writer.py:91-112 | if a reply refines the insertion, nothing after the insertion point still belongs to the target |
| ReplyExact.ReplyExactly | tracks/discuss/writer.py:115-143 | `reply` refines the insertion if and only if the speaker is proper, no further body line is a tag and nothing after the insertion point continues the target; a quote without text does not count there when neither the new comment nor the one before it has a body |
| StartProof.StartRefines | tracks/discuss/writer.py:75-80 | `start` adds exactly one open thread at its place; all others keep their content, order and anchors |
| StartProof.StartExactly | tracks/discuss/writer.py:75-80 | the exact condition for that, at every insertion index inside the text and for every message: proper speaker, no tag among further lines, insertion outside a fence with nothing continuing after it |
| StatusProof.StatusExactly | tracks/discuss/writer.py:228-232 | `set_status` changes exactly one thread's status and root line, for all three tag spellings and for promoted orphans, if and only if the initiator is stripped |
| StatusProof.ResolveExactly | tracks/discuss/writer.py:251-265 | `resolve_all_open` makes every thread resolved and changes nothing else, if and only if the initiators of the threads it closes are stripped |
| StatusProof.ResolveSettles | tracks/discuss/writer.py:235-265 | after it all threads are resolved, and a second call changes no line and counts 0 |
| Counterexamples.ReplyBeforeFence | tracks/discuss/writer.py:101-112 | on a comment that goes on after a code fence, a reply by a proper speaker does not refine the insertion |
| Counterexamples.StartInsideComment | tracks/discuss/writer.py:52-80 | on a comment that goes on after a blank line, a new thread takes over the rest of the comment |
| Counterexamples.SpacedSpeaker | tracks/discuss/writer.py:228-232 | the thread of `**@ foo:** x` cannot be resolved exactly |
| Writer.FindSubtreeEnd | tracks/discuss/writer.py:91-112 | the loop computes the specified insertion index |
| Placing.SubtreeEndExactly | tracks/discuss/writer.py:91-112 | a reply goes after the last quote above the first line of prose, fence or tag no deeper than the target, or right after the target's line |
| Placing.ReplyUnfenced | tracks/discuss/writer.py:115-143 | on a comment whose subtree no fence cuts off, a reply refines the insertion if and only if the speaker is proper and no further body line is a tag |
| Placing.ReplySeparated | tracks/discuss/writer.py:115-143 | the lines of a reply are the old ones with the block put in; no quote follows it directly, and a blank line is put in only where one would |
| Placing.Canonical | tracks/discuss/writer.py:36-45 | the spelling of the lines written, for every depth, speaker, status and message |
| Writer.Reply | tracks/discuss/writer.py:115-143 | relocates, refuses a thread or comment that is not unique, and otherwise returns the spliced text |
| Writer.FindAnchorEnd | tracks/discuss/writer.py:52-59 | the index after the first blank line from the anchor on, or the end; below line 1 counted from the end, or no such line |
| Placing.AnchorExactly | tracks/discuss/writer.py:52-59 | a new thread goes after the first line of white space from the anchor on, or at the end |
| Placing.SpliceExactly | tracks/discuss/writer.py:62-72 | on both sides of the block lies a line of white space or the end of the text, and a blank line is put in only where there was none |
| Placing.FromEndExactly | tracks/discuss/writer.py:62-72 | at an index that counts from the end, the blank line goes as many lines below the block as it has lines, or, for a long block, at a place counted from the top; only above a line with text |
| Writer.SpliceBlock | tracks/discuss/writer.py:62-72 | the block with a blank line on each side that has text; at a negative index as list indices count |
| Writer.Start | tracks/discuss/writer.py:75-80 | the text with the new thread's block spliced in; for an anchor line of at least 1 it never fails |
| Writer.SetStatus | tracks/discuss/writer.py:187-232 | refuses an invalid status, a thread that is not unique, or a resolver who is not the one who may resolve: the adjudicator if the root names one, and otherwise the initiator; else rewrites the root line |
| Document.SetStatusSucceeds | tracks/discuss/writer.py:187-232 | it writes if and only if the status is `resolved` or `reopen`, one thread only is at the best level of the token's matches and has the requested number, and for `resolved` the operator may close it; an invalid status is refused before the lookup, the operator after it |
| Document.StatusWrites | tracks/discuss/writer.py:228-232 | what it then returns: the same number of lines, all as they were but for the root line of the requested thread, and a final newline if there was one |
| Document.ResolverExactly | tracks/discuss/gate.py:70-84 | who may resolve: the one party the root mentions, the Human under either name; or, when it mentions nobody or several, its speaker |
| Writer.CloseThread | tracks/discuss/writer.py:253-264 | one turn of the closing loop rewrites the root line of an unresolved thread and counts it |
| Writer.ResolveAllOpen | tracks/discuss/writer.py:235-265 | the loop's text, and as count the number of threads that were not resolved |
| Document.PendingExactly | tracks/discuss/writer.py:253-264 | the count is the number of threads whose status is not resolved |
| Writer.CheckReady | tracks/discuss/gate.py:33-36 | ready if and only if every thread of the parse is resolved; the blockers are the others |
| Document.BlockersExactly | tracks/discuss/gate.py:33-36 | the blockers are exactly the numbers of the threads that are not resolved, in order |
| Distance.Levenshtein | tracks/discuss/locate.py:20-29 | the two-row loop computes the recursive edit distance |
| Distance.LevZero | tracks/discuss/locate.py:20-29 | distance 0 if and only if equal |
| Distance.LevSymmetric | tracks/discuss/locate.py:20-29 | symmetric |
| Distance.LevTriangle | tracks/discuss/locate.py:20-29 | triangle inequality |
| Distance.LevBounds | tracks/discuss/locate.py:20-29 | between the difference of the lengths and the longer length |
| Distance.NoFewerEdits | tracks/discuss/locate.py:20-29 | no fewer single edits than the distance lead from one text to the other |
| Distance.EnoughEdits | tracks/discuss/locate.py:20-29 | and as many as the distance do |
| Locate.NearHits | tracks/discuss/locate.py:110-124 | the loop keeps exactly the threads in the line window whose root and anchor are within their thresholds |
| Locate.L2Nearest | tracks/discuss/locate.py:127-141 | level 2 returns exactly the same-speaker threads within the threshold at the least distance |
| Locate.LocateThread | tracks/discuss/locate.py:144-173 | the first level with a hit decides; unique only when it has one hit and the id is the requested one |
| Relocation.LocateExactly | tracks/discuss/locate.py:99-173 | a token finds a thread if and only if it is the only match at the best of three levels with any: same root and anchor at the shifted line; both within five edits or a fifth of their length, in a window of lines; or the closest of the same speaker. Stale for another number; not found without a match at any level |
| Relocation.Candidates | tracks/discuss/locate.py:144-153 | with several matches at that level the candidates are the root lines of all of them, in order |
| Locate.ExactNeverAmbiguous | tracks/discuss/locate.py:99-107 | level 0 never has two hits |
| Locate.ExactDecides | tracks/discuss/locate.py:144-173 | an exact hit decides: unique under its own id, stale under any other |
| Locate.Fresh | tracks/discuss/locate.py:44-52 | a token just taken finds its own thread as unique, for every thread of every text |
| Locate.FailClosed | tracks/discuss/locate.py:156-173 | a write only goes to the requested id, and only to a thread that matches at some level |
| Locate.LocatedIsItem | tracks/discuss/locate.py:70-96 | a located reply target is a comment of that thread |
| Relocation.CommentExactly | tracks/discuss/locate.py:70-96 | a comment token finds the one comment that has its text, depth and speaker and answers a comment of its parent's text; none if there is none, and no single one if there are several |
| Relocation.CommentCandidates | tracks/discuss/locate.py:90-96 | and when there are several, their lines in order |
| Relocation.FreshComment | tracks/discuss/locate.py:55-67 | a comment token just taken finds its own comment if and only if no other one has the same text, depth and speaker under the same parent's text |
| Document.ReplyDocument | tracks/discuss/writer.py:115-143 | a reply that succeeds goes to the root, or to the only comment that the request's token means, in the only thread at the best level of the thread token's matches; and the threads of the returned text are the old ones with one more last child there exactly when the conditions hold, among them that the speaker is one line |
| Document.ReplySucceeds | tracks/discuss/writer.py:83-134 | a reply is written if and only if there is one such thread, with the requested number, and one such comment; the comment is the reason of a refusal only when the thread is found |
| Document.StartDocument | tracks/discuss/writer.py:75-80 | for an anchor line of at least 1, the threads of the text that `start` returns are the old ones and one new open thread at its place exactly when the conditions hold: proper speaker in one line, no tag among further lines, outside a fence with nothing continuing after it |
| Document.TokenSurvivesReply | tracks/discuss/locate.py:99-107 | after a reply in an earlier thread the old token of a later one still finds it as unique through the line-count delta |
| Document.TokenAfterReply | tracks/discuss/locate.py:110-124 | the old token of the thread replied to, or of an earlier one, finds it as unique if and only if no other thread is near the line it now points to |
| Document.TokenStaleAfterStart | tracks/discuss/locate.py:156-173 | after a new thread above it, an old token is stale under the old id and unique under the new one, never another thread's |
| Document.StatusDocument | tracks/discuss/writer.py:187-232 | after a status change the tokens of all other threads still find them |
| Document.ResolveDocument | tracks/discuss/writer.py:235-265 | on texts: all threads resolved, and closing again returns the same text with count 0 |
| Delta.CommentsAreTags | tracks/discuss/delta.py:60-67 | the parser's comment lines are exactly the tagged lines outside fences |
| Delta.DiscussionLines | tracks/discuss/delta.py:44-96 | the two passes mark exactly the lines the specification calls discussion |
| Verdict.DiscussionExactly | tracks/discuss/delta.py:44-96 | discussion lines are, outside fences, the tags, and the quotes to which nothing but blank lines and quotes lead down from a tag |
| Delta.FramingBlanks | tracks/discuss/delta.py:107-131 | the walks find exactly the empty lines joined to a discussion line by empty lines |
| Delta.BodyLines | tracks/discuss/delta.py:134-149 | the lines that are no discussion, with their original numbers |
| Delta.DiffIsFramingOnly | tracks/discuss/delta.py:152-198 | true if and only if every deleted, inserted or replaced region is framing on its side |
| Delta.IsDiscussionDelta | tracks/discuss/delta.py:211-250 | the verdict on the opcodes of the matcher, with the early refusals; what is accepted has changed and still has a comment |
| Verdict.VerdictExactly | tracks/discuss/delta.py:211-250 | under any tiling: accepted if and only if the text has changed, some line of the new one is a tag outside fences, and every line taken away or put in is an empty line joined to a discussion line of its text by empty lines |
| Delta.DeltaSound | tracks/discuss/delta.py:162-208 | whatever tiling the matcher returns, acceptance means that one common sequence results from deleting framing blanks only from either body, so the non-empty body lines agree in order and byte for byte |
| DeltaAgree.ReplyIsDelta | tracks/discuss/delta.py:201-250 | every reply has an accepted alignment, whatever its speaker and message |
| StartDelta.StartIsDelta | tracks/discuss/delta.py:201-250 | a started thread has one if and only if it goes outside a fence, into a discussion or, with a head that is a tag, where no untagged quote comes next, and not after a last line without a newline that is no discussion line |
| StatusDelta.StatusIsDelta | tracks/discuss/delta.py:201-250 | a status change has one if and only if it changes the text and the root line stays in its discussion: the stripped initiator is no label, or a tag stands before it in its run |
| StatusDelta.ResolveIsDelta | tracks/discuss/delta.py:201-250 | closing all threads has one if and only if it changes the text and that holds of every root line it rewrites |
| Auditor.ChangedCovers | tracks/effects/audit.py:189-223 | a path whose file or link differs from the pre-dispatch tree is in the changed set if and only if it is no recorded path that reads the same through a link that came, or went, above it |
| Auditor.ChangedExactly | tracks/effects/audit.py:189-223 | exactly what is in the changed set: a path that was modified before the run when it reads differently, any other when its file or link or its index entry is another |
| Inverse.UntouchedIsLeftOut | tracks/effects/audit.py:189-223 | a path that reads as before, with the same file or link and index entry, is left out of the rollback, which puts nothing there |
| Listing.QuotedIsUnlisted | tracks/effects/audit.py:85-93 | a name with a character that git quotes is in neither listing, whatever HEAD and the index hold, unless it is spelled like a quoted name |
| Listing.ListedIsThere | tracks/effects/audit.py:381-382 | a name without such characters is in the listing of HEAD only if HEAD has that path |
| Listing.OctalReads | tracks/effects/audit.py:85-93 | in a quoted name a byte is a backslash and its three octal digits |
| Listing.OctetsDecode | tracks/effects/audit.py:85-93 | and the bytes are those of the character in UTF-8 (section 3 of RFC 3629), so they decode to it |
| Phases.StripMore | tracks/effects/audit.py:430-455 | removing one more path from a tree from which paths were stripped strips that path, too, whatever the order |
| Phases.RestoreIsTurn | tracks/effects/audit.py:457-497 | on files and links, one restore is one turn: skipped below a link, raising, recorded node, HEAD with its index entry, index, or nothing; HEAD and index only for a name that git lists as it is |
| Phases.RestoreIsTurns | tracks/effects/audit.py:403-411 | the whole restore phase is the sequence of turns, shallowest first |
| Phases.RestoreTidies | tracks/effects/audit.py:457-515 | a restore that removes a path also removes the empty untracked directories above it, and no other |
| FileTree.PruneExactly | tracks/effects/audit.py:499-515 | exactly those directories above the path go that hold nothing but each other and are not tracked |
| Turns.RaisesExactly | tracks/effects/audit.py:457-497 | the phase raises if and only if a recorded path comes to its turn below a file that no checkout has cleared by then |
| Settling.SettlesExactly | tracks/effects/audit.py:339-411 | for every goal: the turns end without an exception with exactly the goal if and only if each goal of the set is recorded or brought by a checkout, nothing recorded is written back against the goal, nothing that should stay lies below a path of the set and all that comes back is cleared again |
| Inverse.RollbackIsInverse | tracks/effects/audit.py:339-411 | rolling back all changed paths ends without an exception and with the pre-dispatch files and links if and only if no recorded path is hidden, no clean changed path is listed under another name, nothing unchanged lies below a changed path, and all that comes back is cleared again |
| Inverse.NothingComes | tracks/effects/audit.py:339-411 | in particular if nothing is hidden, no changed name is quoted and nothing comes back |
| Inverse.PartialRollback | tracks/effects/audit.py:378-411 | rolling back some paths restores those and leaves every other write alone, without an exception, if and only if old and new files do not get in each other's way, a checkout brings every clean one of them, what was recorded through a link is kept out by a link, none of the set is above something that should stay, and all that comes back is cleared again |
| Rollback.AuditLog.Baseline | tracks/effects/audit.py:149-175 | records type, content and link text of exactly the modified paths, as read through links |
| Rollback.AuditLog.AgentChangedPaths | tracks/effects/audit.py:189-223 | the newly modified paths and the recorded ones that read differently in type, content or target |
| Rollback.AuditLog.Remove | tracks/effects/audit.py:430-455 | removes a link, file or directory tree, and nothing behind a link |
| Rollback.AuditLog.PruneParents | tracks/effects/audit.py:499-515 | removes empty untracked parents upwards and stops at the first other |
| Rollback.AuditLog.Restore | tracks/effects/audit.py:457-497 | recorded content, else HEAD, else the index, for names that git lists as they are, else nothing; raises exactly when a recorded node meets something it cannot be written over |
| Rollback.AuditLog.RemoveAll | tracks/effects/audit.py:383-402 | links first, then deepest first: exactly the paths of the set and what lies below them are gone |
| Rollback.AuditLog.RollbackAgentChanges | tracks/effects/audit.py:339-411 | for every set of paths: never operates on a path with a link above it, and ends, or raises, as the turns say; without a commit it raises and changes nothing |
| Rollback.AllowedExactly | tracks/effects/audit.py:289-304 | a path is allowed if and only if its text is that of an allowed one, or goes on with a slash after it |
| Rollback.ForceRollback | tracks/effects/opencode_audit.py:198-229 | the audit's full rollback ends without an exception and with the pre-dispatch tree if and only if there is a commit and that condition holds, and raises if and only if there is no commit or a recorded path meets a file |
| Rollback.PartialForceRollback | tracks/effects/opencode_audit.py:249-251 | the audit's partial rollback restores the offending paths and keeps the compliant writes under its exact condition, and if there is a commit |
| RollbackExamples.WalkDots | tracks/effects/audit.py:189-223 | on a path read through links, a dot is no step, and a directory followed by two dots is none |
| RollbackExamples.HumanEditLost | tracks/effects/audit.py:189-223 | a directory with an edit of the Human is moved and a link put in its place: the edit is not in the changed set, nothing comes back, and the only copy is removed |
| RollbackExamples.RestoreRaises | tracks/effects/audit.py:457-497 | HEAD has a file where the Human had a directory: its checkout makes the restore of the recorded file below it raise |
| RollbackExamples.StagedFileSurvives | tracks/effects/audit.py:486-493 | a new file staged by the agent is brought back from the index |
| RollbackExamples.DeletedFileRevived | tracks/effects/audit.py:479-493 | a tracked file the Human had deleted and the agent recreated ends at its HEAD content |
| RollbackExamples.ClearedAgain | tracks/effects/audit.py:479-493 | a staged file in place of a tracked directory comes back and is cleared by the checkout two levels below it |
| RollbackExamples.QuotedNameLost | tracks/effects/audit.py:479-497 | an edited clean file whose name git quotes: in the changed set, removed, in no listing, and gone without an exception |
| RollbackExamples.QuotedStagedGone | tracks/effects/audit.py:479-497 | a new file with such a name, staged by the agent, does not come back |
| WriterLock.StepExactly | tracks/cli/common.py:101-150 | a step keeps the lock file the mark of its one live holder if and only if it is not an unlink of a live holder's file |
| WriterLock.MutualExclusion | tracks/cli/common.py:101-150 | in every run without such an unlink, with any crashes, at most one live process is between its open and its release |
| WriterLock.AtomicExclusion | tracks/cli/common.py:140-145 | so it is in every run in which the unlink of a reclaim follows at once on the read and the check it acts on |
| WriterLock.NoCrashExclusion | tracks/cli/common.py:101-150 | and in every run without crashes, at the grain of single file operations |
| WriterLock.HarmfulBreaks | tracks/cli/common.py:140-145 | such an unlink lets its process into the critical section of a live one three steps later |
| WriterLock.RaceExists | tracks/cli/common.py:140-145 | two reclaimers of one dead holder can both hold the lock |
| WriterLock.EmptyFileBlocks | tracks/cli/common.py:101-145 | a lock file whose creator died before writing its id is never reclaimed, and nobody ever gets in |
| WriterLock.StuckReachable | tracks/cli/common.py:101-122 | one crash, between creating the file and writing the id, leads there from the start |
| WriterLock.DeadHolderReclaimed | tracks/cli/common.py:101-150 | a file that holds the id of a dead process is reclaimed by any live process that tries, whether it waits or not, in seven undisturbed steps that end with its own id in the file |
| WriterLock.HeldKeepsOut | tracks/cli/common.py:101-150 | a file that is empty or has a live holder keeps an undisturbed process out: it tries again if it waits, raises if not, and leaves the file |
| WriterLock.LooksAgain | tracks/cli/common.py:115-137 | in every run an attempt that found the file there looks once more before the process tries again or raises |
| WriterLock.RefusedExactly | tracks/cli/common.py:115-121 | a step refuses a process if and only if it is a look that finds a file and does not wait |
| WriterLock.FileStep | tracks/cli/common.py:101-157 | only an open puts the lock file there, only a write of its creator marks it, and only an unlink or a release takes it away, whoever it belongs to |
| WriterLock.RefusedSaw | tracks/cli/common.py:115-137 | in every run, whoever raised had found a lock file standing when it looked |
| WriterLock.AbandonedExactly | tracks/cli/common.py:101-150 | so a file that its dead creator left behind keeps everybody out for good if and only if its id was not written |
| WriterLock.AcquireEnds | tracks/cli/common.py:123-167 | a live process that began `acquire` and has not released is still in it, has returned holding, or has raised |
| WriterLock.AcquireOutcome | tracks/cli/common.py:123-167 | in every run without such an unlink, a process whose `acquire` returned owns the file, with its id in it, and no other is between open and release; one whose call raised owns nothing |
| WriterLock.SuspendedOutcome | tracks/cli/common.py:159-166 | `suspended` gives the file up, and when it comes back without raising owns it again, whatever ran in between |
| Reach.BuildAdjacency | tracks/checks/reach.py:60-77 | exactly the imports by exact name, and otherwise everything inside the named package |
| Reach.ImportsExactly | tracks/checks/reach.py:60-77 | an import is of the module it names or, when it names none or the importing module, of every other module whose name goes on with a dot after it |
| Reach.StartsExactly | tracks/checks/reach.py:107-111 | the starts are the modules an entrypoint names, and those named before the first colon of one that is no module |
| Reach.ReachedIsLeast | tracks/checks/reach.py:96-121 | what is reached lies in every set that holds the starts and is closed under import and ancestor edges |
| Reach.BfsReachable | tracks/checks/reach.py:96-121 | the search ends despite repeated queue entries and visits exactly the modules that end a path from a start |
| Reach.CheckReach | tracks/checks/reach.py:124-158 | the islands are exactly the production modules, not exempt, that no chain of edges reaches; passes if and only if there is an entrypoint and no island |
| Reach.LiveIsLeast | tracks/checks/reach.py:96-121 | what is not an island is the least set with the starts that imports and enclosing packages do not lead out of |
| Reach.NoNewIsland | tracks/checks/reach.py:124-158 | more entrypoints, more imports over the same modules and more exemptions never add an island |
| Reach.NewModuleKeeps | tracks/checks/reach.py:60-77 | a new module loses no other one if and only if whatever a reached module imported through the package name it takes over is still reached, and so is the module of an entrypoint it takes over |
| Reach.NewModuleCanAddIsland | tracks/checks/reach.py:66-76 | and then it can |
| Frontmatter.HeadIsFenced | tracks/frontmatter.py:9-15 | every frontmatter found is a list of lines with delimiters at its ends and none in between from the third line on |
| Frontmatter.FencedReads | tracks/frontmatter.py:9-15 | and every such list is found again, whatever body follows |
| Frontmatter.SetFrontmatterField | tracks/frontmatter.py:25-37 | the loop sets the first line of the field or inserts one above the closing delimiter, and fails exactly without frontmatter |
| Frontmatter.SetFieldExactly | tracks/frontmatter.py:25-37 | the body stays character for character and the frontmatter's lines are the old ones with the field set |
| Frontmatter.LastWins | tracks/frontmatter.py:25-37 | setting a field twice is setting it to the second value, so setting it again changes nothing |
| Frontmatter.FieldReads | tracks/frontmatter.py:25-37 | the field reads back |
| Frontmatter.OtherFields | tracks/frontmatter.py:25-37 | every other field is as it was |
| Frontmatter.SealHolds | tracks/frontmatter.py:18-22 | a sealed document carries the digest of the body it has after sealing |
| Frontmatter.DigestStable | tracks/baseline.py:43-45 | setting fields in the requirement documents leaves the revision digest unchanged |
| Frontmatter.DigestExactly | tracks/baseline.py:43-45 | and without a collision of hashes it is the same if and only if all three bodies are |
| ReleaseLog.ClosedMeansDecided | tracks/cli/release_cmd.py:686-688 | the gate is closed if and only if something was decided after the active preview |
| ReleaseLog.DecideRelease | tracks/cli/release_cmd.py:810-852 | appends one decision or one rejection, with the preview's candidate and digest |
| ReleaseLog.CmdRelease | tracks/cli/release_cmd.py:855-896 | what a request adds to the log, without preview, closed, rejected or recorded |
| ReleaseLog.RequestExactly | tracks/cli/release_cmd.py:810-896 | nothing is added without an open preview; else a rejection with the reason given, or for a known issue that a release does not list, or else the decision, with the preview's candidate and digest |
| ReleaseLog.GrownSound | tracks/cli/release_cmd.py:855-896 | in every log grown by release commands and any other events, between two decisions lies a preview, and each decision carries the candidate and digest of the preview then active |
| ReleaseLog.PreviewReopens | tracks/cli/release_cmd.py:180-182 | right after a new preview an unobjected action is recorded again |
| ReleaseLog.VerifyEventsWindow | tracks/cli/release_cmd.py:204-223 | the events after the last stage entry or freeze, or all |
| ReleaseLog.WindowExactly | tracks/cli/release_cmd.py:204-223 | the window begins after the last entry to `M-VERIFY` or freeze of a named candidate, or at the beginning |
| ReleaseLog.LatestGateResults | tracks/cli/release_cmd.py:226-239 | for each gate key its last result |
| ReleaseLog.ReleaseGateBlocked | tracks/cli/release_cmd.py:242-266 | blocks if and only if the window holds no evidence or something bad that no later evidence of the same kind made good |
| ReleaseLog.AuthorizedExactly | tracks/cli/release_cmd.py:226-266 | a window authorizes a release if and only if something in it counts and every failed assessment, final verdict and gate is made good by a later one of the same kind |
| ReleaseLog.FreezeForgets | tracks/cli/release_cmd.py:204-266 | the verdict after a freeze does not depend on what came before it |
| InstallUndo.Rollback.ReplaceDir | tracks/install.py:655-672 | when the staged tree is there, the log gives back afterwards, outside what is removed anyway, what it gave back before |
| InstallUndo.Rollback.SaveFile | tracks/install.py:674-685 | takes its step, and whatever is written or unlinked at the path from now on, the log gives back what it gave back before |
| InstallUndo.Rollback.DeferRemoveTree | tracks/install.py:694-701 | takes its step, and gives the same for everything in a tree that is not there yet; for one that is, if only as an empty directory, the log gives back what it did |
| InstallUndo.Rollback.DeferRemoveEmptyDir | tracks/install.py:687-692 | takes its step, which has no effect on what the log gives back |
| InstallUndo.Rollback.Run | tracks/install.py:703-710 | replays the log from its end, then removes `.tracks` if it was not there before |
| InstallUndo.ReplaceUndone | tracks/install.py:655-672 | undoing a replacement at once gives the files before it |
| InstallUndo.WriteThenUndoAll | tracks/install.py:674-701 | over a whole log a covered write or unlink is undone and any other stays |
| InstallUndo.StepLeaves | tracks/install.py:483-508 | after every step the log gives back what it did before it, but for what was written and is not taken back |
| InstallUndo.FailureLeaves | tracks/install.py:203-226 | exactly what a failure leaves after any sequence of steps: what was there, but for the writes that are not taken back |
| InstallUndo.BackupIsFree | tracks/install.py:651-653 | a backup never lands on something that exists |
| InstallUndo.HalfReplaceLoses | tracks/install.py:655-672 | a replacement that fails between its renames loses exactly the tree it was to replace |
| Install.Turns | tracks/install.py:203-226 | every step of an installation is one the log can take, in its own order, from the scaffold to the receipt |
| Install.InstallLeaves | tracks/install.py:483-508 | what lies at every path after a failure with any number of steps done, for a `.tracks` and an environment that were there, were there empty, or were not |
| Install.FailureRestores | tracks/install.py:203-226 | such a failure restores every file if and only if nothing stays: no missing scaffold file was written, no other ignore file of an existing environment replaced, no temporary file written or moved away |
| Completion.CompleteSucceeds | tracks/install.py:347-402 | a package that passes validation brings every step to its end if and only if nothing is in the way: no file where a directory is needed, no directory at the launcher, the receipt, their temporary files or the ignore file, no file of the package below another |
| Installed.InstalledExactly | tracks/install.py:203-226 | what an installation with all steps done leaves: every file of the package at its one place with its text, nothing else in the trees it replaces, the launcher, receipt and ignore file, the configuration only where there was none, and everything else as it was, with the missing scaffold files |
| Completion.IgnoreFileRewritten | tracks/install.py:497-500 | a project with an extended `.tracks/env/.gitignore`: a failed health check leaves that file rewritten, and only that |
| Completion.ScaffoldStays | tracks/project_runtime.py:176-191 | an empty `.tracks` with an empty environment: a failed health check leaves the five scaffold files and the ignore file |
| Wake.NotifyThenTick | tracks/cli/serve_cmd.py:103-131 | in every run, between a notification and the next wait that takes its full time a tick starts |
| Wake.TickSoon | tracks/cli/serve_cmd.py:404-424 | once notified, the loop never blocks and starts a tick after at most two of its own steps |
| Wake.AfterTick | tracks/cli/serve_cmd.py:404-424 | after a tick that freed a run the loop goes on at once, after any other it waits |
| Wake.WokenOnce | tracks/cli/serve_cmd.py:117-131 | in every run, a wait ends early only for a notification since the last wait, or for a stop |

## Left out

* Line separators other than `\n`, carriage returns, byte decoding and `str` code points above the basic plane.
* Unicode normalisation, and letter case outside ASCII, in labels, speaker keys and snippets.
* `edit` (it replaces a first line and keeps old continuation lines), `_find_comment`, and token encoding.
* The lookup of the Human's display name (a parameter) and the file locking and renaming around the writer.
- StartDelta.StartIsDelta: leaves out a speaker that makes no tag together with a message that holds tags, outside every discussion, where a line of the block may replace an equal line of the text; and a last line of carriage returns.
- StartProof.StartExactly: speaks of insertion indices inside the text. An anchor line below 1 is counted from the end, and when it gives a negative index the blank line after the block goes in where `Writer.Start` says, but what the parser makes of that text is not stated.
* Thread ids as text: a thread is numbered, and its id is that number.
* Builder nodes as objects: the parser's nodes are entries of a list and children are their numbers.
* The matcher of `difflib`: only that its opcodes tile both bodies is used, so agreement of writer and delta checker is the existence of an accepted alignment.
- Inverse.RollbackIsInverse: takes each path to a checkout literally, where git reads `*`, `?`, `[` and a leading `:` as a pattern; the same goes for `Inverse.PartialRollback` and `Phases.RestoreIsTurn`.
* Git: the setting `core.quotePath`, submodules and nested repositories, merge conflicts, flags of index entries, rename entries, ignored files, file modes, commits made by the agent, and what the index should be after a rollback (what the checkouts make of it is modelled).
* The auditor: unreadable files, forbidden patterns in `_is_allowed`, the returned list of paths, empty directories, and which order paths of equal depth have (every order is covered).
* What stands outside the repository behind a link is a function of the place it points to, fixed before and after the run; more than 40 links on a path read as missing.
* The decision whether a write is over-reach, the adjudication of it, and the agent process.
* The lock's clock: whether a waiting process has time left is a free choice. Process ids are not reused, and a liveness check never fails for lack of permission on a dead process.
* Reading source files for imports, entrypoint discovery, and the sorting of the report.
* Multi-line field values in frontmatter, and hashing (a parameter).
* The authorization of a release and the known-issue list (parameters), and appends by others between the gate's read and its append, which the writer lock excludes.
* Directories in the installer: apart from `.tracks` and its environment a directory is its files, so empty ones are not modelled, nor are permissions and failing undo steps; a write that fails half-way; the texts of launcher, receipt and configuration, the health check and the commit.
* The supervisor's tick itself, its intervals, and a loop without a wake-up channel.
* The kernel machine, the executor, the store's storage, the server, GitHub transport and all rendering: separate parts, mostly settled by reading one branch.
