# Verified model of the mail index and its data structures

This project models the data structures of two generations of a mail
client: the in-memory mail index, posting lists, contact cards and command
cache of `Attic/mailpile`, and the scheduler, path policies and secret
store of `moggie`. Each of them keeps a simple abstract meaning (a partition,
a map, a list, a recomputation) through branching code that changes state in
place. The methods here follow that code step by step and are proved
against functions on values; the lemmas then say what those functions mean.

`dafny verify dfyconfig.toml` checks everything.

| module | file | models |
|---|---|---|
| Threading, MailIndexThreads, Base36 | Threading.dfy, MailIndex.dfy, Base36.dfy | conversations as a partition: joining, unthreading, base 36 identifiers |
| PostingStore, PostingContainers, PostingRuns, PostingLoss, Journal | Posting\*.dfy, Journal.dfy | the keyword store: prefix files, splitting, the journal in front |
| MetadataLog, IndexViews, Collapse | MetadataLog.dfy, IndexViews.dfy, Collapse.dfy | the metadata log and its replay, the derived views, the conversation collapse |
| CommandCache | CommandCache.dfy | timed invalidation of cached results |
| VCardMerge, VCard, VCardCodec | VCard\*.dfy | merging lines from several sources, writing and reading one line |
| Reflow | Reflow.dfy | greedy paragraph filling |
| Secrets, PathPolicies | Secrets.dfy, PathPolicies.dfy | the hash-prefix secret map, inherited path policies |
| Cron | Cron.dfy | cron fields, the next matching minute, catching up |
| MboxScan, PgpPackets | MboxScan.dfy, PgpPackets.dfy | scanning a mailbox in chunks, walking OpenPGP packets |

## Where the code falls short of its promise

These promises hold only under a condition. Each is proved as an
equivalence, with the condition a caller can check beforehand.

- Threading: a join keeps the conversation invariant exactly when the message
  is its own root, as a new one is, or already shares a conversation with one of
  its references (`Threading.Joinable`).
- Posting lists: a `save` that splits keeps every lookup, however ties are
  broken, exactly when the container cannot nest (`PostingStore.MayNest`): no
  list of at least `MAX_ITEMS / 2` ids has siblings of together at least its size,
  while the groups not larger than it, without those siblings, hold more than
  `MAX_ITEMS` ids. `PostingLoss.RunMayLose` is a run of five appends that loses a
  list of 6144 ids.
- Metadata index: a save that fails between backing up the old file and the
  rename leaves no file at all, exactly when the index file is older than ten
  seconds.
- Command cache: when refreshes are at most `_dirty_ttl - _lag` apart, a served
  result is up to date exactly when nothing it depends on was marked while its
  command was being run, nor afterwards at the very time the result is dated
  (`CommandCache.ServedIsUpToDateExactly`). A command is run first and its result
  dated when it is cached (Attic/mailpile/commands.py:531), also when a refresh
  runs it again, so such marks are overlooked for good. For every longer gap between
  refreshes there is a run that serves what was marked later still.
- vCard merge, where PID lists name each source once: for a source the card knows,
  merging the same lines again changes
  nothing exactly when the card had no further line with the name and value of one
  the source was about to share, or only lines without PIDs that are e-mail or
  preferred (`VCardMerge.FragileTwin`). For a new source it must also have had no
  line that bears the source's future number, is not among the input, and has
  another PID or is neither e-mail nor preferred (`VCardMerge.Stray`).
- Secrets: writing a secret is a map update exactly when its slot holds nobody
  else's secret and no unexpired volatile secret shadows it. In runs of
  persistent sets this always holds; after one removal it can fail.
- Reflow: lists of lines are always stable, but text is stable exactly when it
  is a single line or does not end in an empty line. The docstring
  (Attic/mailpile/util.py:608) promises it for all text.
- Path policies: an entry for `/` is inherited only by paths that begin with
  `//`.
- vCard lines: they read back as written exactly when names are lower case and
  no name or attribute holds the separators that the reader splits on.
- Tagging conversations: a change reaches just the conversations of the messages
  given exactly when these are all in the index, or that of the last message is
  meant anyway. An id beyond the index is passed over in a change of single
  messages, but stands for the last message in one of conversations
  (`IndexViews.ConversationsOnlyExactly`).
- Cron: the table of weekday names counts from Sunday and the calendar from
  Monday, so a job for a named day is due on the day after it, always and only.
  And a call that ends in the middle of a job's catch-up, because its caller stops
  or no next time is found, leaves the job as it was, so that the times yielded
  come again in the next call; in all other runs each comes exactly once.

## Model

| member | source | states |
|---|---|---|
| Base36.ValueOfDigits | Attic/mailpile/util.py:418-438 | reading back a written identifier gives the number |
| Base36.DigitsOfValue | Attic/mailpile/util.py:418-438 | the digits written are the only ones without leading zeros for their value |
| Base36.Encode | Attic/mailpile/util.py:418-438 | the conversion loop writes those digits; numbers below zero are written as 0 |
| Threading.JoinIsUnion | Attic/mailpile/search.py:914-960 | joining is exactly the union of the classes of the message and of its references; messages of other classes are unchanged, and so is the parent of every other message that names one beside its root |
| Threading.JoinKeepsInvariantExactly | Attic/mailpile/search.py:929-960 | the conversation invariant survives a join if and only if the message is its own root or shares a conversation with one of its references |
| Threading.JoinMayBreakInvariant | Attic/mailpile/search.py:929-960 | a valid index of three messages in which joining one that is filed under a root breaks the invariant |
| Threading.JoinKeepsInvariant | Attic/mailpile/search.py:929-960 | a joinable message keeps: a root is its own root, members are listed on the root, and listed messages belong to it |
| Threading.JoinedMeaning | Attic/mailpile/search.py:929-948 | after a join precisely the touched messages have the target as root, and only the target keeps a member list |
| Threading.JoinedMembers | Attic/mailpile/search.py:953-960 | the target lists precisely the members of the merged classes, once each, in string order of identifiers |
| MailIndexThreads.MailIndex.OrderReferences | Attic/mailpile/search.py:889-898 | In-Reply-To becomes the last reference and occurs only there |
| MailIndexThreads.WithoutOneCopy | Attic/mailpile/search.py:892-893 | removing one copy at a time removes the same references as filtering them out |
| MailIndexThreads.MailIndex.LookUp | Attic/mailpile/search.py:904-909 | every reference is looked up, and the last missing one is remembered |
| MailIndexThreads.MailIndex.ResolveReferences | Attic/mailpile/search.py:903-915 | at most one ghost is added, for the last missing reference; the known references keep their order |
| MailIndexThreads.MailIndex.Discover | Attic/mailpile/search.py:914-927 | the conversations met are the roots of all references, and the first reference decides the target |
| MailIndexThreads.MailIndex.Merge | Attic/mailpile/search.py:940-948 | moved messages get the target as root, keep their parent and lose their list; nothing else changes |
| MailIndexThreads.MailIndex.MergeConversations | Attic/mailpile/search.py:929-948 | merging all conversations and the message gives the merged index, message by message |
| MailIndexThreads.MailIndex.JoinConversations | Attic/mailpile/search.py:914-1010 | the merging, listing and settling steps together compute the join |
| MailIndexThreads.MailIndex.SetConversationIds | Attic/mailpile/search.py:845-1010 | the message hangs under the message of In-Reply-To, else of the last reference, or is its own parent if that is unknown and no ghost; the first known reference decides the root; two messages are together afterwards exactly if they were, or both are linked to the message by class or citation; a ghost is added for a missing last reference; the index stays valid exactly when it was joinable, so always for a self-rooted message |
| MailIndexThreads.OrderedRefsMeaning | Attic/mailpile/search.py:889-901 | the references are those cited, and the last of them is In-Reply-To, else the last one given |
| MailIndexThreads.JoinedIsHungRight | Attic/mailpile/search.py:896-901 | after the join the parent of the message is what In-Reply-To, else the last reference, names |
| MailIndexThreads.JoinedHasRootRight | Attic/mailpile/search.py:914-927 | where the first reference is known, its root becomes the root of the message |
| MailIndexThreads.JoinedIsRight | Attic/mailpile/search.py:903-960 | two messages share a conversation after the join exactly if they did before, or both are linked to the message |
| MailIndexThreads.GhostIsRight | Attic/mailpile/search.py:903-915 | a ghost bears the id of a reference that is not in the index, and shares the conversation of the message |
| MailIndexThreads.MailIndex.SetMsg | Attic/mailpile/search.py:1623-1651 | one message is replaced and its id still leads to it |
| MailIndexThreads.MailIndex.AddNewMsg | Attic/mailpile/search.py:1115-1165 | a new message is its own conversation and the index stays valid |
| MailIndexThreads.MailIndex.CollectKids | Attic/mailpile/search.py:1023-1028 | the child lists hold exactly the members with that parent, in order |
| MailIndexThreads.MailIndex.Family | Attic/mailpile/search.py:1031-1043 | the queue loop ends and yields, without repeats and head first, the least set closed under children |
| MailIndexThreads.MailIndex.RewriteMember | Attic/mailpile/search.py:1064-1074 | one family member gets the new root; only the head gets the list |
| MailIndexThreads.MailIndex.RewriteFamily | Attic/mailpile/search.py:1051-1074 | the whole family is rewritten, while its former roots and the members left behind are collected |
| MailIndexThreads.MailIndex.RewriteOrphans | Attic/mailpile/search.py:1076-1088 | members left without a root are gathered under the first of them |
| MailIndexThreads.MailIndex.CleanLists | Attic/mailpile/search.py:1090-1098 | former roots no longer list the family |
| MailIndexThreads.MailIndex.Reparent | Attic/mailpile/search.py:1046-1098 | the three passes together are the split of the index, and keep it valid |
| MailIndexThreads.MailIndex.UnthreadMessage | Attic/mailpile/search.py:1012-1113 | the index stays valid and other conversations are untouched; a message with a parent takes exactly its descendants along; of a message without one the later children are cut off with their descendants |
| MailIndexThreads.MailIndex.CutChildren | Attic/mailpile/search.py:1100-1110 | each child listed after the message itself becomes the root of its descendants, whatever the order of the list; all other descendants are rooted at the message |
| MailIndexThreads.UnthreadingRootMayChangeNothing | Attic/mailpile/search.py:1100-1110 | a valid index in which a root has a child but unthreading the root cuts off nothing, since the child is listed first |
| MailIndexThreads.LaterMeaning | Attic/mailpile/search.py:1100-1110 | the children cut off a root are those listed after its last place in the list |
| Threading.SplitKeepsInvariant | Attic/mailpile/search.py:1046-1098 | splitting any family containing its head keeps the conversation invariant |
| Threading.SplitIsPartition | Attic/mailpile/search.py:1046-1098 | after a split two messages are together iff both are in the family, or neither is and they were together or both stranded; conversations without family members and all other parents are unchanged |
| Threading.UnthreadIsSplit | Attic/mailpile/search.py:1012-1098 | splitting off a message's family cuts its class in two, the family and the rest, and no other class |
| Threading.SplitMeaning | Attic/mailpile/search.py:1051-1088 | the root of every message after a split: the head, the first stranded message, or the same as before |
| Threading.SplitLists | Attic/mailpile/search.py:1064-1098 | the member list of every message after a split |
| Threading.OrphansAreStranded | Attic/mailpile/search.py:1060-1080 | the messages gathered as orphans are exactly those outside the family whose root is in it |
| Threading.FamilyIsDescendants | Attic/mailpile/search.py:1031-1043 | the family is exactly the set of descendants |
| Threading.FamiliesAreDisjoint | Attic/mailpile/search.py:1100-1106 | different children of a message that is its own parent have disjoint families, none containing the message |
| PostingStore.RouteIsLongest | Attic/mailpile/postinglist.py:271-289 | a keyword belongs to the longest existing prefix file, or to its first character |
| PostingStore.SaveKeepsLookupsExactly | Attic/mailpile/postinglist.py:138-220 | for given split keys, saving keeps every lookup if and only if no key is a prefix of a later one |
| PostingStore.EverySaveKeepsLookupsExactly | Attic/mailpile/postinglist.py:138-220 | every largest-first run of the splitting loop keeps all lookups if and only if the container, as it is before the call, cannot nest |
| PostingStore.MayNestExactly | Attic/mailpile/postinglist.py:185-220 | some run of the splitting loop nests if and only if the container shows a list of half the limit, siblings at least as large, and too many ids in the other groups that are not larger |
| PostingStore.NestingIsCertain | Attic/mailpile/postinglist.py:185-220 | a list strictly smaller than its siblings, with too many ids in it and the smaller groups, is lost by every run of the loop |
| PostingStore.SaveKeepsLookups | Attic/mailpile/postinglist.py:138-220 | without nesting, every keyword finds after the save what the container or the other files held |
| PostingStore.SaveKeepsPlaces | Attic/mailpile/postinglist.py:138-220 | without nesting, every stored list sits in the file its keyword is routed to |
| PostingStore.NestedSplitLoses | Attic/mailpile/postinglist.py:185-220 | whenever a short key comes before a full key it contains, that keyword's list can no longer be found |
| PostingStore.NestingNeedsLargeSiblings | Attic/mailpile/postinglist.py:191-203 | nesting happens only for a list of at least half the limit, under a key whose group is at least as large |
| PostingStore.SmallListsCannotNest | Attic/mailpile/postinglist.py:185-203 | with every list below half the limit no keys nest |
| PostingStore.SplitFits | Attic/mailpile/postinglist.py:200-205 | after the splits the container holds at most the maximum number of ids |
| PostingStore.SelectionSplits | Attic/mailpile/postinglist.py:185-220 | chosen keys are new file names below the container's, and each owns a list |
| PostingStore.LargestFirst | Attic/mailpile/postinglist.py:200-205 | groups are split off in order of falling size |
| PostingContainers.PostingListContainer.Load | Attic/mailpile/postinglist.py:222-289 | a container holds the file its keyword is routed to |
| PostingContainers.PostingListContainer.Add | Attic/mailpile/postinglist.py:251-257 | ids are added to one keyword's list, and counted as changes |
| PostingContainers.PostingListContainer.Remove | Attic/mailpile/postinglist.py:259-265 | ids are removed from one keyword's list; an empty list goes |
| PostingContainers.PostingListContainer.PurgeDeleted | Attic/mailpile/postinglist.py:128-136 | no list but the deleted keyword's own has a deleted id afterwards, and none loses any other; the count is zero exactly when nothing changed |
| PostingContainers.PostingListContainer.GroupSums | Attic/mailpile/postinglist.py:188-198 | the loop computes the total and the size of every group |
| PostingContainers.PostingListContainer.SplitOff | Attic/mailpile/postinglist.py:206-216 | one group moves, list by list, to a container for its file, which is created if it does not exist and whose lists are kept if it does |
| PostingContainers.PostingListContainer.Splits | Attic/mailpile/postinglist.py:185-220 | the loop selects the largest groups until the rest fits, each list going to the first key that takes it |
| PostingContainers.PostingListContainer.SavePieces | Attic/mailpile/postinglist.py:138-178 | all pieces are written to their own files |
| PostingContainers.PostingListContainer.Save | Attic/mailpile/postinglist.py:138-178 | saving splits as the loop allows and does nothing without changes; if the container belongs to its file, the files are then the split lists, without empty ones, and that file holds at most 12288 ids |
| PostingContainers.SplitIsNeeded | Attic/mailpile/postinglist.py:185-205 | what stays after a split is at most 12288 ids, and a container of no more is not split |
| PostingContainers.PostingFiles.Hits | Attic/mailpile/postinglist.py:315-316 | hits are what the routed file holds |
| PostingContainers.SaveIsSafeExactly | Attic/mailpile/postinglist.py:138-220 | whether split or not, every way to save a container keeps all lookups if and only if it cannot nest; then all lists also lie where they are looked for |
| PostingRuns.Perform | Attic/mailpile/postinglist.py:222-289 | load, change and save is one step of the store |
| PostingRuns.StepRefinesExactly | Attic/mailpile/postinglist.py:138-289 | one step, however it is split, changes the lookup of its keyword as a map would and no other, if and only if its container cannot nest |
| PostingRuns.RunRefines | Attic/mailpile/postinglist.py:138-289 | after any run of adding and removing with splits in which no saved container could nest, each keyword finds what a plain map holds |
| PostingRuns.SmallRunRefines | Attic/mailpile/postinglist.py:138-289 | in particular after any run in which no list reaches half the limit: then no container can nest |
| PostingLoss.RunMayLose | Attic/mailpile/postinglist.py:138-289 | from the empty store, five appends, each saved at once, after which the first keyword finds nothing although the plain map holds its 6144 ids |
| Journal.GlobalPostingList.Append | Attic/mailpile/postinglist.py:607-619 | appending adds the ids to the hits of one keyword and of no other |
| Journal.GlobalPostingList.GetMaxMsgIdxPos | Attic/mailpile/postinglist.py:621-636 | the result is at least every id ever appended, although keywords have migrated away, and is itself in the journal |
| Journal.GlobalPostingList.UpdateMaxMsgMid | Attic/mailpile/postinglist.py:638-661 | ids are recorded under the tracker key and all other entries stay; it fails only without a loaded journal |
| Journal.GlobalPostingList.Migrate | Attic/mailpile/postinglist.py:684-694 | one entry leaves the journal and its ids are saved in the files; if that container cannot nest, every keyword keeps its hits |
| Journal.GlobalPostingList.AddToFiles | Attic/mailpile/postinglist.py:684-694 | the ids are added to the keyword's container, which is saved |
| Journal.GlobalPostingList.PurgeDeleted | Attic/mailpile/postinglist.py:696-701 | if the purged container cannot nest, every deleted id goes from every keyword of that file but the deleted one, and nothing else does |
| Journal.GlobalPostingList.PurgeContainer | Attic/mailpile/postinglist.py:696-701 | the purged container is saved, if it changed |
| Journal.GlobalPostingList.SelectKeys | Attic/mailpile/postinglist.py:560-571 | the wrapped selection takes keys of the journal, and all of them for a full ratio from any random start |
| Journal.GlobalPostingList.Optimize | Attic/mailpile/postinglist.py:541-593 | a pass is a sequence of migrations and purges of journal keys; as long as none of them saves a container that may nest, only ids in the deleted set go, never from the deleted keyword, and after a finished full pass no key of the old journal finds a deleted id but the tracker and the deleted keyword; lists below half the limit make sure of that; such a pass empties the journal but for the tracker; a lazy one on a small journal does nothing; the maximum is kept |
| Journal.GlobalPostingList.RememberMax | Attic/mailpile/postinglist.py:545-546 | the largest id is under the tracker key before anything migrates |
| Journal.GlobalPostingList.ProcessKeys | Attic/mailpile/postinglist.py:573-588 | the loop does so for any keys and wherever it is stopped |
| Journal.GlobalPostingList.ProcessKey | Attic/mailpile/postinglist.py:574-578 | one key: migrated or not, then purged |
| Journal.PurgeKeepsRest | Attic/mailpile/postinglist.py:128-136 | a purged container differs from its file only by deleted ids, outside the deleted keyword |
| Journal.SafeJobIsDone | Attic/mailpile/postinglist.py:684-701 | a migration or purge whose container cannot nest does exactly what it should, for every keyword and however the container is split: ids are added to one keyword, or deleted ids go from all keywords of one file but the deleted one |
| Journal.PassDone | Attic/mailpile/postinglist.py:541-593 | counted from the journal before the pass, safe jobs keep all hits but deleted ids, and leave no deleted id in the hits of a purged keyword |
| Journal.NothingToPurge | Attic/mailpile/postinglist.py:696-701 | a purge that saves nothing found no deleted id in the lists of its file |
| Journal.SmallIsSafe | Attic/mailpile/postinglist.py:684-701 | with lists below half the limit no migration or purge saves a container that may nest |
| Journal.KeptTwice | Attic/mailpile/postinglist.py:573-588 | what two stretches of a pass keep, both together keep |
| MetadataLog.ReplayGivesIndex | Attic/mailpile/search.py:98-166 | after any run of edits, saves and failed saves, replaying the file gives every line that is not waiting to be written and every saved address |
| MetadataLog.ReplayGivesIndexExactly | Attic/mailpile/search.py:256-358 | between saves, the file gives all unmodified lines if and only if there is a file or those lines are blank |
| MetadataLog.StepKeepsInv | Attic/mailpile/search.py:256-358 | every step of either save path, and every failure, keeps the relation between file and index |
| MetadataLog.RunKeepsInv | Attic/mailpile/search.py:256-358 | so does every run |
| MetadataLog.FileIsMovedByBackUp | Attic/mailpile/util.py:785-797 | the only step that takes the file away is backing up one older than ten seconds; finishing a save always leaves a file |
| MetadataLog.FailedSaveLosesFile | Attic/mailpile/search.py:343-358 | a failure after the backup leaves no file if and only if the index file was older than ten seconds; then unmodified lines replay only if blank |
| MetadataLog.TornIsHarmless | Attic/mailpile/search.py:256-312 | a partly written appended section changes nothing for lines it does not contain |
| MetadataLog.AppendKeepsSavedEmails | Attic/mailpile/search.py:256-312 | an appended section leaves addresses saved before as they were |
| MetadataLog.LoadedLines | Attic/mailpile/search.py:98-166 | loading gives each position the last line written for it, and blanks for gaps |
| MetadataLog.SaveThenLoad | Attic/mailpile/search.py:98-166 | whenever nothing is modified and a file exists, loading it gives the live index |
| MetadataLog.MetadataIndex.SetMsg | Attic/mailpile/search.py:1623-1651 | an edit puts the line at its position, after blanks if that is beyond the end, marks it modified, and leaves all other lines |
| MetadataLog.MetadataIndex.SetEmail | Attic/mailpile/index/base.py:40-47 | an address is appended or replaced |
| MetadataLog.MetadataIndex.SaveChanges | Attic/mailpile/search.py:256-312 | appending or rewriting, it follows the protocol; success leaves nothing modified and every line in the file; an appended section leaves the old file in front and adds a mark, the new addresses and the modified lines; a rewrite has a record for every line and address; sections and lines are counted on, or anew; a failure restores what was, and takes the file away only in a rewrite that was written while the old file was older than ten seconds |
| MetadataLog.MetadataIndex.AppendChanges | Attic/mailpile/search.py:256-312 | the old file stays in front; the section has a mark, the new addresses and the modified lines; a failure restores what was |
| MetadataLog.RewritesMeaning | Attic/mailpile/search.py:256-312 | a save rewrites when the file is missing or, unless quitting, there are more sections than one for 200 items or more lines than a tenth above the items, each with 5000 items to spare |
| MetadataLog.MetadataIndex.Save | Attic/mailpile/search.py:314-358 | a rewrite follows the protocol; it fails exactly when writing or renaming does, and leaves the old file unless it was older than ten seconds and the new one had been written |
| MetadataLog.MetadataIndex.WriteAll | Attic/mailpile/search.py:314-358 | the rewrite, also as the fallback of an increment |
| MetadataLog.MetadataIndex.AllLines | Attic/mailpile/search.py:331-337 | every line is written, blank ones included |
| MetadataLog.MetadataIndex.EmailLines | Attic/mailpile/search.py:331-334 | one record for each address from the first unsaved one |
| MetadataLog.MetadataIndex.Install | Attic/mailpile/search.py:339-358 | writing, backing up and renaming, with the rollback |
| MetadataLog.MetadataIndex.ReadLines | Attic/mailpile/search.py:256-312 | the appended section holds the modified lines |
| MetadataLog.MetadataIndex.Append | Attic/mailpile/search.py:256-312 | the section is appended; a partial write is rolled back in memory |
| MetadataLog.MetadataIndex.Load | Attic/mailpile/search.py:98-166 | reading record by record gives the replayed index and addresses, and counts sections and lines |
| IndexViews.Views.SetMsg | Attic/mailpile/search.py:1623-1651 | storing a record keeps every view in agreement, marks only that position modified, and leaves other records alone |
| IndexViews.Views.UpdateSorting | Attic/mailpile/search.py:1619-1621 | each order again holds its sorter applied to every record |
| IndexViews.Views.UpdateTags | Attic/mailpile/search.py:225-233 | each configured tag again holds exactly the messages carrying it |
| IndexViews.Views.Expand | Attic/mailpile/search.py:1653-1684 | with conversations, ids become all members of their conversations |
| IndexViews.Views.ChangeTag | Attic/mailpile/search.py:1692-1835 | tagging and untagging keep the views and change exactly the targets whose tags change; in a complete and valid index these are the messages given and those that share a root with one, and, for an id beyond the index, the last message with those it lists |
| IndexViews.RetaggedTags | Attic/mailpile/search.py:1692-1835 | a changed record has or lacks the tag, keeps its other configured tags and all else, and loses tags that are not configured |
| IndexViews.RetagTwice | Attic/mailpile/search.py:1692-1835 | tagging and untagging undo each other on configured tags |
| IndexViews.ConversationIsClass | Attic/mailpile/search.py:1653-1684 | on a valid index the conversation of a message is its class |
| IndexViews.TargetsAreReached | Attic/mailpile/search.py:1653-1727 | the targets are the messages given and those that share a root with one; an id beyond the index stands for the last message and those it lists |
| IndexViews.ConversationBeyond | Attic/mailpile/index/msginfo.py:30-31 | a record that is not there has root -1, which stands for the last record |
| IndexViews.ConversationsOnlyExactly | Attic/mailpile/search.py:1703-1715 | a conversation-wide change reaches just the conversations of the given messages if and only if all of these are in the index, or the conversation of the last message is meant anyway |
| IndexViews.IdBeyondReachesLast | Attic/mailpile/search.py:1703-1715 | a valid index of two separate messages in which an id beyond both reaches the second |
| Collapse.CollapseConversations | Attic/mailpile/search.py:2111-2124 | reading and overwriting one list, the loop leaves one result for each thread of the input: its last one if the root is unread, else its first, in the order in which the threads appear |
| Collapse.CollapsedIsRight | Attic/mailpile/search.py:2111-2124 | the same of the specification, said on the threads of the results |
| Collapse.CollapsedNext | Attic/mailpile/search.py:2115-2123 | one more result opens a thread at the end, replaces the kept one of an unread thread, or is dropped |
| Collapse.OrderIsByFirst | Attic/mailpile/search.py:2111-2124 | threads come in order of first appearance |
| Collapse.OrderMembers | Attic/mailpile/search.py:2111-2124 | precisely the threads of the results are kept |
| Collapse.OrderDistinct | Attic/mailpile/search.py:2111-2124 | no thread is kept twice |
| Collapse.Pick | Attic/mailpile/search.py:2117-2122 | the kept result belongs to the thread: none of its results comes after it if the root is unread, none before it otherwise |
| CommandCache.ServedIsUpToDateExactly | Attic/mailpile/command_cache.py:47-147 | in any run with timely refreshes, a served result is up to date with all marks since its command started if and only if none that touches it was made during the command or, afterwards, at the time the result is dated |
| CommandCache.QuietRunIsNeverStale | Attic/mailpile/commands.py:517-596 | if besides no command has its requirements marked between its start and its caching, nor a result at its own time, then nothing stale is ever served |
| CommandCache.ServedExactlyWhenFresh | Attic/mailpile/command_cache.py:47-147 | in any run with timely refreshes a result is served if and only if it is old enough, not flagged, and no requirement of it was marked, since its command started, at a time later than its own |
| CommandCache.SlowCommandIsServed | Attic/mailpile/commands.py:585 | a command is started, its requirements are marked, its result is cached: the next refresh leaves it alone and it is served, for any requirements |
| CommandCache.SlowRefreshIsServed | Attic/mailpile/commands.py:656-658 | the same for a command that a refresh runs again, since it caches its own result |
| CommandCache.LateRefreshServesStale | Attic/mailpile/command_cache.py:91-108 | for every gap above the bound some run serves a stale result |
| CommandCache.SameInstantIsServed | Attic/mailpile/command_cache.py:78-84 | a mark made after the result at the same time by the clock is overlooked, for any requirements |
| CommandCache.RunKeepsInv | Attic/mailpile/command_cache.py:47-147 | every run of the protocol keeps the relation of log, cache, history and commands under way |
| CommandCache.RunStaysQuiet | Attic/mailpile/command_cache.py:47-147 | in a run of quiet events, marks since the start of a command touch its result only after it is dated |
| CommandCache.InvKept | Attic/mailpile/command_cache.py:47-147 | every event keeps it, including a recomputation under way |
| CommandCache.DirtySetMeaning | Attic/mailpile/command_cache.py:78-84 | the set holds the requirements marked after the given time, and the time-out flag |
| CommandCache.SkippedIsFresh | Attic/mailpile/command_cache.py:109-127 | an entry the refresh leaves alone was too recent to judge, or hit by no mark since it was dated and before the refresh began |
| CommandCache.ExamineOneIsTwoEvents | Attic/mailpile/command_cache.py:109-147 | one turn of the refresh loop is its examination followed by its result |
| CommandCache.ServedIsDelivered | Attic/mailpile/command_cache.py:47-147 | after any run, what is served for a fingerprint is what the last caching or successful recomputation delivered for it |
| CommandCache.CachedIsDelivered | Attic/mailpile/command_cache.py:47-147 | so is every cached result |
| CommandCache.ExamineOneIsRight | Attic/mailpile/command_cache.py:109-147 | which entries are due, by the marks after their date, and what a turn makes of them |
| CommandCache.ExamineAllIsRight | Attic/mailpile/command_cache.py:109-147 | in the loop each entry has its own turn, whatever happens to the others |
| CommandCache.DirtyMeans | Attic/mailpile/command_cache.py:78-84 | an entry meets the dirty set exactly if it is flagged or a later mark shares a requirement with it |
| CommandCache.Cache.CacheResult | Attic/mailpile/command_cache.py:47-59 | the entry is stored with its requirements and time |
| CommandCache.Cache.MarkDirty | Attic/mailpile/command_cache.py:86-89 | a mark is logged with its time |
| CommandCache.Cache.CollectDirty | Attic/mailpile/command_cache.py:78-84 | the loop computes the dirty set |
| CommandCache.Cache.GetResult | Attic/mailpile/command_cache.py:61-76 | a result is found exactly when served, and only then its expiry is extended |
| CommandCache.Cache.DropOld | Attic/mailpile/command_cache.py:91-108 | expired entries and old marks are dropped |
| CommandCache.Cache.Refresh | Attic/mailpile/command_cache.py:91-147 | with nobody active, every entry has one turn, latest expiry first, until time runs out; each is left, flagged, or has the result of its own recomputation and the new date |
| CommandCache.Cache.TakeTurns | Attic/mailpile/command_cache.py:109-147 | the loop over entries |
| CommandCache.Cache.Turn | Attic/mailpile/command_cache.py:110-145 | one entry: skipped, flagged for lack of time, left after a failure, or, when it was due and in time, stored with the new result, the new date, its requirements without the time-out flag, and its expiry put off by the extension, to no later than five times that from now and no earlier than before |
| CommandCache.Cache.LatestFirst | Attic/mailpile/command_cache.py:109-111 | all entries, those expiring last first |
| VCardMerge.MergeIsIdempotent | Attic/mailpile/vcard.py:555-675 | for a source the card knows, merging the same lines again reports no change if and only if the card had no fragile twin; then the card stays the same |
| VCardMerge.FirstMergeIsIdempotent | Attic/mailpile/vcard.py:530-675 | for a new source, it reports no change if and only if the card had no fragile twin and no stray line bearing the new number; then the card stays the same |
| VCardMerge.SecondDropsStrays | Attic/mailpile/vcard.py:638-658 | the lines a second merge drops after that are exactly the fragile twins and the strays |
| VCardMerge.FirstIsMergedExactly | Attic/mailpile/vcard.py:544-545 | where no line bears the new number, a new source is merged exactly as a known one |
| VCardMerge.FirstKeepsAll | Attic/mailpile/vcard.py:544-545 | merging a new source removes no line and no PID of others |
| VCardMerge.FirstHasItsLines | Attic/mailpile/vcard.py:660-673 | afterwards the new source has every input line, and beyond those only lines that bore its number before |
| VCardMerge.TwinIsDropped | Attic/mailpile/vcard.py:638-673 | a card with two equal names, of which the second merge removes one |
| VCardMerge.StrayIsDropped | Attic/mailpile/vcard.py:507-551 | a card without twins, of which the second merge removes a name that bears the new number |
| VCardMerge.SecondMergeDrops | Attic/mailpile/vcard.py:638-658 | the lines a second merge drops are exactly the fragile twins |
| VCardMerge.SecondMergeAddsNothing | Attic/mailpile/vcard.py:660-673 | a merge that misses no line adds none |
| VCardMerge.OthersKeepTheirLines | Attic/mailpile/vcard.py:638-673 | a line that another source has, or the source does not have, stays with all PIDs of others |
| VCardMerge.SourceHasItsLines | Attic/mailpile/vcard.py:638-673 | afterwards a known source has every input line, and beyond those only lines of its own that are e-mail or preferred |
| VCardMerge.MergedLineRight | Attic/mailpile/vcard.py:638-658 | what becomes of each line in a merge, by its name, preference, numbers and whether it is given; e-mail addresses and preferred lines never go |
| VCardMerge.ChangesMeaning | Attic/mailpile/vcard.py:646-658 | the lines counted as dropped are those that lost the number or went |
| VCardMerge.BetterLineStays | Attic/mailpile/vcard.py:642-658 | of two given lines equal but for their marks the source keeps the preferred one, then the one of higher rank, then the older one; the other loses the number or goes |
| VCardMerge.PidSumOfOne | Attic/mailpile/vcard.py:715-719 | in the order of lines a source number counts as itself, and 990 as 1 |
| VCardMerge.MatchExists | Attic/mailpile/vcard.py:642-647 | every input key already on the source's lines is matched by one of them |
| VCardMerge.TwinMatches | Attic/mailpile/vcard.py:642-647 | among equal lines newly shared by the source the first in order will match |
| VCardMerge.TagKeepsOrder | Attic/mailpile/vcard.py:698-724 | giving two lines the same PID keeps their order |
| VCard.SimpleVCard.Merge | Attic/mailpile/vcard.py:555-675 | for a known source, lines of others stay; a line of its own that is not given loses its number if others hold it, stays if it is an e-mail address or preferred, and goes otherwise; every given line is there afterwards under its number; the number of changes is that of lines that lost the number and of new lines; for a new source nothing goes; lines that may not be removed stay; the new version is the one after the last, or 1; and the reasons for which alone it may raise |
| VCard.SimpleVCard.DedupLines | Attic/mailpile/vcard.py:617-636 | repeated lines are merged and ranked by their number |
| VCard.DedupKeys | Attic/mailpile/vcard.py:617-636 | no name and value is lost or invented |
| VCard.DedupUnique | Attic/mailpile/vcard.py:617-636 | no name and value is left twice |
| VCard.DedupRanks | Attic/mailpile/vcard.py:617-636 | of each name and value the first line is left, its rank raised by one for each repeat |
| VCard.CountIsNumber | Attic/mailpile/vcard.py:626-636 | repeats are counted as positions of equal name and value |
| VCard.WantedKeys | Attic/mailpile/vcard.py:609 | the names and values merged are those given, but for the four kinds that are never taken |
| VCard.SimpleVCard.LinesInOrder | Attic/mailpile/vcard.py:507-517 | the lines of a source in sorting order |
| VCard.SimpleVCard.FindEqual | Attic/mailpile/vcard.py:643-645 | the first input line of the same name and value |
| VCard.SimpleVCard.Sweep | Attic/mailpile/vcard.py:638-658 | the first pass: matched input lines are taken, other lines of the source lose its PID or go |
| VCard.SimpleVCard.SweepOne | Attic/mailpile/vcard.py:642-658 | one line of the first pass |
| VCard.SimpleVCard.CopyLeft | Attic/mailpile/vcard.py:660-673 | the second pass: remaining input tags equal lines or is added |
| VCard.SimpleVCard.CopyOne | Attic/mailpile/vcard.py:662-673 | one line of the second pass |
| VCard.SimpleVCard.TagEquals | Attic/mailpile/vcard.py:663-669 | all equal lines get the source's PID |
| VCard.SimpleVCard.Add | Attic/mailpile/vcard.py:413-449 | a line is added exactly when its cardinality allows |
| VCard.Cardinalities | Attic/mailpile/vcard.py:281-333 | which kinds of lines a card may have once, any number of times, or not at all (section 6 of RFC 6350) |
| VCard.SimpleVCard.GetPidMap | Attic/mailpile/vcard.py:519-553 | a known source keeps its number and has its lines in order and their last version; a new one gets the least free number, no lines and version 0, failing only when no number is left |
| VCard.SimpleVCard.LastVersion | Attic/mailpile/vcard.py:549-551 | the greatest version on the source's lines, or 0 |
| VCard.MergeDone | Attic/mailpile/vcard.py:638-675 | the two passes together are a merge |
| VCard.FirstDone | Attic/mailpile/vcard.py:660-675 | copying all input lines is the merge of a new source |
| VCard.NextIsRight | Attic/mailpile/vcard.py:638-675 | every merge for a known source leaves the card as the rules for single lines say |
| VCard.FirstIsRight | Attic/mailpile/vcard.py:660-675 | a merge for a new source gives each given line its number, on equal lines or on a new one, and changes no other |
| VCardCodec.CodecRoundTrip | Attic/mailpile/vcard.py:143-225 | an unfolded line reads back as written if and only if it is clean, for every value text |
| VCardCodec.WrittenLinesFit | Attic/mailpile/vcard.py:149-163 | no written line has more than 75 octets, as section 3.2 of RFC 6350 asks, and no character is split |
| VCardCodec.ShortIsNotFolded | Attic/mailpile/vcard.py:152-161 | a text is folded only if it reaches 75 octets |
| VCardCodec.OctetsOfChar | Attic/mailpile/vcard.py:155-156 | characters count one to four octets, as in UTF-8 |
| VCardCodec.FoldedLinesFit | Attic/mailpile/vcard.py:149-163 | the same for any text and any position in the line |
| VCardCodec.UnwrapFolded | Attic/mailpile/vcard.py:892-894 | unfolding undoes folding |
| VCardCodec.RunQuote | Attic/mailpile/vcard.py:165-225 | reading quoted text adds the text itself |
| VCardCodec.WrittenForms | Attic/mailpile/vcard.py:165-173 | backslash, comma and semicolon are written with a backslash before them, line breaks as a backslash with n or r, and all other characters as they are, wherever they stand |
| VCardCodec.ReadForms | Attic/mailpile/vcard.py:192-195 | a backslash and one of five characters are read as one character, any other pair as it stands |
| VCardCodec.SplitIsExact | Attic/mailpile/vcard.py:206-213 | an attribute survives exactly when its name is lower case without `=` |
| VCardCodec.NameRoundTrip | Attic/mailpile/vcard.py:202-205 | a name survives exactly when it is lower case without `:` |
| VCardCodec.CaseRoundTrip | Attic/mailpile/vcard.py:143-163 | upper and lower case undo each other exactly on lower-case text |
| VCardCodec.AsVCardLine | Attic/mailpile/vcard.py:143-163 | the loop folds the quoted line |
| VCardCodec.ParseLine | Attic/mailpile/vcard.py:175-225 | the loop is the character automaton |
| Reflow.ReflowIsStable | Attic/mailpile/util.py:608-647 | reflowing lines again changes nothing, whichever lines count as prose |
| Reflow.TextIsStable | Attic/mailpile/util.py:592-647 | reflowing text again changes nothing if and only if it has one line at most or does not end in an empty one |
| Reflow.EmptyLastLineIsUnstable | Attic/mailpile/util.py:608-647 | a text of a letter and an empty line is unstable at every width |
| Reflow.ReflowKeepsWords | Attic/mailpile/util.py:619-647 | the words stay, in order |
| Reflow.ReflowedWidth | Attic/mailpile/util.py:619-645 | a line of a refilled paragraph fits the width or is a single word; every other line starts no paragraph and is an input line |
| Reflow.ParagraphIsRefilled | Attic/mailpile/util.py:619-645 | lines before a paragraph are kept; it starts with a line of prose longer than the width less 10, goes on over lines of prose, none ending in two spaces, and is refilled |
| Reflow.ProseMeaning | Attic/mailpile/util.py:589 | lines that start with a blank, or with marks and a blank, are not prose; those that start with a word are, also after marks |
| Reflow.FillIsGreedy | Attic/mailpile/util.py:632-640 | each line fits and could not take the next word |
| Reflow.GreedyIsFill | Attic/mailpile/util.py:632-640 | only the greedy lines have that property |
| Reflow.ReflowText | Attic/mailpile/util.py:592-647 | the loops compute the reflowed text |
| Reflow.FillLines | Attic/mailpile/util.py:632-641 | the inner loop fills the lines |
| Reflow.WordsOfJoin | Attic/mailpile/util.py:626-641 | splitting joined words gives the words |
| Reflow.SplitOfJoin | Attic/mailpile/util.py:615-647 | splitting joined lines gives the lines, but for a last empty one |
| Secrets.PersistentRunIsMap | moggie/config/__init__.py:420-463 | after any run of persistent sets without full collisions, each key gives the last secret set |
| Secrets.SetKeepsOrder | moggie/config/__init__.py:420-463 | such a set keeps prefixes closed downward and met in increasing length, and changes its own key alone |
| Secrets.SetIsUpdateExactly | moggie/config/__init__.py:420-438 | a persistent set is a map update if and only if its slot is free of others and no volatile secret shadows it |
| Secrets.RemoveIsUpdateExactly | moggie/config/__init__.py:420-428 | the same for a removal |
| Secrets.SetVolatileIsUpdateExactly | moggie/config/__init__.py:420-434 | a volatile set is a map update if and only if its slot holds no other key |
| Secrets.VolatileLasts | moggie/config/__init__.py:420-456 | a volatile secret is found until its time is up, and none after that |
| Secrets.PurgeMeaning | moggie/config/__init__.py:443-463 | a lookup lets no unexpired secret go, and lets every expired one go unless it has found an unexpired one |
| Secrets.FirstSlot | moggie/config/__init__.py:458-463 | the first secret is filed under four characters of its hash |
| Secrets.SetKeepsWellFormed | moggie/config/__init__.py:420-438 | any set keeps prefixes distinct, filed under their hash, one per key |
| Secrets.WaitKeepsWellFormed | moggie/config/__init__.py:443-456 | so does the passing of time |
| Secrets.GetMeaning | moggie/config/__init__.py:440-463 | an unexpired volatile secret wins over the persistent one; without either there is none |
| Secrets.SlotMeaning | moggie/config/__init__.py:440-463 | a key that has a secret is given the prefix it is stored under |
| Secrets.ScanOfChain | moggie/config/__init__.py:458-463 | in order, the scan ends just past the longest prefix in use |
| Secrets.SlotOfChain | moggie/config/__init__.py:458-463 | a known key gets its own slot, a new one an unused prefix whose shorter one is in use |
| Secrets.OtherIsLost | moggie/config/__init__.py:420-438 | a taken slot costs the other key its secret |
| Secrets.RemovingBreaksOrder | moggie/config/__init__.py:420-438 | one removal between sets leaves a longer prefix ahead of a shorter one |
| Secrets.RemovingLosesAnother | moggie/config/__init__.py:420-463 | and setting a fourth key then overwrites the second |
| Secrets.ContextSecrets.GetSecret | moggie/config/__init__.py:440-463 | the lookup, its slot and its purging of expired secrets |
| Secrets.ContextSecrets.GetVolatile | moggie/config/__init__.py:443-463 | the volatile part; expired secrets go only when the scan passes beyond it |
| Secrets.ContextSecrets.GetPersistent | moggie/config/__init__.py:455-463 | the persistent part |
| Secrets.ContextSecrets.SetSecret | moggie/config/__init__.py:420-438 | the store after a set, a volatile set or a removal |
| PathPolicies.PassIsInherited | moggie/config/__init__.py:609-635 | one pass over the sorted list gives what the recursive walk down the ancestors gives |
| PathPolicies.PassOfDirectory | moggie/config/__init__.py:609-635 | a path inherits from its directory's own entry over what the directory inherits |
| PathPolicies.PassStopsAtOwn | moggie/config/__init__.py:614-635 | dropping a path once its own entry is met changes nothing |
| PathPolicies.InheritedTags | moggie/config/__init__.py:592-600 | the inherited tags are all those of ancestors since the last block |
| PathPolicies.TagsAddUp | moggie/config/__init__.py:592-600 | one entry's tags join the inherited set, after `-` alone |
| PathPolicies.RootIsNotInherited | moggie/config/__init__.py:622 | the entry for `/` is above a path only if it begins with `//` |
| PathPolicies.SortAfterAppend | moggie/config/__init__.py:557-571 | appending a new path and sorting keeps paths unique and sorted |
| PathPolicies.ReplaceMeans | moggie/config/__init__.py:542-555 | replacing or removing one path keeps order and all other entries |
| PathPolicies.SplitOfJoin | moggie/config/__init__.py:592-600 | splitting joined tags gives the tags |
| PathPolicies.PathConfig.SetPath | moggie/config/__init__.py:498-571 | an entry with a colon in a field is rejected; else it is stored under its path without trailing slashes, filled in field by field from the prior one but for its time of update, or removed; all others stay and the list stays sorted |
| PathPolicies.PathConfig.Find | moggie/config/__init__.py:533-542 | the entry of a path, if there is one |
| PathPolicies.PathConfig.GetPathPolicies | moggie/config/__init__.py:576-659 | account, watch and copy policy are those of the nearest entry at or above the path that has them, with `-` for none; label and time of update are the path's own; tags are those of all entries at or above the path since the last block; without inheritance, or without requested paths, everything is the entry's own |
| PathPolicies.PolicyIsRight | moggie/config/__init__.py:609-647 | the recursive definition gives each path these fields |
| PathPolicies.NearestIsRight | moggie/config/__init__.py:626-647 | a field over what is above is that of the nearest entry that has it |
| PathPolicies.TagsAtMeaning | moggie/config/__init__.py:592-600 | a path has a tag exactly if an entry at or above it gives the tag and no nearer one blocks |
| PathPolicies.OwnPolicyIsRight | moggie/config/__init__.py:636-647 | without inheritance every field is that of the own entry |
| PathPolicies.CombinedIsSorted | moggie/config/__init__.py:592-600 | combined tags are in rising order |
| PathPolicies.FilledIsRight | moggie/config/__init__.py:534-555 | what is stored for a path: given fields count, then those of the prior entry |
| PathPolicies.NormalIsSame | moggie/config/__init__.py:498-520 | a path is stored without trailing slashes, the root as one slash |
| PathPolicies.PathConfig.Gather | moggie/config/__init__.py:606-635 | the pass over the list for a set of paths |
| PathPolicies.PathConfig.InheritAll | moggie/config/__init__.py:615-631 | one entry is passed on to the paths below it that are still open |
| PathPolicies.PathConfig.AllPolicies | moggie/config/__init__.py:589-590 | without requested paths |
| Cron.CronSpec | moggie/app/cron.py:85-129 | a field expands to exactly its numbers, rising; it fails exactly for a zero step |
| Cron.PartNumbers | moggie/app/cron.py:113-127 | one part: a step from a start with wrapping, or one number |
| Cron.StepMeaning | moggie/app/cron.py:113-121 | a step allows every step-th number from its start to the end, and so on below the start where the count wraps |
| Cron.SpecMeaning | moggie/app/cron.py:109-129 | an empty field or a star allows everything, a number itself, and a list what its parts do |
| Cron.CalculateNext | moggie/app/cron.py:131-189 | the search computes the next time |
| Cron.NextTimeMeaning | moggie/app/cron.py:164-189 | the next time is a later whole minute whose five fields are all allowed, and in each minute between one is not; none means the same of all minutes of 366 days |
| Cron.FirstMatchMeaning | moggie/app/cron.py:180-187 | the loop finds the first matching minute |
| Cron.NameAllowsDayAfter | moggie/app/cron.py:48-55 | a weekday name allows the day after the one it names and no other, and no next time falls on the named day |
| Cron.NumberAllowsDay | moggie/app/cron.py:170-186 | a weekday number allows exactly the day that the calendar counts by it from Monday |
| Cron.MondayJobIsDueOnTuesday | moggie/app/cron.py:131-189 | counted from the first of January 1970, a job for `mon` is first due on Tuesday the sixth |
| Cron.ExactlyOnce | moggie/app/cron.py:285-334 | over any calls, a `no-skip` job is yielded at its consecutive matching minutes without gap or repeat, even when reruns run out |
| Cron.NoSkipCall | moggie/app/cron.py:285-334 | the same for one call, also when the caller stops or the search fails |
| Cron.EndedTurnRepeats | moggie/app/cron.py:312-334 | after a call that ends in a job's turn, the next call that comes to the job begins with the same time again |
| Cron.SkipCall | moggie/app/cron.py:304-332 | any other due job is yielded once and moves to its first match after now |
| Cron.NoSkipTurn | moggie/app/cron.py:310-329 | one turn of a `no-skip` job ends after now or with no reruns left |
| Cron.SkipTurn | moggie/app/cron.py:307-329 | one turn of another job |
| Cron.CatchUpLeads | moggie/app/cron.py:318-324 | the catch-up loop yields consecutive times and stops at the next |
| Cron.JobInCall | moggie/app/cron.py:304-334 | each due job has one turn, with what the others left of the shared reruns |
| Cron.CallIsRight | moggie/app/cron.py:285-334 | only due jobs are run and change; when a call gets through, all of them are run and those without times are gone |
| Cron.LateMeansUsedUp | moggie/app/cron.py:299-324 | a job that stays behind means that the reruns are used up |
| Cron.CallSize | moggie/app/cron.py:299-334 | a call yields no more than one run for each job and the reruns |
| Cron.TurnIsNotEmpty | moggie/app/cron.py:307-312 | a turn begins with the scheduled time or with now |
| Cron.Scheduler.YieldDueAndReschedule | moggie/app/cron.py:285-334 | the generator yields, reschedules and deletes like the recursive definition, for a caller that stops anywhere; it comes to exactly the jobs of the context whose next run is not later than now, yields at most 50 times more than there are of them, and, when it gets through, has run each of them and deleted just those without times; a job put off to a time already past means that all 50 reruns were used |
| Cron.Scheduler.DueIds | moggie/app/cron.py:288-304 | the jobs of the context whose next run is not later than now, each once |
| Cron.Scheduler.RunJob | moggie/app/cron.py:305-334 | one job's turn |
| Cron.Scheduler.RerunJob | moggie/app/cron.py:318-324 | its catch-up loop |
| MboxScan.Scan | Attic/scripts/mbox-minimal.py:25-48 | for any division into chunks the offsets found are those of a whole-file search |
| MboxScan.MessagesMeaning | Attic/scripts/mbox-minimal.py:25-48 | these are exactly the lines that start with `From `, the first line included, each once, rising |
| MboxScan.ReadChunk | Attic/scripts/mbox-minimal.py:30-47 | one chunk finds the delimiters that end in it; position and buffer always add up to the octets read |
| MboxScan.NoteMessages | Attic/scripts/mbox-minimal.py:36-43 | the inner loop notes where each piece starts |
| MboxScan.SplitFindsDelims | Attic/scripts/mbox-minimal.py:37 | splitting cuts at every delimiter, and the last piece holds none |
| MboxScan.ChunkFindsDelims | Attic/scripts/mbox-minimal.py:31-43 | old offsets and those in the window are all offsets so far |
| MboxScan.ChunkIsSettled | Attic/scripts/mbox-minimal.py:45-46 | no delimiter can still begin before the kept tail |
| MboxScan.LateDelim | Attic/scripts/mbox-minimal.py:45-46 | a delimiter completed by later input begins in the last piece |
| MboxScan.MessageIsDelim | Attic/scripts/mbox-minimal.py:42 | a line start is a delimiter one octet earlier, the file starting after a line break |
| MboxScan.NoOverlap | Attic/scripts/mbox-minimal.py:25 | delimiters do not overlap |
| PgpPackets.WalkOfWholeMessage | moggie/crypto/gpgi.py:1171-1221 | on any message of well-formed packets the walk stops at exactly the packet and chunk boundaries (RFC 4880 section 4.2) and finds exactly the kinds that the tags of its unchunked packets say (section 4.3) |
| PgpPackets.KindsAreSaid | moggie/crypto/gpgi.py:1178-1209 | packets with tag 11 are unencrypted, with 1, 9 or 18 encrypted, with 2 or 4 signatures, with 6 or 14 keys; those in chunks say nothing |
| PgpPackets.WalkOfMessage | moggie/crypto/gpgi.py:1171-1221 | the same from any point of the message |
| PgpPackets.ParseHeaderOctets | moggie/crypto/gpgi.py:1018-1086 | the header of every form reads back its tag, its length and whether more chunks follow |
| PgpPackets.ReadLength | moggie/crypto/gpgi.py:1038-1049 | one-, two- and five-octet lengths read back (RFC 4880 section 4.2.2) |
| PgpPackets.ReadOldLength | moggie/crypto/gpgi.py:1062-1071 | old lengths read back (RFC 4880 section 4.2.1) |
| PgpPackets.NumberOfOctets | moggie/crypto/gpgi.py:1045-1071 | octets written big-endian give the number, modulo the width |
| PgpPackets.StepAdvances | moggie/crypto/gpgi.py:1018-1086 | a step that does not advance is an illegal header, which clears the partial flag |
| PgpPackets.WalkStep | moggie/crypto/gpgi.py:1172-1216 | one round: give up, stop after an unknown length, or go on after the packet |
| PgpPackets.ParseHeader | moggie/crypto/gpgi.py:1018-1086 | the assignments compute the parsed header |
| PgpPackets.Sniff | moggie/crypto/gpgi.py:1171-1221 | the loop ends on every input and is the walk |
| PgpPackets.NoteLabels | moggie/crypto/gpgi.py:1178-1209 | the kinds added for one packet, and when to give up |

## Left out

Deliberately narrower statements:

- PostingRuns.RunRefines: stops at the first container that may nest; what later steps make of a store that has lost a list is not described.
- Journal.GlobalPostingList.Optimize: says nothing about hits after a container that may nest was saved; keys are taken in any order, not sorted, and `plc_keys`, which always returns an empty list, is left out.
- MailIndexThreads.MailIndex.SetConversationIds: subject threading (Attic/mailpile/search.py:966-999) is not modelled, nor is the `/-` marker, which nothing in the repository writes.
- VCard.SimpleVCard.Merge: for an outcome that raises it states the possible reasons, not the half-merged card that is left behind; two sources with one number are left out, and so is that input lines are objects which the card keeps and changes, so that merging the same objects again raises their rank further.
- VCard.SimpleVCard.FindEqual: compares name and value; `lines.remove` compares the dictionaries, which differ whenever those do, except for two lines that each have the other's name and value as an attribute.
- VCard.SimpleVCard.Add: CLIENTPIDMAP lines are the map of sources, so the case that skips or refuses a second one is left out, and so is the PID of a card's default client; the number 990 always counts as 1 in the order of lines, as it does on a card that has a default client.
- VCardMerge.MergeIsIdempotent: lines are compared by name and value; a PID list names each source once (the merge takes off and adds again a line that names it twice), and its text order is not modelled; new lines get unique numbers, without the order in which they get them.
- VCardCodec.CodecRoundTrip: letter case is changed for ASCII letters only; `load` also strips and splits lines before parsing, which is not part of this model.
- MetadataLog.FailedSaveLosesFile: the age of the file is that of the file system, a parameter of the backup; the renames between older backups always succeed.
- CommandCache.ServedExactlyWhenFresh: exempts marks that are no later than the time of the result, since the comparison of times is strict and the result is dated when it is cached; `CommandCache.ServedIsUpToDateExactly` says when that matters.
- IndexViews.Views.ChangeTag: the clearing of message ids when a tag asks for it is left out.
- Cron.ExactlyOnce: times are whole minutes of a monotone clock with abstract calendar fields, without time zones or daylight saving.
- PathPolicies.PathConfig.GetPathPolicies: requested paths form a set; entries hold no list delimiter and all are well formed.
- Secrets.PersistentRunIsMap: the hash is an arbitrary function to 40 digits that never collides in full.
- PgpPackets.WalkOfWholeMessage: the packet of unknown length, which ends the walk, comes only last.
- PgpPackets.Sniff: octets are those of byte strings in Python 2; on those of Python 3 the code raises before it walks.
- Reflow.TextIsStable: letters of a prose line are those of ASCII, as for byte strings in Python 2, while blanks and line breaks are those of Unicode.

Not modelled:

- Files, encryption, compression, locks, threads and the clock: files are sequences of records or maps, encryption is the identity, and times and outcomes of calls are parameters.
- Encodings of conversations as text (`root/parent`, comma-separated replies): a datatype and a sequence; blank gaps in the index do not occur during threading.
- Message fields other than those named in the records here, and the e-mail address table beyond its order.
- `PLC_CACHE` and its flush: each change of a container is loaded and saved as one step; files that cannot be opened during a split are left out, as is the journal's own file.
- Sessions, the event log, and exceptions of the command cache other than the one it handles; several refreshes never overlap.
- The default client and line types of vCards beyond cardinality, and `get`, `set_line`, `remove_all`.
- The limit on bogus lines in `load`, old index formats, and positions with negative numbers.
- Changing which tags are configured, and the pointer and message-id tables, beside the derived views.
- Splitting the text of cron fields into parts, reading their numbers, and the names of months.
- Reading the due jobs lazily while their rows change: the due ids are taken at the start of a call.
- Actions of jobs, and the caller's handling of what is yielded.
- Message-ids in the mailbox scan; only offsets are modelled.
- The armoured and base 64 branches of `sniff`.
- Sessions, HTTP, SMTP, URL mapping, worker threads and command plumbing of either program.
