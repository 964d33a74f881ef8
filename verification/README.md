# Verification of the Vara core

This project models the parts of Vara, a version-control system written in Go, on which the safety of its
users' work depends, and proves that model correct:

- **Diff.** Both Myers engines, the change blocks extracted from their edits, the longest-common-subsequence blocks
  of the three-way merge, and the unified diff printed for a reader.
- **Merge.** The line merge with its region rule, hoisting and conflict styles; the reader that turns a marked file
  back into hunks; automatic resolution; and the structural merge of JSON and YAML trees.
- **Transfer.** Which objects a push or fetch sends, the pack format, the compare-and-swap of refs, and whole runs of
  any number of clients and servers whose pushes and fetches interleave step by step.
- **History.** The commit walk, the merge base, generations, the cycle check, the graph index with its binary format,
  and the two ways of listing history.
- **Trees and objects.** The file trie built from the index, the trees written from it and read back, and the object
  encoding.
- **Undo.** The log of moves, the undo that reads it, and garbage collection beside it.

Everything is stated over all inputs or all runs. Code that updates state step by step is a class or a method with
loops, proved against a specification function; the laws are lemmas about those functions. The main specifications:

- `Shortest(edits, src, dst)`: the edits spell `src` on one side and `dst` on the other, keep only equal lines, and no
  other such list costs less.
- `MergeChunks(base, ours, theirs)`: the plain and conflicted chunks of a merge. `WriteChunks` writes them with markers.
- `Ancestor`, `Reach`: reachability by paths, over parents only or over every reference between objects.
- `Complete(store, id)`: the whole closure of `id` is in the store.
- `ToSend(store, wants, haves, x)`: `x` is a commit behind the wants and not behind the haves, or lies below the tree of
  one and below the tree of no have.
- `Covers(store, wants, haves, ids, known)`: `ids` is closed under references up to `known`, holds the wants or leaves
  them to `known`, and `known` lies below the haves.
- `Replay(log)`: the stack of moves not undone, replayed from the oldest entry on.

Hashing and compression are parameters. Where a proof needs it, a hash is injective and every object has a rank above
the objects it names, which is what naming objects by their content gives.

## Model

| member | source | states |
|---|---|---|
| Frontier.ScriptIsShortest | pkg/diff/myers.go:92-154 | The script read back from the furthest-reaching frontiers transforms any `src` into any `dst`, keeps only equal lines, and no script does so with fewer insertions and deletions; its cost is the edit distance. |
| Myers.BuildEdits | pkg/diff/myers.go:92-154 | Backtracking through the saved arrays follows the specification's walk from the far corner to the origin, for every set of snapshots that hold the frontiers. |
| Myers.MyersDiff | pkg/diff/myers.go:21-88 | For every two line lists the engine ends with one definite script, and that script is a shortest one. |
| MyersLines.WindowSuffices | internal/hub/diff.go:374-398 | Saving only the window of the array around a round loses nothing that the backtrack of that round reads. |
| MyersLines.MyersLines | internal/hub/diff.go:400-466 | The capped engine answers if and only if a side is empty or the edit distance and the windows up to it fit the two caps; then its answer is the script of the unbounded engine, whose operations tell the old text and the new one with the fewest changes. |
| MyersLines.BuildLineOps | internal/hub/diff.go:470-512 | Reading the windows back gives the operations of the same script, in order. |
| Blocks.ExtractApplies | pkg/diff/threeway.go:13-45 | Replacing the extracted blocks in the source gives the destination; the blocks are ordered, apart from each other, and cost what the edits cost. |
| Blocks.ExtractChangeBlocks | pkg/diff/threeway.go:13-45 | The loop over the edits finds the blocks of the specification, each maximal run of changes as one block. |
| ChangeBlocks.BlocksApply | internal/conflict/threeway.go:67-128 | The blocks of a longest common subsequence turn one list into the other and cost as little as any shortest Myers script, and together with twice the common length they account for every line. |
| ChangeBlocks.ChangeBlocks | internal/conflict/threeway.go:67-128 | The table and the two-pointer walk over it find exactly those blocks. |
| Regions.GrowIsLeast | internal/conflict/render.go:96-139 | A region ends no later than any line at which the base can be cut without splitting a block of either side. |
| Regions.GrowEndIsSafe | internal/conflict/threeway.go:13-19 | The end of a region is itself such a cut for both sides, so a region is the smallest stretch no block straddles. |
| ThreeWay.GrowRegion | internal/conflict/render.go:96-139 | The fixpoint loop grows exactly the region of the specification. |
| ThreeWay.FlattenRegion | internal/conflict/threeway.go:47-61 | One side's text of a region is its replacements with the base lines between them. |
| Render.EmitConflict | internal/conflict/render.go:149-201 | A conflict is written as the common head, the markers around what differs, and the common tail, with the base section trimmed by what was hoisted and shown in the styles that show it. |
| Render.LayoutMeans | internal/conflict/render.go:149-229 | Only the zdiff3 style moves lines out of the markers: all that the sides share at their ends and no other, so that both sides can still be read in full; and out of the base exactly what it shares with those lines at its ends. |
| Render.SectionsMean | internal/conflict/render.go:149-201 | Writing a conflict loses no text and adds only newlines where a section does not end in one. |
| ThreeWay.RenderMerge | internal/conflict/render.go:48-144 | The merge with its empty-base case, region loop and counters writes the chunks of the specification and their statistics, for every three texts and every style. |
| MergeLaws.PiecesAlign | internal/conflict/render.go:62-144 | The pieces of a merge tile the base from end to end; read by one side they spell that side in full, for both sides: no line is lost, repeated or moved. |
| MergeMeaning.PiecesAreLeast | internal/conflict/render.go:62-144 | The regions share out all change blocks of both sides in order; each starts where a block does and cannot end earlier without splitting one of its blocks. |
| MergeMeaning.ChunksTell | internal/conflict/render.go:62-144 | There is one chunk for each piece: a side that changed the piece finds its own version in the chunk, an untouched piece stands as it was, and the chunk is a conflict, over the base lines of the piece, if and only if both sides changed it to different lines. |
| MergeMeaning.StatsTell | internal/conflict/render.go:62-144 | The total counts the pieces both sides changed, and nothing remains if and only if the two versions agree on each of them. |
| MergeMeaning.NoBaseTells | internal/conflict/render.go:53-60 | Over an empty base each side finds itself whole in the one chunk, which is a conflict if and only if the sides differ. |
| MergeLaws.SideIndependence | internal/conflict/render.go:48-144 | Exchanging ours and theirs gives the same plain lines and statistics, and every conflict with its sides exchanged. |
| MergeLaws.ExchangedText | internal/conflict/render.go:149-201 | In the written text, with labels and sides exchanged, everything stays but the two marked versions of each conflict, which trade places, in every style. |
| MergeLaws.UnchangedOursGivesTheirs | internal/conflict/render.go:62-144 | Over a base that is not empty, a side left untouched gives way: the result is their text byte for byte, without a conflict, in every style. |
| MergeLaws.UnchangedTheirsGivesOurs | internal/conflict/render.go:62-144 | The same for our text when their side is untouched. |
| MergeLaws.UnchangedOursExactly | internal/conflict/render.go:53-60 | An untouched side merges without a conflict if and only if the base is not empty or the other side is empty too. |
| MergeLaws.EqualSidesGiveThatSide | internal/conflict/render.go:48-144 | Two equal sides merge to that side byte for byte, over any base and in every style. |
| MergeLaws.StatsAddUp | internal/conflict/render.go:48-144 | The remaining count is the number of conflicts written, and every contested region is counted as resolved or remaining. |
| DisjointEdits.DisjointEditsMerge | internal/conflict/threeway.go:13-19 | Edits that neither overlap nor start at the same line, abutting ones included, merge without a marker and without a contested region, and the text is the base with the blocks of both sides applied. |
| Hunks.Parse | internal/conflict/hunks.go:56-107 | The reader's nested loops find the segments, or the malformed line, of the specification. |
| HunkGrammar.ParsesExactly | internal/conflict/hunks.go:56-107 | The reader gives certain segments if and only if they spell the file and are well formed: text without begin markers in one piece, and hunks with begin marker, our lines, perhaps one base section, separator, their lines and end marker, each section free of the markers that would end it. |
| HunkGrammar.FailsWhere | internal/conflict/hunks.go:56-107 | Where a file cannot be read, the line the error names is of the kind it says: a nested begin marker, a second base marker, an end marker too early, or the begin marker of a hunk that never ends. |
| Hunks.CountHunks | internal/conflict/hunks.go:110-118 | The number of conflicts among the segments. |
| Hunks.Assemble | internal/conflict/hunks.go:124-154 | Each hunk with a decision is replaced by its lines and each other hunk is kept as it stood and counted. |
| Hunks.SettledInOrder | internal/conflict/hunks.go:124-154 | Segment by segment in order: each hunk gets the decision numbered by the hunks before it, and is counted as remaining if and only if that decision is missing or skips it. |
| Hunks.SettleMeans | internal/conflict/hunks.go:124-164 | The text each decision gives, of both sides ours first or theirs first as chosen, with a newline between them only where two lines would fuse. |
| RoundTrip.UndecidedIsUnchanged | internal/conflict/hunks.go:124-154 | Any text that parses comes back byte for byte when nothing is decided, and every hunk is counted as remaining. |
| RoundTrip.MergeParses | internal/conflict/hunks.go:56-107 | The output of a merge parses; it has as many hunks as the merge left conflicts, each with the versions and the base that its conflict shows; undecided it is unchanged; taking our side in each gives our reading of the merge, taking theirs gives theirs, with none skipped. |
| Resolution.Count | internal/conflict/conflict.go:91-99 | The number of begin markers among the lines. |
| Resolution.Resolve | internal/conflict/conflict.go:104-155 | The scan with its single-line buffer agrees with the recursive reading of the file, for each strategy and each malformed file. |
| Resolution.ResolvesExactly | internal/conflict/conflict.go:104-155 | A file can be resolved if and only if it is made of bare lines and hunks with their three markers in order; then each part is resolved by itself, with its own counts. |
| Resolution.HunkMeans | internal/conflict/conflict.go:160-182 | Ours and theirs give that side, union gives ours and then theirs; the automatic strategy settles a hunk if and only if one side is empty or both are the same, gives a side that both sides begin, and otherwise leaves the hunk as it was. |
| Resolution.TotalIsCount | internal/conflict/conflict.go:104-155 | A resolution that succeeds met every begin marker, settled or kept each hunk, and keeps none unless the strategy is the automatic one. |
| Resolution.ResolvesWhatWasMerged | internal/conflict/conflict.go:104-155 | Of a merge, each strategy meets every conflict; it does with them what it should do with their two sides if and only if the style shows no base, the strategy is theirs, there is no conflict, or the strategy is the automatic one and every conflict has two different sides that are not empty. For ours and theirs that result is the reading of that side, every hunk settled. |
| Unified.HunksApply | internal/conflict/unified.go:16-110 | A reader that checks every header and every context and deleted line accepts the hunks of any spaced groups of blocks, and gets what the blocks give. |
| Unified.ContextIsExact | internal/conflict/unified.go:16-110 | A line is shown if and only if it is changed or within three lines of a change. |
| UnifiedFormat.FormatUnified | internal/conflict/unified.go:16-110 | There is no diff if and only if the two texts are equal; otherwise patching the first text with the hunks gives exactly the second, the lines shown are exactly those near a change, no script marks fewer lines as changed, and the removed lines of a change stand before the added ones. |
| StructuralMerge.MergeAgrees | internal/smartmerge/smartmerge.go:192-209 | At every key path clear of marks, at any depth, the merged tree holds the value of the side that changed it, or the common value of both. |
| StructuralMerge.MarkedExactly | internal/smartmerge/smartmerge.go:192-263 | A key path meets a mark if and only if the sides diverge at it or before it: all three values differ, a dropped key among them, the sides are not both objects, and where the base has nothing neither side has null. |
| StructuralMerge.FirstMark | internal/smartmerge/smartmerge.go:192-263 | Where the sides diverge first on a path, the mark holds the base value and both sides, absent where a side dropped the key. |
| StructuralMerge.MergeSwap | internal/smartmerge/smartmerge.go:192-209 | Exchanging the sides gives the same tree with the sides of every mark exchanged. |
| StructuralMerge.MergeCounted | internal/smartmerge/smartmerge.go:211-232 | The mutually recursive merge computes the specified tree, and for sides without marks its count is the number of marks in the result. |
| StructuralMerge.AddedKeyClashes | internal/smartmerge/smartmerge.go:234-256 | A key added by both sides is marked if and only if the values differ, neither is null and they are not both objects. |
| Transfer.WalkCommits | pkg/transfer/enumerate.go:98-129 | The commits found are new, reachable and outside the boundary, and their parents are found or on the boundary; a failure names a reachable object that is no commit. |
| Transfer.AddTreeClosureExcluding | pkg/transfer/enumerate.go:140-165 | What is added is reachable from the tree and outside the excluded set, and is closed under references up to it; it fails only where a reachable object is missing. |
| Transfer.KnownToReceiver | pkg/transfer/enumerate.go:32-93 | Everything taken to be at the receiver lies below the haves; where no have is here only in part, the boundary is exactly the commits behind the haves, and the objects exactly what lies below the trees of the haves themselves. |
| Transfer.CommitsToSend | pkg/transfer/enumerate.go:32-93 | Each want is sent or on the boundary, and the commits sent are closed under parents up to the boundary. |
| Transfer.Enumerate | pkg/transfer/enumerate.go:32-93 | The objects listed cover the wants: whatever a listed object names is listed or lies below the haves. Where no have is here only in part they are exactly the commits behind the wants and not behind the haves, and what lies below the trees of these and not below the tree of a have. It fails only when the sender's own history is broken. |
| WantsMinusHaves.DifferenceExactly | pkg/transfer/enumerate.go:29-93 | For complete wants, the listing is never less than what the wants reach and the haves do not; it is exactly that if and only if nothing below a tree to be sent was in the receiver's history without being in one of its tips. |
| WantsMinusHaves.FileComesBack | pkg/transfer/enumerate.go:29-93 | A history that restores a removed file, in which the file is sent to a receiver that has it. |
| Transfer.ReceiverIsCompleted | pkg/transfer/enumerate.go:32-93 | A receiver that holds the haves completely and takes in the listed objects holds every want completely. |
| Transfer.NoHavesIsClosure | pkg/transfer/enumerate.go:32-93 | With no haves the listing is the closure of the wants, no more and no less. |
| Transport.Local.ApplyUpdate | internal/transport/local.go:142-180 | The exact condition for accepting an update (expected old value, new object present, creation of an absent ref, force or a base equal to the old value) and the exact new refs; an unforced move leaves no ancestor behind. |
| Transport.Local.ReceivePack | internal/transport/local.go:123-139 | The pack is taken in first; the updates are applied one by one, each against the refs the one before left. |
| Transport.Local.FetchPack | internal/transport/local.go:102-112 | The pack holds objects of the store, unchanged, that cover the wants, and exactly those to be sent where no have is here only in part; nothing is sent only when the history is broken. |
| Protocol.PackSuffices | internal/commands/remote.go:367-455 | Whatever other steps did in between, the pack made from an earlier listing gives the receiver every want with its closure. |
| Protocol.StepKeepsInv | internal/commands/remote.go:244-314 | Every step of every push and fetch under way, and every local write, keeps all stores well formed, all refs complete and all open operations sound. |
| ProtocolRuns.RefsAlwaysComplete | internal/commands/remote.go:367-455 | In every world of every run, each ref of each repository names a commit whose whole closure is in that repository. |
| ProtocolRuns.WritesFormAChain | internal/transport/local.go:142-180 | In every run the writes of each ref form one chain, each starting from the value the one before left: no update is lost to a race. |
| ProtocolRuns.UnforcedKeepsAncestors | internal/transport/local.go:142-180 | Along unforced pushes of a ref each value is an ancestor of each later one. |
| ProtocolRuns.NothingIsLost | internal/commands/remote.go:367-455 | In every run, all history behind a value of a ref stays behind every later value set by unforced pushes, and stays in the store. |
| CommitGraph.CollectAncestors | pkg/graph/graph.go:170-194 | The set holds the ancestors and nothing else; it fails if and only if one of them cannot be read as a commit. |
| CommitGraph.FirstMet | pkg/graph/graph.go:103-132 | The commit met first, in the order in which a breadth-first walk with parents as listed discovers commits; an error only where an unreadable commit is discovered before any common ancestor. |
| CommitGraph.MergeBase | pkg/graph/graph.go:82-132 | The result is `x` if and only if the history of `a` is readable and `x` is the common ancestor discovered first from `b`, or both commits are `x`; not found means there is no common ancestor. |
| CommitGraph.BaseIsNearest | pkg/graph/graph.go:82-132 | The base is a common ancestor with no common ancestor fewer parent links away from `b`. |
| CommitGraph.BaseExists | pkg/graph/graph.go:82-132 | Over readable history there is a merge base if and only if there is a common ancestor. |
| CommitGraph.FastForwardExactly | internal/transport/local.go:142-180 | The base of an old and a new commit is the old one if and only if it is an ancestor of the new one and none of its own ancestors is discovered before it. |
| LinearPush.LinearPushIsAccepted | internal/transport/local.go:142-180 | An unforced push that moves a ref on from the value it has, along a history without merges, is always accepted. |
| CommitGraph.FastForwardCanBeRefused | internal/transport/local.go:142-180 | A history of five commits, made by an ordinary merge, in which a true fast-forward has another commit as its one merge base, so an unforced update to it is refused. |
| HighestBase.BaseIsHighestExactly | pkg/graph/graph.go:82-132 | The merge base has the highest generation among all common ancestors if and only if some common ancestor of the highest generation is discovered before all those of lower ones. |
| HighestBase.LinearBaseIsHighest | pkg/graph/graph.go:82-132 | Where no commit behind the second argument is a merge, the base always has the highest generation. |
| HighestBase.BaseIsNotHighest | pkg/graph/graph.go:82-90 | In the example the merge base has generation 0, though a common ancestor of generation 1 exists. |
| DagCheck.DagVerifier.Dfs | pkg/verify/verify.go:258-293 | The coloured search keeps its finished nodes in topological order and its open ones on a path, and reports a cycle only where there is one. |
| DagCheck.DagVerifier.VerifyDag | pkg/verify/verify.go:258-293 | A failure is recorded if and only if the parent graph has a cycle; otherwise every commit is counted. |
| DagCheck.GreyParentIsCycle | pkg/verify/verify.go:258-293 | A parent that is still open closes a cycle of the graph. |
| Generations.GenIsLongestChain | pkg/graph/graph.go:137-166 | The generation of a commit is the length of the longest chain of parents behind it. |
| Generations.AncestorIsLower | pkg/graph/graph.go:137-166 | A proper ancestor has a lower generation. |
| Generations.Generation | pkg/graph/graph.go:137-166 | It succeeds if and only if every ancestor can be read, with the right number, and every number it remembers is right whatever the cache held before. |
| GraphIndex.Walker.Next | pkg/graph/graph.go:49-78 | Each commit is returned once, in the order of discovery from the tips: before every commit that is still to come; the end comes only when exactly the ancestors of the tips were returned. |
| GraphIndex.Build | pkg/graphindex/graphindex.go:80-163 | It succeeds if and only if all history of the tips is readable; then it has one right entry for each commit behind a tip and no other. |
| GraphIndex.BuiltMirrors | pkg/graphindex/graphindex.go:80-163 | A built index, from any tips, agrees with the store on each of its commits and is closed under parents. |
| GraphIndex.MirrorsGrows | pkg/graphindex/graphindex.go:67-76 | An index stays right for its commits when objects are added to the store. |
| GraphIndex.IndexReachesAncestors | internal/commands/history.go:39-73 | From an indexed commit the index reaches exactly the ancestors the store has. |
| GraphIndex.HistoryFromIndex | internal/commands/history.go:39-73 | The entries listed are those the index reaches from the head, each once, by falling generation and then time. |
| GraphIndex.HistoryFromStore | internal/commands/history.go:76-103 | It succeeds if and only if all history of the head is readable, and lists exactly its ancestors, each once, in the order of their discovery. |
| GraphIndex.OrderedByDistance | internal/commands/history.go:76-103 | In that order the head comes first and no commit comes before one that is fewer parent links away. |
| GraphIndex.IndexHistoryIsStoreHistory | internal/commands/history.go:39-73 | The history listed from the index holds exactly the ancestors in the store, each once, and no commit comes after one of its ancestors. |
| GraphIndex.OldIndexListsHistory | internal/commands/history.go:39-73 | An index built before the store grew still lists that history for every head it has. |
| UndoLog.ScanIsReplay | pkg/recovery/recovery.go:115-142 | Scanning backward while skipping what later undos took back finds the entry at that depth of the forward replayed stack. |
| UndoLog.UndoTarget | pkg/recovery/recovery.go:115-142 | The scan's answer is the top of the stack that replaying the log forward leaves, or that nothing is left. |
| Undo.Repository.UndoReflog | internal/undo/undo.go:126-225 | Where the previous commit and its tree can be read, the branch goes to where the reversed move started and both logs record the undo; refused for want of history, for a HEAD that moved unrecorded or for a switch, it changes nothing. |
| Undo.Repository.Collect | pkg/gc/gc.go:36-75 | Without apply, or when it fails, nothing is removed; otherwise exactly the objects no root reaches are. The count is that of those objects, in a dry run too, and it cannot fail when all that the roots lead to is there. |
| Undo.Repository.GatherRoots | pkg/gc/gc.go:80-113 | The roots are exactly the readable commits among the refs, HEAD and the old and new values of HEAD's log, with the null commit left out. |
| UndoRuns.StepKeepsInv | internal/undo/undo.go:126-225 | Commits, new branches, switches, undos and collections all keep every branch where its replayed log leads, and every commit that HEAD's log names complete. |
| UndoRuns.CollectKeeps | pkg/gc/gc.go:36-75 | A collection leaves every branch and every commit that HEAD's log names complete, so it never takes away what an undo needs. |
| UndoRuns.UndoTakesTopOff | internal/undo/undo.go:126-225 | An undo moves HEAD from where the last move not undone ended to where it started, and its log replays to that stack without its top. |
| UndoRuns.UndoNeverLosesTrack | internal/undo/undo.go:126-225 | In every run whose moves are logged, an undo never meets a HEAD it cannot account for nor a switch, and when it is done HEAD is a complete commit. |
| UndoRuns.MoveThenUndo | internal/commands/merge.go:584-593 | One undo takes back the move just made. |
| UndoRuns.UndosTakeBackCommits | internal/undo/undo.go:126-225 | After any `n` commits, whatever was undone before, `n` undos bring HEAD and the stack back to where they were. |
| IndexTree.Insert | pkg/tree/node.go:20-53 | An entry can be written if and only if no name on its way is a file; then its path leads to its ID, the paths below it are gone and every other path is unchanged. |
| IndexTree.LiveExactly | pkg/tree/node.go:20-53 | A path is live with a blob if and only if the last entry for it that is not marked deleted has that blob. |
| IndexTree.BuildFromIndex | pkg/tree/node.go:20-53 | The heap of nodes can be built if and only if no live path is followed by one below it, and its leaves are those of entering the live paths in order. |
| IndexTree.FilesHaveNothingBelow | pkg/tree/node.go:20-53 | No path of a built trie lies below another. |
| IndexTree.KeepsAllIffPrefixFree | pkg/tree/node.go:20-53 | The trie is built without losing a live path if and only if no live path is a directory of another. |
| IndexTree.ClashExamples | pkg/tree/node.go:20-53 | With `a` live before `a/b` the trie cannot be built; in the other order it is built and `a/b` is lost. |
| TreeStore.SortedEntries | pkg/object/tree.go:25-30 | Sorting makes the tree object, and so its ID, independent of the order in which the children came. |
| TreeStore.WriteNode | pkg/builder/tree.go:18-49 | The subtree's ID depends on the files below it alone; all its trees are in the store, and nothing stored before is changed. |
| TreeStore.BuildTree | pkg/builder/tree.go:12-16 | The root ID is a function of the files written, and every tree below it is stored. |
| TreeRead.WalkTreeBlobs | internal/commands/mergehelpers.go:33-53 | It succeeds if and only if every tree below is stored and is a tree, and adds the joined paths of the files below to what was there. |
| TreeRead.BuildAndReadBack | internal/commands/mergehelpers.go:33-53 | Building trees from an index and reading the root back gives exactly the live paths with their blobs if and only if no live path is a directory of another. |
| TreeRead.RootFromLiveAlone | pkg/builder/tree.go:12-16 | Two such indexes with the same live files have the same root ID, whatever the order of their entries. |
| ObjectCodec.DeserializeTree | pkg/object/tree.go:51-73 | It returns the one entry list that spells the bytes, or fails where there is none. |
| ObjectCodec.DeserializeCommit | pkg/object/commit.go:52-86 | It returns the one commit whose body the bytes are, or fails where there is none. |
| ObjectCodec.Deserialize | pkg/object/object.go:48-99 | What it returns writes the bytes, and where some object writes them it is the one returned. |
| ObjectCodec.WriteAndRead | pkg/object/object.go:68-84 | An object comes back from its encoding if and only if its names and author hold no NUL and its parents can be counted in 32 bits. |
| ObjectCodec.EncodingIsInjective | pkg/object/commit.go:26-49 | No two objects the format can hold have the same encoding. |
| Pack.ReadVarint | pkg/transfer/pack.go:72-129 | Whatever is read is one varint of at most ten bytes and 64 bits; every written number comes back, with the bytes after it left to be read. |
| Pack.WritePack | pkg/transfer/pack.go:28-61 | It succeeds if and only if every listed object is stored, and then writes their records in order. |
| Pack.ReadPack | pkg/transfer/pack.go:72-129 | Nothing is written unless the checksum is right; what is accepted is the header and then exactly as many well-formed records as it announces, with nothing after them, and their objects are put in; a written pack is taken in whole, and the count is that of the objects newly stored if and only if no record is of an object already stored or sent before. |
| Pack.AddedExactly | pkg/transfer/pack.go:63-67 | Putting objects adds as many as there are if and only if none is stored yet and none is repeated, and never more. |
| Pack.ResentIsCounted | pkg/transfer/pack.go:63-67 | An object put into a store that has it adds nothing, though it is one record. |
| Pack.SendPack | pkg/transfer/pack.go:28-61 | Writing a pack from one store and reading it into another succeeds if and only if the sender has every listed object; the receiver then has its own objects and the listed ones, unchanged, and no other; the count is that of the objects added if and only if the list repeats nothing and the receiver had nothing of it. |
| IndexCodec.WriteIndex | pkg/graphindex/graphindex.go:183-259 | The header with its two offsets, the fixed-width table, the parents, the text and the checksum, in that order. |
| IndexCodec.MetaReads | pkg/graphindex/graphindex.go:350-366 | The text of an entry comes back if and only if it holds no NUL. |
| IndexCodec.ParseIndex | pkg/graphindex/graphindex.go:262-347 | Nothing is loaded without the right checksum, magic and version; a written index whose sizes fit gives back every entry. |
| IndexCodec.WriteAndParse | pkg/graphindex/graphindex.go:262-347 | An index whose sizes fit comes back as it was if and only if no text in it holds a NUL. |

## Findings

Where the code does not do what its documentation or its name promises, the model follows the code, and the exact
condition is proved.

- `MergeLaws.UnchangedOursExactly`: over an empty base, a side left untouched does not give way. The whole file becomes
  a conflict between nothing and the other side unless the other side is empty too (internal/conflict/render.go:53-60).
- `Resolution.ResolvesWhatWasMerged`: a base section is read as part of our side. In each style that writes one,
  resolving for ours or for both keeps it, and the automatic strategy keeps it where their side is empty and leaves a
  conflict unsettled where ours is. The results are right if and only if the style shows no base, the strategy is
  theirs, nothing is in conflict, or the strategy is automatic and should settle none of the conflicts
  (internal/conflict/conflict.go:104-155 never looks for the base marker; internal/conflict/hunks.go:56-107 does).
- `StructuralMerge.AddedKeyClashes`: a key added by both sides with null on one side takes the other side's value
  without a mark (internal/smartmerge/smartmerge.go:234-263).
- `IndexTree.ClashExamples`, `IndexTree.KeepsAllIffPrefixFree` and `TreeRead.BuildAndReadBack`: when one live path is
  a directory of another, building the trie panics if the file comes first, and silently loses the paths below if it
  comes last. All paths come back if and only if there is no such pair (pkg/tree/node.go:20-53).
- `CommitGraph.FastForwardCanBeRefused` and `CommitGraph.FastForwardExactly`: the fast-forward test compares the merge
  base with the old commit, so a true fast-forward is refused if and only if an ancestor of the old commit is
  discovered before it from the new one (internal/transport/local.go:142-180).
- `HighestBase.BaseIsNotHighest` and `HighestBase.BaseIsHighestExactly`: the comment at pkg/graph/graph.go:82-90
  promises the common ancestor of the highest generation. The base has it if and only if some common ancestor of the
  highest generation is discovered before all those of lower ones, which `HighestBase.LinearBaseIsHighest` shows for
  every linear history; in the example it has not.
- `WantsMinusHaves.FileComesBack` and `WantsMinusHaves.DifferenceExactly`: the comment at pkg/transfer/enumerate.go:29-31
  promises what is not reachable from the haves. Only the trees of the haves themselves are excluded, so a file that the
  receiver had in an earlier commit is sent again when it comes back. The listing is what the comment says if and only
  if there is no such file.
- `IndexCodec.MetaReads` and `IndexCodec.WriteAndParse`: an author or message that holds a NUL byte is cut there when
  the graph index is read.
- `Pack.ResentIsCounted`, `Pack.ReadPack` and `Pack.SendPack`: the count of objects written is documented to leave
  out those already present (pkg/transfer/pack.go:63-67), but it is that of all records. It is right if and only if
  every record is of an object that is new to the store and not repeated; for a pack that was sent, if and only if the
  list repeats nothing and the receiver had nothing of it.

## Left out

- Transfer.Enumerate: the order in which the objects are listed, since the listing is a set here.
- Transfer.Enumerate: haves whose history is here only in part, for which only `Covers` is promised; a walk that fails part-way leaves later haves without their ancestors.
- RoundTrip.MergeParses: texts with marker lines of their own or without a final newline, which the reader cannot tell from written markers; UndecidedIsUnchanged and ParsesExactly cover every text.
- Resolution.ResolvesWhatWasMerged: the same texts; ResolvesExactly covers every text.
- StructuralMerge.MergeSwap: sides that hold marks already, because no parser of the formats produces them; the same for MarkedExactly.
- TreeStore.WriteNode: hash collisions and write errors of the store, because the hash is injective here and writing succeeds.
- GraphIndex.Build: the 32-bit width of a generation, and tips read from refs, which are a parameter.
- Generations.Generation: histories with a cycle, on which the source recurses without end; DagVerifier covers those.
- Pack.ReadPack: the allocation of a record's declared length before its bytes are read (pkg/transfer/pack.go:98-106), where a huge length panics; here such a record is a clean failure.
- IndexCodec.ParseIndex: the allocation of an announced count of entries before they are read.
- UnifiedFormat.FormatUnified: the decimal text of a hunk's header, the file labels and the note about a missing final newline; a hunk is a value with its numbers and marked lines.
- Hunks.Parse: the labels after a marker.
- Undo.Repository.UndoReflog: a previous commit or tree that cannot be read, where the source fails with the ref already moved (internal/undo/undo.go:156-181); `UndoRuns.UndoNeverLosesTrack` shows that the previous commit is complete in every run. Also a detached HEAD, the checkout of the working tree, and the journal and snapshot layers of undo.
- Transport.Local.FetchPack: how the pack is streamed to the client.
- TreeRead.WalkTreeBlobs: modes other than file and directory.
- `sort.Slice` is an insertion sort; the order it gives is proved, not its running time.
- Texts are sequences of characters where only lines matter, and bytes in the codecs.
- `mergeChangeBlocks` in pkg/diff/threeway.go, an older merge with a coarser region rule, and `MergeThreeWay` in
  internal/conflict/threeway.go, which only calls `Render`.
- `computeHunks` in internal/hub/diff.go, which presents what `myersLines` finds.
- `diffSlots`, the limit on concurrent diffs in internal/hub/diff.go.
- The parsers and renderers of JSON and YAML around the structural merge, and numbers that do not equal themselves.
- The file system, locks as files, zstd, SHA-256 itself and the network.
- Commands, the web interface, authentication and configuration.
