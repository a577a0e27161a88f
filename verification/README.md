# Verified models of a collaborative document server

The server keeps rich-text documents, spreadsheets and whiteboards in shared CRDT documents that
browsers, bots and REST clients write at the same time. These Dafny modules model the parts of it
that must not go wrong, and prove what they promise.

| area | modules |
|---|---|
| block-path edits and anchor search | `DocTree`, `DocPaths`, `TokenEdit`, `TreeEdit`, `DocBodyEdit`, `DocEditLaws`, `AnchorResolve` |
| spreadsheet protection | `SheetKeys`, `GuardSpec`, `SheetGuard`, `GuardLaws`, `SheetText` |
| spreadsheet commit and restore | `SheetContracts`, `SheetValues`, `SheetBatches`, `SheetDoc` |
| base-version tokens and persistence | `StateVectors`, `EditTokens`, `Persistence` |
| whiteboard repair | `JsValues`, `WhiteboardSchema`, `EntryMaps`, `RepairSpec`, `RepairLaws`, `WhiteboardFields`, `WhiteboardRepair`, `RepairLog` |
| whiteboard batches and restore | `BoardCas`, `BoardEdit`, `BoardLaws`, `BoardFacts` |
| migration runner | `Migrations`, `MigrationLaws` |
| decks | `CanonicalJson`, `CanonicalText`, `JsonReader`, `PptCreate` |
| Typst text | `TypstText` |
| shared | `Prelude`, `Strings`, `SeqFacts` |

Code that updates state in place is a method of a class with the fields it updates, or a method
with the loop of the source, and is proved against a function or predicate that says what it
computes; the properties are lemmas about those. `dafny verify dfyconfig.toml` checks everything.

## Assumptions

- A ProseMirror document is a tree of texts, leaves and branches; a transform step that fits is a
  splice of its tokens.
- A shared document is, for each client, a count of integrated structs, a set of deletions and its
  visible maps. Setting a map key adds a struct of the writing client, deleting one adds none;
  updates never take structs away. Encoding a state vector is canonical.
- A live document was loaded from its row, so storing it makes the row the document. A reload
  continues from the row. Browsers that reconnect and send what they have are client updates.
- The fractional-index library yields, for a number and no key or a legal key, that many legal keys
  in increasing order, above the key if there is one. Which strings are legal is a parameter
  (`RepairSpec.BoundedAlphabetIsLawful` shows that a bounded alphabet can meet this).
- Where the language enumerates a map, the model takes any enumeration.
- Transactions of the database show committed rows only, roll back as a whole, and make an insert
  of a key wait for an open transaction that has inserted it. Fresh document ids are distinct.
- The number reader of the language is a parameter that reads up to seven digits as decimals.
  Numbers are exact or not finite. Strings are sequences of characters of the basic plane.
- Hashes stand for what they hash: the models compare the texts and payloads themselves.

## Where the code and its comments part

- `src/whiteboard/boardEdit.ts:75-77` coerces the live nonce to at least one, while normalization
  keeps any integer nonce, and the hash that makes nonces can yield 0. Below one the stored nonce
  no longer arbitrates, the last writer wins, and batches depend on their order
  (`BoardCas.LowNoncesDiverge`, `BoardCas.OrderIsIrrelevantIff`).
- `src/whiteboard/ydoc.ts:56` and `src/collab/versionRestore.ts:622` find a field stale when
  `f in obj` fails, which it never does for the names that every object inherits, such as
  `toString`. Fields of those names stay on an entry that is made equal to one without them
  (`BoardLaws.RestoreIsExactIff`, `BoardLaws.StrayFieldOutlastsRestore`), and a batch may then depend
  on its order (`BoardCas.DistinctStampsConvergeIff`, `BoardCas.StrayFieldDiverges`). The sheet
  reconcile in the same file asks for own names.
- `src/agent/sheetConversion.ts:1281-1300` says that it decodes exactly as the read path does; it
  copies all maps into plain objects, which lose an entry named `__proto__`, and the read path copies
  merges and tabs into objects that keep it (`SheetDoc.ServedIff`, `SheetDoc.HiddenTabIsOverlooked`).
- `src/ppt/source.ts:106` says keys are sorted at every depth; keys that are array indices come out
  by value, before all others. The text is canonical all the same (`CanonicalText.KeysAreSortedIff`,
  `CanonicalText.IndicesAreNotSorted`).
- `src/collab/docBodyEdit.ts:169-185`: inside anchors on a leaf land on the opposite sides of it,
  and inside a longer text they land between no two nodes.
- `src/agent/sheetConversion.ts:524-548` tests a merge key with its corners as written. A deletion
  may name inverted corners, for which the test is not an intersection (`SheetDoc.GuardDecidesIff`);
  no stored merge has such a key, so the deletion does nothing (`SheetDoc.InvertedDeletionsAreIdle`).
- `src/collab/liveDocWrite.ts:41-64` counts on clocks that only grow. `src/collab/persistence.ts:79-83`
  refuses to store a document that has grown too large, and a reload from the older row takes its
  clocks back (`EditTokens.RefusedStoreRevivesToken`, `EditTokens.TokensStayRetiredIff`).
- `src/api/ppt/docs.ts:254-259` answers that an identical create is in progress; where inserts wait
  for the holder of a key, it never does (`PptCreate.NeverInProgress`).
- `src/agent/sheetConversion.ts:96-101` relies on nobody being granted the sentinel permission; the
  code does not check it, and a grant for it would hand unreadable rules to its holders.
- `src/collab/versionRestore.ts:236-239` says a failed validation leaves the live document
  untouched. That holds for the sheet maps; `src/collab/liveRestore.ts:63-74` has by then replaced
  the fragment. The restore service validates on a scratch copy first, so it never gets there.
- `src/collab/persistence.ts:60-63` takes the fast path only for states without any deletion,
  because a difference always carries the whole delete set. Nothing is lost; after the first
  deletion the union runs on every store.
- `src/export/renderTypst.ts:1132-1136` reverses escaping for code marks but leaves the soft breaks
  of long runs in the text.
- `src/whiteboard/repair.ts:400-430`: elements that refer to an element the pass itself drops are
  not in its scope, so their references dangle until a whole-board pass
  (`RepairLaws.LivePassIntactIff` has the exact condition).

## Model

| member | source | states |
|---|---|---|
| DocBodyEdit.ResolveBlockPath | src/collab/docBodyEdit.ts:141-166 | the loop over `node`, `start` and `contentStart` returns the addressed node with its positions exactly when every index of the path exists, and the not-found error otherwise |
| DocBodyEdit.AnchorTokens | src/collab/docBodyEdit.ts:141-166 | the positions are right: the tokens of the document between `start` and `end` are exactly the flattening of the addressed node |
| DocBodyEdit.ResolveRange | src/collab/docBodyEdit.ts:232-254 | a range is accepted exactly when both paths exist, share a parent and are in order; it then runs from the first start to the last end |
| DocBodyEdit.RangeRemoves | src/collab/docBodyEdit.ts:232-254 | the tokens of a range are exactly those of the addressed siblings, both ends included |
| DocBodyEdit.ResolveOp | src/collab/docBodyEdit.ts:285-340 | each operation yields its positions in the original document or the first of its errors, root inserts included |
| DocBodyEdit.ResolveOps | src/collab/docBodyEdit.ts:290-340 | the first operation that fails decides the error, before anything is edited |
| DocBodyEdit.HasDuplicateAnchor | src/collab/docBodyEdit.ts:341-347 | a batch is refused exactly when two inserts name the same path and position |
| DocBodyEdit.DetectOverlaps | src/collab/docBodyEdit.ts:257-276 | the pairwise position test finds an overlap exactly when some pair of resolved operations is incompatible |
| DocPaths.PositionOrder | src/collab/docBodyEdit.ts:141-185 | tree boundaries and flat positions are in the same order, so distinct boundaries never share a position |
| TreeEdit.OverlapIsClash | src/collab/docBodyEdit.ts:257-276 | two positioned edits overlap exactly when, in the tree, they cover a common node or an insert falls strictly inside removed siblings |
| DocBodyEdit.BatchClashes | src/collab/docBodyEdit.ts:257-276 | a whole resolved batch passes the overlap test exactly when no two of its tree edits clash |
| TokenEdit.SplicesAreSimultaneous | src/collab/docBodyEdit.ts:351-371 | sorting by descending position and splicing one operation at a time gives the single simultaneous edit of the original tokens: nothing is ever remapped, ranges go before inserts at the same start, and inserts at one position end up in reverse batch order |
| DocBodyEdit.RunTransform | src/collab/docBodyEdit.ts:357-371 | the sort and the splice loop compute that simultaneous edit |
| TreeEdit.TokenEditIsTreeEdit | src/collab/docBodyEdit.ts:351-380 | the simultaneous edit of the tokens is the flattening of the simultaneous edit of the tree, so the result is a well-bracketed document |
| DocBodyEdit.MeaningIsPlaced | src/collab/docBodyEdit.ts:169-185 | an accepted operation whose anchor is a node boundary denotes a valid tree edit placed exactly where the code resolved it |
| DocBodyEdit.BatchIsTreeEdit | src/collab/docBodyEdit.ts:285-380 | a batch is accepted exactly when it is not empty, every operation resolves, no anchor repeats and no two edits clash; then its result is the tree edited all at once as on the original document |
| DocBodyEdit.ApplyIncrementalOps | src/collab/docBodyEdit.ts:285-380 | the whole operation computes that outcome, with the first error in the order of the checks |
| DocBodyEdit.InsideOfLeafIsBeside | src/collab/docBodyEdit.ts:169-185 | inside anchors on a leaf are exchanged: `inside_start` lands after it and `inside_end` before it |
| DocBodyEdit.OffBoundary | src/collab/docBodyEdit.ts:169-185 | an anchor without a tree meaning (inside a longer text) resolves to a position that is no node boundary at all, so the excluded case is exactly the one the tree reading cannot cover |
| DocEditLaws.BatchErrors | src/collab/docBodyEdit.ts:187-192 | the first operation that is not right decides the error: a node of another type than the one expected is a mismatch, no node at all is not found; an expectation that the node meets, or none, never is |
| DocEditLaws.OneOp | src/collab/docBodyEdit.ts:285-371 | a right operation on its own is accepted, whatever it expects truly, and replaces exactly its stretch of tokens |
| DocEditLaws.TwoOps | src/collab/docBodyEdit.ts:257-276 | two right operations in terms of their stretches: refused at one anchor or when they reach into each other, and otherwise each replaces its own, an insert ahead of a range that starts there and a later insert ahead of an earlier one |
| DocEditLaws.PathsGrow | src/collab/docBodyEdit.ts:141-166 | a path reaches one level further exactly into the children of a branch |
| AnchorResolve.CollectText | src/collab/anchorResolve.ts:105-120 | the searched string of a block and the position of each of its characters |
| AnchorResolve.CollectInBlock | src/collab/anchorResolve.ts:105-145 | the scan lists, left to right and without overlap, the contiguous occurrences in one block |
| AnchorResolve.FindAnchorMatches | src/collab/anchorResolve.ts:101-163 | the recursive walk lists the matches of every text block in document order; an empty needle finds nothing |
| AnchorResolve.HitsSound | src/collab/anchorResolve.ts:121-145 | every listed hit reads the needle at consecutive positions, and hits are increasing and disjoint |
| AnchorResolve.HitsComplete | src/collab/anchorResolve.ts:121-145 | every contiguous occurrence is listed or starts inside an earlier listed hit |
| AnchorResolve.AnchorSound | src/collab/anchorResolve.ts:101-163 | in the flattened document each match spells the needle with no atom inside and lies within the content of the block its path names; matches come in order |
| AnchorResolve.AnchorComplete | src/collab/anchorResolve.ts:101-163 | wherever the document spells the needle from the text of a block, the place is listed or starts inside a listed match of that block |
| AnchorResolve.SelectAnchorMatch | src/collab/anchorResolve.ts:172-191 | with an occurrence n, the match before which exactly n - 1 matches of the block come, or not found when there are fewer; without one, the only match of the block, not found when there is none, and otherwise the ambiguity error with the paths of all of them in order |
| AnchorResolve.RankIsDocumentOrder | src/collab/anchorResolve.ts:172-191 | among the matches of a document that count is the number of matches of the block that end before the chosen one, so it is the n-th in document order |
| AnchorResolve.SearchedIff | src/collab/anchorResolve.ts:147-161 | the search looks into exactly the nodes of inline content that lie in no other such node |
| AnchorResolve.OnlyCandidateCovers | src/collab/anchorResolve.ts:172-191 | when one candidate is left in a block, every occurrence of the text in that block starts inside it |
| SheetKeys.ValidCellAddresses | src/agent/sheetConversion.ts:568-569 | every key the cell contract accepts is read by the guard as a cell at non-negative coordinates |
| SheetKeys.ValidDimAddresses | src/agent/sheetConversion.ts:683 | every accepted row or column key is read as a line, of the default sheet when it names none |
| SheetKeys.ValidMergeAddresses | src/agent/sheetConversion.ts:1041 | every accepted merge key is read as a block |
| SheetText.CellKeyReads | src/agent/sheetConversion.ts:472-474 | of a cell key the row comes first and the column second |
| SheetText.LineKeyReads | src/agent/sheetConversion.ts:500-507 | `c` keys are columns and `r` keys rows, of the default sheet when they name none |
| SheetText.MergeKeyReads | src/agent/sheetConversion.ts:525-531 | of a merge key start row, start column, end row and end column come in this order |
| SheetText.CellKeysAre | src/agent/sheetConversion.ts:569 | cell keys are exactly a sheet name without a bang and two numbers of up to seven digits |
| SheetText.DimKeysAre | src/agent/sheetConversion.ts:683 | dimension keys are exactly `c` or `r` and a number, with or without a sheet name |
| SheetText.MergeKeysAre | src/agent/sheetConversion.ts:1041 | merge keys are exactly a sheet name without a colon and four numbers |
| SheetText.IdKeysAre | src/agent/sheetConversion.ts:839 | drawing and link keys are exactly a sheet name and an id |
| SheetText.RectReads | src/agent/sheetConversion.ts:207-248 | a rectangle as it is written holds exactly the cells between its corners, in whatever order they are given |
| SheetText.CellRefusedIff | src/agent/sheetConversion.ts:275-489 | from the texts alone: a write to a cell is refused exactly when a rule on that sheet has the cell between its corners and the writer is not listed for its permission |
| SheetText.SheetRuleGuards | src/agent/sheetConversion.ts:341-386 | a rule under the key of a whole sheet guards every cell of it |
| SheetText.RefusedInOrder | src/agent/sheetConversion.ts:466-563 | refused keys are listed cells first, then dimensions, merges and tabs |
| SheetGuard.ReadRects | src/agent/sheetConversion.ts:207-248 | the rectangles of a rule with their bounds put in order, and whether any element is unreadable or can contain no cell |
| SheetGuard.IndexRule | src/agent/sheetConversion.ts:320-441 | every branch for readable and unreadable rules files the rule under the reach and the permission the specification gives it |
| SheetGuard.AddRuleBlocks | src/agent/sheetConversion.ts:320-441 | adding a rule to the index blocks exactly what the rule hits, for a writer it does not permit, and nothing else changes |
| SheetGuard.PermitCache.Permitted | src/agent/sheetConversion.ts:444-458 | the memo always answers what the grants answer |
| GuardSpec.TouchesIsMeeting | src/agent/sheetConversion.ts:477-560 | each of the four hand-written tests decides whether a rectangle and the addressed cells share a cell, for rectangles that reach below zero too |
| GuardSpec.HitsIsMeeting | src/agent/sheetConversion.ts:466-560 | so the test of a rule decides whether its cells and the addressed cells meet |
| SheetGuard.IndexRefines | src/agent/sheetConversion.ts:275-564 | whatever the order of the rules, the index blocks exactly the writes the specification refuses |
| SheetGuard.AssertSheetWriteAllowed | src/agent/sheetConversion.ts:275-564 | admins pass; for anyone else the refused keys of a regular batch are exactly, and in order, those that address a cell guarded by a rule that does not permit the writer: early returns, index and memo never change the answer |
| GuardLaws.AcceptedIsRegular | src/agent/sheetConversion.ts:569-1140 | a batch whose keys pass their contracts is regular, unless it deletes a merge under inverted corners |
| GuardLaws.AgreesIffOrdered | src/agent/sheetConversion.ts:524-548 | for one addressed target the guard answers as specified, for all rules, enumerations and writers, exactly when its corners are in order |
| GuardLaws.GuardIsExactIff | src/agent/sheetConversion.ts:275-564 | the refused keys of a batch whose keys pass their contracts are the specified ones, for all rules, enumerations and writers, exactly when no merge key has inverted corners |
| GuardLaws.InvertedBlocks | src/agent/sheetConversion.ts:524-548 | an inverted merge key denotes no cell, yet is refused beside one rectangle and passed over another |
| GuardLaws.DamageOnlyWidensIff | src/agent/sheetConversion.ts:320-441 | an unreadable value, a missing permission or junk ranges never let through what the rule refused, exactly when the damaged rule does not fall to a permission the denied writer holds |
| GuardLaws.DamageWidens | src/agent/sheetConversion.ts:320-441 | the same inside any set of rules: damage to one rule only enlarges what is refused |
| GuardLaws.DamageKeepsDenying | src/agent/sheetConversion.ts:96-101 | with nobody granted the sentinel, damage never hands a rule to a writer it denied |
| GuardLaws.LostSheetWidens | src/agent/sheetConversion.ts:341-386 | a rule whose key no longer names a sheet still refuses all it did |
| GuardLaws.SwapChangesNothing | src/agent/sheetConversion.ts:220-233 | naming the bounds of any rectangles in the other order changes no decision |
| GuardLaws.GrantingNarrows | src/agent/sheetConversion.ts:444-451 | growing allow lists only narrows what is refused |
| SheetContracts.KeptSameFields | src/agent/sheetConversion.ts:591-663 | a stored cell has exactly the fields of the accepted one, each once |
| SheetContracts.StoredIsStable | src/agent/sheetConversion.ts:591-1182 | what any of the six contracts stores is accepted again and stored as it is |
| SheetValues.CellAccepted | src/agent/sheetConversion.ts:591-663 | a cell is an object of at least one field and no other than `v`, `f`, `s`, `p` and `t`, each of its types |
| SheetValues.DimAccepted | src/agent/sheetConversion.ts:692-700 | the size of a line is a number of pixels above zero and at most a hundred thousand |
| SheetValues.DrawingAccepted | src/agent/sheetConversion.ts:847-864 | a drawing is an object that names the id of its key |
| SheetValues.LinkAccepted | src/agent/sheetConversion.ts:927-973 | a link is an object with the id of its key, a row, a column and a safe address, the scheme in any case |
| SheetValues.MergeAccepted | src/agent/sheetConversion.ts:1048-1073 | a merge is `true` under a key whose start is not after its end |
| SheetValues.TabAccepted | src/agent/sheetConversion.ts:1159-1182 | a tab is an object with a name and an order |
| SheetValues.TabKeysAre | src/agent/sheetConversion.ts:1143-1153 | tab keys have no colon, bang or control character and are not reserved |
| SheetBatches.BatchLands | src/agent/sheetConversion.ts:768-781 | after an accepted batch each key it names with a value holds that value, or for a cell an object with exactly its fields, each key it names with null is absent, and every other key is as before |
| SheetBatches.ValidateBatch | src/agent/sheetConversion.ts:746-762 | a batch is accepted exactly when every entry is, deletions by the shape of their key, and then splits into deletions and stored values in order |
| SheetBatches.SharedMap.ApplyBatch | src/agent/sheetConversion.ts:768-781 | validate all, then apply: a refused batch leaves the map as it was |
| SheetBatches.BatchIsEntryByEntry | src/agent/sheetConversion.ts:768-781 | all deletions before all values is the same as entry by entry in batch order |
| SheetBatches.UnnamedStays | src/agent/sheetConversion.ts:768-781 | applying a batch leaves every key it does not name with its value |
| SheetBatches.BatchKeepsValid | src/agent/sheetConversion.ts:768-781 | any batch leaves a valid map valid |
| SheetDoc.SheetDocument.Commit | src/collab/liveSheetWrite.ts:102-153 | version guard, protection guard, six validations, six applications, version bump: any error leaves all six maps, the state vector and the counter as they were; a success leaves in each map the values of its batch, no key it names with null and all other keys as before, adds one struct for each value and one for the counter, and the refusal names the first five forbidden keys |
| SheetDoc.MeasureSheetAfterEdit | src/agent/sheetConversion.ts:1253-1303 | one map at a time on a scratch copy yields exactly the maps a commit produces, or refuses |
| SheetDoc.MeasurePredictsCommit | src/agent/sheetConversion.ts:1253-1303 | the pre-flight yields for every batch what a commit past its guards yields, the refusal or the six maps, exactly when what it lists of the sheet is readable to begin with |
| SheetDoc.ServedIff | src/agent/sheetConversion.ts:1281-1300 | what the pre-flight finds readable the read path serves, exactly unless a stored merge or tab is named `__proto__` |
| SheetDoc.HiddenTabIsOverlooked | src/agent/sheetConversion.ts:1293-1300 | a stored tab of that name passes the pre-flight, and the sheet is not served |
| SheetDoc.GuardDecidesIff | src/agent/sheetConversion.ts:1076-1095 | of the batches the contracts accept, the guard decides as specified exactly those that delete no merge under inverted corners |
| SheetDoc.GuardedKeysAre | src/collab/liveSheetWrite.ts:102-153 | the guard is given the keys of cells, dimensions, merges and tabs, each in batch order |
| SheetDoc.InvertedDeletionsAreIdle | src/agent/sheetConversion.ts:1044-1107 | such deletions do nothing to a valid sheet: without them the batch is one the guard decides as specified, and it leaves the same merges |
| SheetDoc.RunStaysValid | src/collab/liveSheetWrite.ts:102-153 | every state that commits and restores reach from a valid sheet passes every read validator |
| SheetDoc.SheetDocument.ReconcileSheetMap | src/collab/versionRestore.ts:248-338 | an invalid target leaves the live maps unchanged; otherwise all six hold the keys of the target with its values, cells with exactly its fields, whatever was there; two empty sides are left alone |
| SheetDoc.RestoreIsStable | src/collab/versionRestore.ts:248-338 | what a restore leaves is valid, and restoring it again changes nothing |
| SheetDoc.SheetDocument.ReconcileRestoreOntoDoc | src/collab/liveRestore.ts:63-74 | the fragment is replaced before the sheet target is judged: on a bad target the document keeps the new fragment and the old sheet, without a version bump; on a good one the vector strictly advances |
| SheetDoc.SheetDocument.RestoreVersion | src/api/services/restoreVersion.ts:132-230 | because the target is first reconciled onto a scratch copy, a refused restore leaves the live document as it was |
| StateVectors.StateVectorsEqual | src/collab/docBodyEdit.ts:125-131 | byte-exact equality |
| EditTokens.LiveDocument.Commit | src/collab/liveDocWrite.ts:108-147 | a stale token or a refused edit changes nothing; an accepted one applies the edit to the guarded content and advances the vector, even when it only deletes |
| EditTokens.AdvancedForGood | src/collab/liveDocWrite.ts:41-64 | what the counter is for: once a commit or a document or sheet restore bumped it, no state of the run falls back to a vector read before |
| EditTokens.VectorsNeverDecreaseIff | src/collab/liveDocWrite.ts:120-141 | over every interleaving of commits, restores, client updates, stores and reloads the state vector never decreases, exactly when the row holds all of the document at each reload |
| EditTokens.NoTokenTwice | src/collab/liveBoardWrite.ts:71-86 | no base-version token is accepted twice in a run whose reloads find in the row what accepted commits and restores left |
| EditTokens.ReadBeforeIsRefusedAfter | src/collab/liveRestore.ts:63-74 | in such a run a token read before an accepted commit or a document or sheet restore is refused for ever after, leaving the state as it was |
| EditTokens.AcceptsLaterIff | src/collab/liveDocWrite.ts:120-124 | some legal continuation accepts a token exactly while the document has nothing the token has not seen |
| EditTokens.TokensStayRetiredIff | src/collab/liveDocWrite.ts:41-64 | retired tokens stay retired at every later point of a run exactly when every reload finds in the row what the retiring steps left |
| EditTokens.RefusedStoreRevivesToken | src/collab/persistence.ts:79-83 | a commit whose store is refused for size, followed by an unload, has its token accepted a second time |
| Persistence.SurplusIsEmptyIff | src/collab/persistence.ts:50-63 | the surplus is empty exactly when the stored state is contained in the incoming one and has no deletion |
| Persistence.ComputeFinalState | src/collab/persistence.ts:50-69 | fast path and union write the same state, the join of both |
| Persistence.DocumentRow.Store | src/collab/persistence.ts:85-116 | a state over the size cap leaves row and editor as they were; otherwise the row becomes the join, and the reading system user is never recorded as editor |
| Persistence.RowIsUnion | src/collab/persistence.ts:85-103 | after any run of stores the row holds exactly the inserts and deletions that some accepted store held |
| Persistence.OrderIsIrrelevant | src/collab/persistence.ts:85-103 | the row depends only on which states were accepted, not on their order or repetition |
| Persistence.StoreIsStepIff | src/collab/persistence.ts:78-103 | a store of a live document, accepted or refused, is the store step of the token model exactly when an accepted one finds nothing in the row beyond the document |
| Persistence.StoresOfARun | src/collab/persistence.ts:78-103 | so it is at every store of every legal run that starts from a row within its document |
| Persistence.ReversedCheckIsSafeIff | src/collab/persistence.ts:43-48 | with the difference taken the other way round, an empty surplus would be safe only for equal states |
| WhiteboardSchema.Normalize | src/whiteboard/schema/normalize.ts:96-159 | an element is kept exactly when it has an id, a known type and no reserved field |
| WhiteboardSchema.NormalizeKeeps | src/whiteboard/schema/normalize.ts:96-159 | normalization keeps identity, kind, file, tombstone flag, version and a legal index |
| WhiteboardSchema.NormalizePrunes | src/whiteboard/schema/normalize.ts:131-150 | with a set of targets given, every reference left names one of them |
| WhiteboardSchema.NormalizeIdempotent | src/whiteboard/schema/normalize.ts:96-159 | normalizing twice is normalizing once |
| WhiteboardFields.FieldBecomes | src/whiteboard/schema/normalize.ts:107-130 | by field name: a finite number stays in x, y and angle, one that is not negative in width, height, strokeWidth and fontSize, opacity is held to 0..100, anything else becomes 0, or 100 for opacity; every field of another name stays as it is |
| WhiteboardFields.IndexBecomes | src/whiteboard/schema/normalize.ts:132-134 | the index stays exactly when it is legal |
| WhiteboardFields.ParentBecomes | src/whiteboard/schema/normalize.ts:136-152 | a container or frame becomes null exactly when targets are given and it names none of them |
| WhiteboardFields.BoundItems | src/whiteboard/schema/normalize.ts:136-142 | of the bound elements those that name a target stay, in order |
| WhiteboardFields.LegalIff | src/whiteboard/schema/normalize.ts:96-158 | normalization leaves an element as it is exactly when every field is legal, the index too, and every reference names a target |
| WhiteboardFields.HashOfLetter | src/whiteboard/schema/normalize.ts:36-50 | the nonce that fills in is the published 32-bit FNV-1a hash without its top bit |
| WhiteboardFields.HashReadsOn | src/whiteboard/schema/normalize.ts:36-50 | and reads its characters from first to last |
| WhiteboardSchema.NormalizedOrSame | src/whiteboard/ydoc.ts:31-37 | where a normalized field has the JSON text of the stored one it is the stored one, so the JSON comparison hides no repair |
| EntryMaps.EntryMap.WriteEntry | src/whiteboard/ydoc.ts:50-58 | the field loops leave exactly the written entry, a missing or corrupt one being replaced by a fresh map, and make their changes in sorted order; a stale field goes unless every object inherits its name |
| WhiteboardRepair.PlanRepair | src/whiteboard/repair.ts:98-207 | survivors, index fill, rewrites and drops computed over any enumeration of the board give one plan, a function of the board alone |
| WhiteboardRepair.LiveBoard.ApplyPlan | src/whiteboard/repair.ts:225-255 | the plan is applied in place in sorted order; the sequence of writes is a function of board and plan, and an empty plan opens no transaction |
| RepairLog.LogTells | src/whiteboard/repair.ts:225-254 | made again on the board as it was, the changes that a plan logs leave exactly what the plan leaves |
| RepairLog.LogAscends | src/whiteboard/repair.ts:225-254 | the changes of a pass come in one ascending order: rewrites by id, each entry opened, then set and cleared field by field in sorted order, and then drops by id |
| WhiteboardRepair.LiveBoard.RepairLiveDoc | src/whiteboard/repair.ts:268-274 | one pass leaves the repaired board and the same writes on every node |
| WhiteboardFields.TargetsAre | src/whiteboard/repair.ts:112-149 | references may name exactly the renderable elements that are not deleted and whose file is not among the just deleted |
| WhiteboardFields.RewrittenIff | src/whiteboard/repair.ts:182-191 | of the elements in its scope a pass rewrites exactly those that are not legal or have no legal index |
| WhiteboardFields.PassParents | src/whiteboard/repair.ts:182-191 | it clears a container or frame exactly when that is no valid target |
| WhiteboardFields.RunKeepsField | src/whiteboard/repair.ts:225-255 | over every run a legal value of a field stays as long as no transaction of the users changes it |
| WhiteboardFields.LivePassTouches | src/whiteboard/repair.ts:332-424 | a live pass leaves alone what was not changed and names no element that was removed |
| WhiteboardFields.IntactMeans | src/whiteboard/repair.ts:126-149 | what intact means, by the names of the fields that refer |
| WhiteboardRepair.ChangedAre | src/whiteboard/repair.ts:400-412 | the changed ids are the keys changed in the map and the first steps of the paths into it |
| WhiteboardRepair.DeletedAre | src/whiteboard/repair.ts:426-440 | the deleted files are the keys whose change is a deletion |
| WhiteboardRepair.LiveBoard.ReferrersOf | src/whiteboard/repair.ts:344-367 | exactly the elements, other than the removed ones, that name a removed one as container, frame or bound element |
| WhiteboardRepair.LiveBoard.OnElements | src/whiteboard/repair.ts:400-430 | repair's own transactions are skipped; others get a pass over the changed ids and the referrers of removed ones |
| WhiteboardRepair.LiveBoard.OnFiles | src/whiteboard/repair.ts:432-449 | only deleted files start a pass, over the whole board |
| WhiteboardRepair.RepairWhiteboardState | src/whiteboard/repair.ts:309-324 | the state is loaded into a scratch document, then a free write id chosen, then one whole-board pass run |
| WhiteboardRepair.LiveBoard.ColdRepair | src/whiteboard/repair.ts:384-390 | the state is repaired on a scratch document and merged back unless nothing changed: the live board is the repaired one, with the writes made under the chosen id and its own id kept |
| WhiteboardRepair.EqualAsWrittenIs | src/whiteboard/repair.ts:209-217 | the comparison that decides a rewrite, which also finds inherited names, is equality field by field on elements |
| WhiteboardRepair.ChooseRepairClientId | src/whiteboard/repair.ts:294-299 | the loop ends on the greatest reserved id that neither the loaded state nor the document uses |
| WhiteboardRepair.RepairIdIsStable | src/whiteboard/repair.ts:294-299 | every node picks the same id for the same state exactly when its own throwaway id is not that id |
| RepairSpec.FillIsOrdered | src/whiteboard/repair.ts:167-183 | exactly the indexless survivors get legal keys, ordered like their ids |
| RepairSpec.FillIsAbove | src/whiteboard/repair.ts:167-183 | a filled key lies above every valid index in use |
| Strings.LessIff | src/whiteboard/repair.ts:188-206 | the sorted order that repair fixes its writes and keys by: one string is below another exactly when it ends, or goes on with a smaller character, at the first difference |
| RepairLaws.WholePassIsIntact | src/whiteboard/repair.ts:98-207 | after a whole-board pass no element refers to an absent, tombstoned or dropped one, whatever the board was |
| RepairLaws.LivePassIntactIff | src/whiteboard/repair.ts:400-430 | the scoped pass restores reference integrity after a transaction exactly when no element outside its scope refers to a changed element that the pass drops |
| RepairLaws.LivePassKeepsIntact | src/whiteboard/repair.ts:400-430 | in particular it does when every changed element stays schema-valid |
| RepairLaws.InvalidChangeDangles | src/whiteboard/repair.ts:400-430 | otherwise it need not: on a board with a text in a frame, a transaction that takes the frame's type away leaves the text naming a dropped element |
| RepairLaws.RunStaysIntact | src/whiteboard/repair.ts:396-453 | over every run of loads and observed transactions whose changed elements stay schema-valid, no reference dangles after any event |
| RepairLaws.RunStaysIndexed | src/whiteboard/repair.ts:396-453 | over every run of loads and observed transactions, whatever they write, every element can be rendered and has a legal index after any event |
| RepairLaws.WholePassIsFixpoint | src/whiteboard/repair.ts:98-207 | a second whole-board pass has an empty plan |
| RepairLaws.WholePassIndices | src/whiteboard/repair.ts:151-183 | after a whole-board pass every index is legal, legal ones are kept, and filled ones lie above them in the order of the ids |
| RepairLaws.RepairKeeps | src/whiteboard/repair.ts:108-149 | no event makes repair remove a file, nor a schema-valid element other than an image whose file the same transaction deleted |
| WhiteboardFields.LostImagesGo | src/whiteboard/repair.ts:112-124 | an element that can be rendered goes in an event exactly when it is an image whose file the transaction deleted |
| RepairLaws.RunKeepsFiles | src/whiteboard/repair.ts:108-149 | over every run the files are as the last transaction left them: repair removes none |
| RepairLaws.RunLosesNothing | src/whiteboard/repair.ts:108-149 | over every run an element goes only when some transaction removes it, makes it schema-invalid or deletes the file of the image it is |
| RepairLaws.PendingImageSurvives | src/whiteboard/repair.ts:108-129 | an image whose file has not arrived survives every run that neither changes it nor deletes that file |
| BoardEdit.ValidateBoardOps | src/whiteboard/boardEdit.ts:91-156 | a batch is accepted exactly when every part is, elements and element ids being judged before files; accepted parts are the normalized ones, index by index |
| BoardEdit.ApplyBoardOpsToDoc | src/whiteboard/boardEdit.ts:175-217 | upserts, tombstones, file deletions and file upserts in place |
| BoardFacts.FilesAre | src/whiteboard/boardEdit.ts:207-216 | after a batch an upserted file reference is there with its fields, a deleted one is gone unless the batch puts it back, and one it does not name is as before |
| BoardFacts.TombstoneIs | src/whiteboard/boardEdit.ts:196-205 | a deletion raises the version by one, takes the nonce of that version and sets the flag; every other field stays |
| BoardFacts.DeletesAre | src/whiteboard/boardEdit.ts:196-205 | a batch deletes exactly the live elements it names, once each |
| BoardFacts.SupersedesIff | src/whiteboard/boardEdit.ts:181-187 | a live element gives way to a greater version or, at the same one, a smaller nonce; what is missing or corrupt to anything |
| BoardFacts.UpsertLands | src/whiteboard/boardEdit.ts:179-194 | an upsert that gets through leaves its fields, one that does not leaves the board as it was |
| BoardFacts.FileRefFields | src/whiteboard/schema/fileRef.ts:82-102 | of a usable file reference a blank type or status and a creation time that is no finite number go; everything else stays |
| BoardFacts.FileRefIff | src/whiteboard/schema/fileRef.ts:82-88 | a file reference is usable exactly with an attachment id and no reserved field |
| BoardFacts.ElementIff | src/whiteboard/boardEdit.ts:91-107 | an element of a batch is accepted exactly if it can be rendered, and comes out normalized without pruning |
| BoardFacts.PartsOk | src/whiteboard/boardEdit.ts:86-153 | what each part of a batch may be: left out, a list of elements, a list of non-empty ids, those of files unreserved, or an object of usable file references under unreserved names |
| BoardFacts.RenderableIff | src/whiteboard/schema/normalize.ts:96-105 | an element can be rendered exactly with an id, a type of the schema and no reserved field |
| BoardFacts.FieldEqualsIff | src/whiteboard/ydoc.ts:31-37 | a field counts as unchanged exactly for the same value, or for an object or array that prints as the same JSON |
| BoardCas.SlotOfUpserts | src/whiteboard/boardEdit.ts:179-197 | what upserts leave under an id depends only on what it held and on the upserts for it |
| BoardCas.HoldsTheMaximum | src/whiteboard/boardEdit.ts:179-197 | an id holds the old value when no upsert supersedes it, and otherwise, in all fields it decides, an upsert that none outranks |
| BoardCas.MaximumIsExactIff | src/whiteboard/boardEdit.ts:179-197 | that upsert is all the id holds exactly when nothing was written last under an inherited name that it lacks |
| BoardCas.ReplayIsNoOp | src/whiteboard/boardEdit.ts:179-197 | replaying a batch changes no field |
| BoardCas.OrderIsIrrelevantIff | src/whiteboard/boardEdit.ts:179-197 | the order of a batch is irrelevant to an id exactly when, field by field, its top upserts agree where they settle the field, and otherwise whatever gets through writes what was there |
| BoardCas.DistinctStampsConvergeIff | src/whiteboard/boardEdit.ts:179-197 | with distinct stamps and nonces of at least one, every permutation of a batch converges exactly when no upsert that may get through brings an inherited field name that the top one lacks, unless with the old value |
| BoardCas.StrayFieldDiverges | src/whiteboard/ydoc.ts:50-58 | two valid elements with distinct stamps that do not: a field `toString` of the lesser one stays when the greater comes last and never appears when it comes first |
| BoardCas.LowNoncesDiverge | src/whiteboard/boardEdit.ts:75-77 | two elements that validation lets through as they are, told apart only by nonces below one, do not converge, because the live nonce is coerced to one |
| BoardCas.UnmentionedUntouched | src/whiteboard/boardEdit.ts:179-197 | ids no upsert names are untouched |
| BoardLaws.BatchTouchesOnly | src/whiteboard/boardEdit.ts:175-217 | an id a batch neither upserts nor deletes keeps what it holds |
| BoardLaws.StampsNeverGoBack | src/whiteboard/boardEdit.ts:175-217 | over every run of batches, deletions included, the stamp under an id only moves forward |
| BoardLaws.DeletionStands | src/whiteboard/boardEdit.ts:199-208 | a tombstone is neither cleared nor altered by any run whose upserts for the id are at or below the deleted version |
| BoardLaws.ReconcileBoardMaps | src/collab/versionRestore.ts:636-660 | a wrong-kind or corrupt target is refused with nothing touched; otherwise both live maps are reconciled to it |
| BoardLaws.RestoreBoard | src/collab/liveRestore.ts:125-139 | a board restore, which does not bump, changes the base-version token exactly when some target entry is missing from the live board or differs from it in a field |
| BoardLaws.RestoreIsExactIff | src/collab/versionRestore.ts:606-625 | a restored entry is the target's, field for field up to field equality, exactly when no live field with an inherited name outlasts a target that lacks it and no empty `__proto__` of the target is taken for inherited; under other names it always is |
| BoardLaws.StrayFieldOutlastsRestore | src/collab/versionRestore.ts:621-623 | a live field `toString` outlasts the restore of an element without one |
| BoardLaws.RestoreIsIdempotent | src/collab/versionRestore.ts:606-625 | a second reconcile leaves every entry identical |
| Migrations.Connection.ExecuteMigrationSql | src/db/migrate.ts:208-213 | statements run in order until one fails or the process dies |
| Migrations.Connection.RunMigrations | src/db/migrate.ts:227-264 | look up, compare checksums, execute, record, for each file in order; the reported lists are the files recorded and skipped |
| MigrationLaws.RunKeepsClean | src/db/migrate.ts:227-264 | when files are safe to run again after any part of themselves, a run stopped anywhere leaves the clean outcome as it was, and a completed run has reached it |
| MigrationLaws.CrashesDoNotShow | src/db/migrate.ts:249-256 | runs dying anywhere followed by one that completes leave the database and ledger of one uninterrupted run |
| MigrationLaws.CrashesInvisibleIff | src/db/migrate.ts:249-256 | a file hides every crash, on every database, exactly when it is safe to run again after any part of itself |
| MigrationLaws.UnsafeFileShows | src/db/migrate.ts:249-256 | a file that is not safe in that sense, and the one crash that shows |
| MigrationLaws.RecordedAfterWhole | src/db/migrate.ts:253-255 | a ledger row is written only right after all statements of its file ran, in order |
| MigrationLaws.EarlierFilesFirst | src/db/migrate.ts:238-257 | whatever is done for a file, every earlier one is in the ledger by then |
| MigrationLaws.FurtherRunDoesNothing | src/db/migrate.ts:239-247 | after a completed run a further one executes and records nothing |
| CanonicalJson.SortKeys | src/ppt/source.ts:111-128 | the rebuilt value denotes the same tree and lists the keys of every object in enumeration order |
| CanonicalJson.DefineKeepsOrder | src/ppt/source.ts:123-125 | keys defined in sorted order end up with array indices first, by value, and the others sorted |
| CanonicalJson.Unique | src/ppt/source.ts:111-128 | two values in that order that denote the same tree are the same value |
| CanonicalText.PrintIsUnambiguous | src/ppt/source.ts:107-109 | distinct values print differently |
| JsonReader.PrintReadsBack | src/ppt/source.ts:107-109 | a reader written from the JSON grammar reads every printed value back, so the text is JSON and its escapes are the right ones |
| JsonReader.CanonicalTextReads | src/ppt/source.ts:101-128 | the canonical text reads back as a canonical value that denotes the same tree |
| CanonicalText.CanonicalDeck | src/ppt/source.ts:101-109 | the text that is hashed is canonical for the deck without its top-level time stamp |
| CanonicalText.DeckTextIsComplete | src/ppt/source.ts:101-128 | two decks have the same canonical text exactly when they are equal as trees with unordered objects, apart from that stamp |
| CanonicalText.KeysAreSortedIff | src/ppt/source.ts:106-128 | the keys of a canonical object are sorted, as the comment has it, exactly when each array index among them also sorts before what is enumerated after it |
| CanonicalText.IndicesAreNotSorted | src/ppt/source.ts:106-128 | the canonical text of an object with keys 10 and 9 is printed with 9 first |
| CanonicalText.IndexIff | src/ppt/source.ts:106-128 | the array indices, which are enumerated first, are the numbers below 2^32 - 1 written without leading zeros |
| PptCreate.StepKeeps | src/api/ppt/docs.ts:157-262 | every step of every request keeps the protocol invariant: complete rows, recorded decks, one holder per key, successes that replay their row |
| PptCreate.OneDeckPerKey | src/api/ppt/docs.ts:182-235 | at most one deck is ever committed per space, user and key |
| PptCreate.SuccessesAgree | src/api/ppt/docs.ts:157-262 | all successes for one key answer the same payload with the same response, so a different payload never succeeds |
| PptCreate.SuccessHasDeck | src/api/ppt/docs.ts:182-262 | every success names a deck that exists and was created for that key and payload |
| PptCreate.RowsAreFinal | src/db/repos/pptIdempotencyRepo.ts:69-143 | a committed row never changes |
| PptCreate.CommittedRowsAnswer | src/api/ppt/docs.ts:157-170 | a committed row is always complete, so reading it yields the stored response or a conflict |
| PptCreate.FinderIsDone | src/api/ppt/docs.ts:157-262 | a request that finds a committed row for its key is done: with the status and response of the row for its payload, with a conflict for another |
| PptCreate.OthersGoOn | src/api/ppt/docs.ts:157-171 | a request that finds no row goes on to reserve its key, and one that rereads always finds a row |
| PptCreate.RetryReplays | src/api/ppt/docs.ts:157-262 | after a success every retry of the same payload ends in that very success |
| PptCreate.UninterruptedCreates | src/api/ppt/docs.ts:174-235 | where no row has the key and nobody holds it, a request that nothing interrupts creates its deck, the row and the answer in five steps |
| PptCreate.FailureFreesTheKey | src/api/ppt/docs.ts:174-262 | a failed attempt leaves no row and no deck, and the key can be reserved again at once |
| PptCreate.NeverInProgress | src/api/ppt/docs.ts:240-262 | a request that finds its key taken rereads a committed row: none is ever told that an identical create is in progress |
| TypstText.InsertSoftBreaks | src/export/renderTypst.ts:135-158 | the loop computes the breaks unit by unit |
| TypstText.EscapingIsUndone | src/export/renderTypst.ts:98-128 | without non-breaking and zero-width spaces in the text, dropping the breaks and unescaping gives it back |
| TypstText.UnescapeUndoesIff | src/export/renderTypst.ts:1137-1139 | unescaping alone gives the text back exactly when no run of the escaped text is long enough to be broken |
| TypstText.NoEscapeIsSplit | src/export/renderTypst.ts:98-158 | in the escaped text every backslash stands directly before the character it escapes, no break parts them, and no special character is left bare |
| TypstText.MarkupIsEscaped | src/export/renderTypst.ts:98-128 | whatever the text, no markup character of the result stands without a backslash |
| TypstText.SpacedAt | src/export/renderTypst.ts:114-117 | a space becomes non-breaking exactly at the start of a line or beside another space |
| TypstText.EscapedRunsFit | src/export/renderTypst.ts:118-128 | runs without white space are whole below forty characters and otherwise broken into pieces of twenty or twenty-one |
| TypstText.ChunksAreShort | src/export/renderTypst.ts:135-158 | between breaks there are twenty or twenty-one characters |

## Left out

- ProseMirror's content fitter, marks, attributes and `check()`: a batch whose splices do not fit the schema trivially is not covered.
- Yjs itself: conflict resolution inside one map key or text, garbage collection, encodings and their sizes.
- Byte-size measurements and caps other than the size cap of the store; the JSON length of a sheet's read payload.
- `normalizeElement` with a set of known files, which no write path passes.
- Versions and nonces beyond the range of exact doubles, and the sign of zero.
- Characters outside the basic plane: the 64-character limit of tab names counts code points, string order compares code units.
- Log lines, request parsing, routes, authorization before a write, rate limits and response formats.
- Drawings and hyperlinks in the protection guard, which does not look at them.
- The broadcast and the flush after a commit, and the safety snapshot of a restore.
- The text and table conversions of sheets and documents other than those above.
- How migration files are split into statements, and the lock and ledger table themselves: runs are taken one after the other.
- The hidden state of a database error other than a rollback, and hash collisions.
- The rest of the Typst renderer and the LaTeX converter.
- Decoding a board version for preview, version listing, retention and the share and role rules, which change no live document.
