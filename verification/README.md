# Models of the editing, layout and navigation logic

This project models six parts of the repository in Dafny and proves what they promise. `dafny verify dfyconfig.toml`
checks all of it.

- **Template expressions and streaming** (`support.js`). `template-scan`, `template-resolve` hold the string evaluator
  and its loops; `template-print` holds expression trees, their printed text and their meaning; `template-round-trip`
  proves that evaluating the text gives the meaning of the tree, and `template-values` what numerals denote.
  `content-key` is the 32-bit hash, `stream-tracker` the tracker with lazy expiry, `registry` and `registry-runtime`
  the component registry as a state machine and as an object that refines it, `registry-history` and `registry-fields`
  what its runs and its events tell of an entry.
- **Floor plans** (`floorplan-panel.tsx`). `room-order` is the breadth-first ordering, `floorplan` the row packing,
  `floorplan-coordinates` the layout at plan coordinates.
- **Document editing** (`document-view.tsx`). `document-sections` is what a view shows of an object,
  `document-protocol` clients with any number of saves outstanding, lost replies and conflicts, against a server with
  optimistic locking and a read model whose version numbers and fields are updated apart. `document-objects` and
  `document-fields` are the steps that keep whole objects, or only the shown fields, as the server had them;
  `document-runs` tells which steps can lead to an unsafe end, `document-conflict` what the server answers and how a
  conflict is resolved, `document-guard` what one operation at a time guarantees, `document-overlap` what two can do.
- **Catalog tree and search** (`data-catalog-tree-model.ts`, `data-catalog-search-model.ts`). `catalog-tree` and its
  companions build the tree from the parent codes, in the order of `sorting`; `catalog-tree-laws` tells what is opened
  and what is below a library. `catalog-search` and `catalog-searcher` filter it, and `catalog-search-theorems` tells
  what is found, opened and shown.
- **Geometry and the body editor** (`align.ts`, `body-editor.tsx`). `align`, `distribute`, `block-text`, `block-move`,
  `block-tree` (what counts as a block), `body-save`, `body-editor-form`.
- **Relations** (`ana-comparison.ts`, `bi-view-model.ts`, `diagram-panel.tsx`). `relation-path`, `diagram-relations`,
  `diagram-inference` (which relation a connection makes), `diagram-load` (queries answered at different moments),
  `diagram-list` and `diagram-events` (what each event does).

Code that updates variables or fields is a method or a class, proved equal to a specification function; the theorems
are about these functions and about whole runs of events.

## Where the code does not do what one would expect

Each point is a theorem with the exact condition or a concrete run.

- A quoted string that contains an equality outside brackets is split at it (`LiteralKept`, `LiteralSplit`), and one
  that leaves a bracket open hides the operator behind it (`OperandKept` says when a written operator is found).
- Properties that come with a file that sets no template are taken over without a new version (`QuietExactly`).
- Rooms that only touch in the plan can overlap by one pixel: `OverlapExactly` says when, `OverlapHappens` gives
  rooms.
- The read model writes the fields of an object and its version number in separate transactions
  (`ReadModelProjection.java:87-115`, `ReadModelRepository.java:93-128`), and the number can arrive first
  (`OutboxRelay.java:54`). Read with the newest number and an older field, an object can be saved, and a value nobody
  had read at this client is discarded (`DiscardsExactly` says when, `NewNumberLosesWrite` gives the run). The other
  way round only conflicts follow (`OldNumberRefused`).
- The comment at `update-single-field.ts:27-31` and the client assume that every accepted save adds a version. The
  kernel adds one only if a value changed (`UpdateFieldsHandler.java:76-87` and `148-152`), and the document then runs
  one version ahead and can discard another user's write (`UnchangedSaveLosesWrite`, and `IdleLosesWrite` from every
  state with such a save).
- Every field of a document is edited on its own, so two operations of one client on one object can overlap. A reply
  that comes after the object was read again can leave a view of a state the server never had (`ReplyOntoOther` says
  when, `OverlapGoesWrong` gives the run), and after an old reading it leads to a discarded write
  (`StaleReadLosesWrite`).
- Loading a document shows derived values, refreshing an object after a conflict does not: a field that is only
  derived goes blank (`RefreshShowsLoad` says when, `RefreshBlanksDerived`).
- A record with a code and an empty name has an empty label in the catalog (`BlankLabelExactly`).
- Directories on a cycle of parents, or leading into one, make some directory appear twice (`OnceIffChainsEnd`).
- Text typed while a save of the body is in flight is dropped when the save succeeds (`AnswerLosesEdits`).
- A connection is shown after the reply to its command; when a reload has already shown the relation, the list holds
  it twice (`ShownDistinct`, `AttemptCanRepeat`). A relation that is deleted and made again while a load is under way
  can be loaded twice (`LoadedDistinctExactly` says when, `RootCanDisagree`).
- The kernel can move a relation to other ends under its id (`UpdateRelationHandler.java:57-75`). A load that is under
  way can then return its old state although it has read the new one (`OldStateWins`), and a merge leaves both states
  in the list (`MergeIdsExactly` says when, `MovedStays`).

For documents, `CarefulExactly` says of every step of the model whether cached objects, or writes, can still go wrong
after it when all later steps are careful.

Two more conditions are met by the ids that the kernel issues, which are distinct UUIDs: rooms that share an id, or
one with an empty id, would be lost by the ordering (`OrderRooms`), and ids that hold the separators of the diagram's
merge key could make a merge lose a relation (`MergeKeepsExactly`, `KeysCanCollide`, `UuidsMerge`).

## Model

| member | source | states |
|---|---|---|
| Text.TrimExactly | docs/design/design-new/project/support.js:206 | trimming gives a text if and only if the original is that text between some white space on both sides, and the text itself is empty or has no white space at its ends |
| Text.SpaceExactly | docs/design/design-new/project/support.js:206 | the characters that trimming removes, one by one |
| TemplateScan.ParensWrapWhole | docs/design/design-new/project/support.js:237-247 | true exactly when the count of open round brackets stays positive at every inner position, so the outer pair encloses everything |
| TemplateScan.FindTopLevelEquality | docs/design/design-new/project/support.js:248-262 | the loop returns the leftmost place where an equality operator stands outside all brackets, is not the tail of a longer operator and has something to its left, with the operator read there |
| TemplateScan.SplitFrom | docs/design/design-new/project/support.js:248-262 | no admissible split lies before the one returned, and one is returned whenever one exists |
| TemplateScan.OperatorAt | docs/design/design-new/project/support.js:257 | the operator returned is spelled at the split |
| TemplateScan.HalvesOf | docs/design/design-new/project/support.js:211-214 | the two operand texts are strictly shorter than the whole, which is left, operator, right put together |
| TemplateScan.IdentExactly | docs/design/design-new/project/support.js:203 | an identifier starts with a Latin letter, an underscore or a dollar sign, and goes on with these and digits |
| TemplateScan.FindBracketText | docs/design/design-new/project/support.js:275-286 | the loop returns the text up to the square bracket that closes the one before it, or nothing when none does |
| TemplateRoundTrip.SegmentExactly | docs/design/design-new/project/support.js:268-291 | one turn of the path loop goes on to a position and a value if and only if a dot with a whole name or a bracket with a whole key leads to exactly these; otherwise the path gives up |
| TemplateResolve.Evaluate | docs/design/design-new/project/support.js:205-236 | the evaluator ends on every text and returns what the specification function gives |
| TemplateResolve.EvaluateTrimmed | docs/design/design-new/project/support.js:208-235 | a wrapped text is evaluated inside, a text with an equality is split, and any other is one unit |
| TemplateResolve.EvaluateHalves | docs/design/design-new/project/support.js:213-224 | both operands are evaluated, then compared by the operator |
| TemplateResolve.SplitAtEquality | docs/design/design-new/project/support.js:211-214 | the operands of the leftmost top-level equality |
| TemplateResolve.EvaluateUnit | docs/design/design-new/project/support.js:226-235 | negation, keyword, number, quoted text or path, tried in that order |
| TemplateResolve.EvaluatePath | docs/design/design-new/project/support.js:263-294 | the path loop, position and value updated in place, reaches the value of the path, which the laws of `PathHead`, `PathDot` and `PathKey` give step by step |
| TemplateResolve.EvaluateSegment | docs/design/design-new/project/support.js:268-291 | one turn of that loop |
| TemplateResolve.EvaluateKey | docs/design/design-new/project/support.js:274-288 | a bracketed key is evaluated as an expression of its own |
| TemplateShape.PrintShape | docs/design/design-new/project/support.js:237-262 | the printed text of a tree is balanced in every kind of bracket, and only an equality has an operator outside brackets |
| TemplateRoundTrip.BracketTextAt | docs/design/design-new/project/support.js:275-286 | the bracket scanner stops at the bracket printed with the key, whatever is around it |
| TemplateRoundTrip.SplitAt | docs/design/design-new/project/support.js:248-262 | in left operand, operator and rest, the only split in the left part is at its end: never inside brackets |
| TemplateRoundTrip.HalvesAt | docs/design/design-new/project/support.js:211-214 | the two printed operands and the operator are read back |
| TemplateRoundTrip.OperandKept | docs/design/design-new/project/support.js:211-262 | whatever stands left of a written operator, a string literal included, is split off intact if and only if it closes as many brackets as it opens and holds no split itself |
| TemplateRoundTrip.EqualNotWrapped | docs/design/design-new/project/support.js:208-210 | two operands are not one wrapped expression even when they begin and end with round brackets |
| TemplateRoundTrip.GroupWrapped | docs/design/design-new/project/support.js:208-210 | one balanced text in round brackets is |
| TemplateRoundTrip.ResolvePadded | docs/design/design-new/project/support.js:206 | white space around a text does not change its value |
| TemplateRoundTrip.ResolveGroup | docs/design/design-new/project/support.js:208-210 | a bracketed text has the value of what is inside |
| TemplateRoundTrip.ResolveEqual | docs/design/design-new/project/support.js:211-225 | a printed equality compares the values of its operands |
| TemplateRoundTrip.ResolveNot | docs/design/design-new/project/support.js:226 | a printed negation negates the value of its operand |
| TemplateRoundTrip.ResolveText | docs/design/design-new/project/support.js:232-234 | a quoted text without top-level equality is its body |
| TemplateRoundTrip.ResolveNumber | docs/design/design-new/project/support.js:231 | a numeral is its number |
| TemplateRoundTrip.DotTurn | docs/design/design-new/project/support.js:269-273 | the loop reads a printed name in full and goes on with the property of that name that the host reads from the owner, or undefined |
| TemplateRoundTrip.KeyTurn | docs/design/design-new/project/support.js:274-288 | the loop reads a printed key in full and goes on with the property that its value names, or undefined |
| TemplateRoundTrip.PathHead | docs/design/design-new/project/support.js:263-266 | a name that is no keyword resolves to the property of that name that the host reads from the given values, and to undefined when these are undefined or null |
| TemplateRoundTrip.PathDot | docs/design/design-new/project/support.js:269-273 | behind any printed path a dot and a name resolve to the property of that name that the host reads from the value of the path, and to undefined when that is undefined or null |
| TemplateRoundTrip.PathKey | docs/design/design-new/project/support.js:274-288 | behind any printed path a bracketed expression resolves to the property that the value of the expression names, read in the same way |
| TemplateRoundTrip.NotMeaning | docs/design/design-new/project/support.js:226 | a printed negation is true exactly when its operand is undefined, null, false, zero, NaN or the empty text |
| TemplateRoundTrip.EqualMeaning | docs/design/design-new/project/support.js:211-225 | a printed comparison tells whether the values of its operands are identical (of one kind with the same content, or the same object), or loosely equal, or not |
| TemplateRoundTrip.NothingReadable | docs/design/design-new/project/support.js:264-265 | a text that starts like none of the forms resolves to undefined |
| TemplateRoundTrip.BlankResolves | docs/design/design-new/project/support.js:206-207 | a text of white space resolves to undefined |
| TemplateRoundTrip.StepsMeaning | docs/design/design-new/project/support.js:263-294 | the path loop over printed steps gives the value of the steps |
| TemplateRoundTrip.Meaning | docs/design/design-new/project/support.js:205-294 | evaluating the printed text of any printable tree gives the meaning of the tree, which is defined without the evaluator's operations on values |
| TemplateRoundTrip.RoundTrip | docs/design/design-new/project/support.js:205-294 | the same with any white space around it: the text evaluator and the tree evaluator agree |
| TemplateRoundTrip.LiteralKept | docs/design/design-new/project/support.js:211-234 | a quoted literal keeps its text if and only if the equality scanner finds no split in it |
| TemplateRoundTrip.LiteralSplit | docs/design/design-new/project/support.js:211-234 | the literal "a==b" is taken for a comparison of two undefined values |
| TemplateValues.DecimalPoint | docs/design/design-new/project/support.js:204-231 | moving the decimal point of a numeral to its end gives the number that all its digits are worth at their places |
| TemplateValues.WholeNumber | docs/design/design-new/project/support.js:204-231 | a run of digits denotes what its digits are worth at their places |
| TemplateValues.NumeralExactly | docs/design/design-new/project/support.js:204-231 | a text is taken for a numeral if and only if it is digits with at most one point between them, and at most a minus in front |
| TemplateValues.DigitExactly | docs/design/design-new/project/support.js:203-204 | the digits are the ten decimal ones |
| TemplateValues.MinusNegates | docs/design/design-new/project/support.js:204-231 | a leading minus negates |
| TemplateRoundTrip.InequalityNegates | docs/design/design-new/project/support.js:211-226 | written between the same operands, an inequality evaluates to the same as a written negation of the equality |
| TemplateRoundTrip.IdenticalTurned | docs/design/design-new/project/support.js:215-224 | written strict equality does not depend on the order of its operands, and an expression is identical to itself unless its value is NaN |
| ContentKey.Hash | docs/design/design-new/project/support.js:680-681 | the loop with its 32-bit wrap at every turn returns the base-33 polynomial of the code units with seed 5381, modulo 2 to the 32, for every length |
| ContentKey.ContentKey | docs/design/design-new/project/support.js:679-682 | the key is the length, a dot and that hash in base 36 |
| ContentKey.KeyReads | docs/design/design-new/project/support.js:679-682 | a key is two numerals with a dot between them: the first reads as the length in base 10, the second as the hash in base 36 |
| ContentKey.RenderReads | docs/design/design-new/project/support.js:682 | the rendered digits, read in their base, give the number back, and start with a zero only for zero |
| ContentKey.FirstHashes | docs/design/design-new/project/support.js:680-681 | the hash starts from 5381, and one code unit is added to 33 times that |
| ContentKey.SameKey | docs/design/design-new/project/support.js:680-682 | two contents have the same key if and only if they have the same length and their polynomials agree modulo 2 to the 32 |
| ContentKey.OneEditChangesKey | docs/design/design-new/project/support.js:680-682 | changing one code unit always changes the key |
| ContentKey.RenderInjective | docs/design/design-new/project/support.js:682 | different numbers are rendered differently |
| StreamTracking.StreamTracker.Push | docs/design/design-new/project/support.js:1610-1614 | a push extends the history, and stored times keep agreeing with it |
| StreamTracking.StreamTracker.LiveOne | docs/design/design-new/project/support.js:1600-1616 | a name is live exactly when its last push not tagged dc-model was streaming and is at most staleMs old; a stale name is forgotten |
| StreamTracking.StreamTracker.LiveAny | docs/design/design-new/project/support.js:1617-1618 | with one clock reading, true exactly when some name is live; false means no name is live then or later |
| StreamTracking.LastPushIsLatest | docs/design/design-new/project/support.js:1610-1614 | the last push the specification speaks of is in the history and no relevant push follows it |
| StreamTracking.LiveOnlyFades | docs/design/design-new/project/support.js:1603-1606 | without pushes, a name that is live was live before |
| Registry.UpdateHtmlKeeps | docs/design/design-new/project/support.js:1493-1506 | setting a template keeps the invariant and moves the entry to a new version |
| Registry.UpdateJsKeeps | docs/design/design-new/project/support.js:1507-1510 | starting an evaluation keeps the invariant; one started by a fetch finds no class |
| Registry.EndEvaluationKeeps | docs/design/design-new/project/support.js:1511-1529 | the end of an evaluation keeps the invariant and moves the entry forward |
| Registry.SetStreamingKeeps | docs/design/design-new/project/support.js:1531-1545 | setting a flag keeps the invariant, so the page flag still tells whether some entry streams; which flag is set to what is told by `RegistryFields.EntryExactly` |
| Registry.CompleteFetchKeeps | docs/design/design-new/project/support.js:1480-1483 | completing a fetch keeps the invariant |
| Registry.PushHtmlKeeps | docs/design/design-new/project/support.js:1546-1550 | a pushed template keeps the invariant |
| Registry.PushJsKeeps | docs/design/design-new/project/support.js:1551-1553 | a pushed script keeps the invariant |
| Registry.PushPropsKeeps | docs/design/design-new/project/support.js:1554-1559 | pushed properties keep the invariant |
| Registry.AdoptParsedKeeps | docs/design/design-new/project/support.js:1566-1573 | adopting a parsed file keeps the invariant |
| Registry.EnsureFetchedKeeps | docs/design/design-new/project/support.js:1448-1451 | issuing a fetch keeps the invariant: no name is fetched twice |
| Registry.StepKeeps | docs/design/design-new/project/support.js:1448-1587 | every event keeps the invariant and moves every entry forward |
| Registry.RunKeeps | docs/design/design-new/project/support.js:1448-1587 | so does every interleaving of events |
| Registry.RunSafe | docs/design/design-new/project/support.js:1448-1545 | in every run each name is fetched at most once, and the page flag tells whether some entry streams |
| Registry.RunAdvances | docs/design/design-new/project/support.js:1412-1416 | between any two moments of a run versions only grow, and stay only while template, logic and streaming flags stay |
| RegistryHistory.QuietExactly | docs/design/design-new/project/support.js:1480-1569 | the properties of an entry, from which the root takes defaults, change without a new version if and only if a completing fetch or an adopted file brings other properties and sets no template |
| Registry.EndFetchFills | docs/design/design-new/project/support.js:1480-1483 | a completing fetch sets a template only where there was none, and no class |
| Registry.FetchReplacesNothing | docs/design/design-new/project/support.js:1480-1517 | in every run neither a completing fetch nor the evaluation it started replaces a non-empty template or an installed class |
| Registry.PushedTemplateWins | docs/design/design-new/project/support.js:1482-1550 | in every run the template shown is the last non-empty one pushed, and else empty or a fetched one |
| RegistryFields.EntryExactly | docs/design/design-new/project/support.js:1400-1573 | every event changes the entry it is about field by field as written down in one record, and no other entry |
| RegistryFields.FlagsAsPushed | docs/design/design-new/project/support.js:1531-1553 | in every run each streaming flag of a name is that of the last push of its kind for the name, and false when there is none |
| RegistryFields.PageAsPushed | docs/design/design-new/project/support.js:1535-1543 | in every run the page flag is set if and only if the last template or the last script pushed for some name was streaming |
| RegistryFields.FetchesExactly | docs/design/design-new/project/support.js:1448-1483 | a fetch is issued exactly when a name is asked for that is not marked, and it is pending until it completes |
| RegistryFields.FetchIssued | docs/design/design-new/project/support.js:1448-1547 | in every run a fetch was issued for a name if and only if the name was asked for before a streaming push or a mark claimed it |
| RegistryFields.RunningExactly | docs/design/design-new/project/support.js:1482-1573 | an event starts an evaluation, with the next number of its name, exactly when it pushes a complete script, adopts a file with a script, or completes a fetch with a script while no class is installed; only the end of an evaluation ends it |
| RegistryHistory.InstalledInOrder | docs/design/design-new/project/support.js:1507-1529 | of two classes installed for a name the later one is from the evaluation that was started later |
| RegistryHistory.NewestClassWins | docs/design/design-new/project/support.js:1507-1529 | in every run a name has no class until one is installed, and then the class of the installing evaluation with the greatest number |
| RegistryRuntime.Runtime.Entry | docs/design/design-new/project/support.js:1400-1411 | the entry of a name, created fresh when it is new |
| RegistryRuntime.Runtime.BumpVersion | docs/design/design-new/project/support.js:1412-1416 | adds one to the version of one entry |
| RegistryRuntime.Runtime.UpdateTemplate | docs/design/design-new/project/support.js:1493-1506 | refines the event: sets the template and adds a version |
| RegistryRuntime.Runtime.StartLogic | docs/design/design-new/project/support.js:1507-1509 | refines the start of an evaluation with the next number |
| RegistryRuntime.Runtime.EndLogic | docs/design/design-new/project/support.js:1511-1529 | refines its end, by outcome |
| RegistryRuntime.Runtime.AnyStreams | docs/design/design-new/project/support.js:1535-1542 | the loop finds whether some entry has a flag set |
| RegistryRuntime.Runtime.SetFlag | docs/design/design-new/project/support.js:1531-1545 | refines setting a streaming flag to the given value, and the page flag with it |
| RegistryRuntime.Runtime.EnsureFetchedOnce | docs/design/design-new/project/support.js:1448-1451 | refines issuing a sibling fetch |
| RegistryRuntime.Runtime.FetchCompleted | docs/design/design-new/project/support.js:1469-1483 | refines the completion of a fetch |
| RegistryRuntime.Runtime.AdoptMetadata | docs/design/design-new/project/support.js:1480-1481 | takes over properties and preview that are given |
| RegistryRuntime.Runtime.ClaimName | docs/design/design-new/project/support.js:1547 | a streaming push marks the name as fetched |
| RegistryRuntime.Runtime.UpdateScript | docs/design/design-new/project/support.js:1551-1553 | refines a pushed script: evaluated only when it is complete |
| RegistryRuntime.Runtime.UpdateProps | docs/design/design-new/project/support.js:1554-1559 | refines pushed properties |
| RegistryRuntime.Runtime.Update | docs/design/design-new/project/support.js:1546-1561 | refines a push of any kind |
| RegistryRuntime.Runtime.AdoptFile | docs/design/design-new/project/support.js:1566-1573 | refines adopting a parsed file |
| RoomOrder.BuildGraph | packages/web/src/workbench/floorplan-panel.tsx:381-388 | the adjacency graph joins two rooms exactly when a relation between known rooms does, in either direction |
| RoomOrder.SortIds | packages/web/src/workbench/floorplan-panel.tsx:393-428 | every id once; of two known rooms the earlier one has at least as many neighbours, and where they have as many its title comes first |
| RoomOrder.NeighboursNext | packages/web/src/workbench/floorplan-panel.tsx:404-410 | unseen neighbours of the room taken from the queue are exactly one step further from the start |
| RoomOrder.AllFound | packages/web/src/workbench/floorplan-panel.tsx:399-411 | once all nearer rooms are expanded, every room within a distance is found |
| RoomOrder.FrontierStep | packages/web/src/workbench/floorplan-panel.tsx:399-411 | one turn of the queue keeps the discovery list ordered by exact distance |
| RoomOrder.FrontierDone | packages/web/src/workbench/floorplan-panel.tsx:399-411 | when the queue is empty the list is a whole component, nearest rooms first |
| RoomOrder.FoundFromStep | packages/web/src/workbench/floorplan-panel.tsx:404-410 | one turn of the queue keeps rooms in the order of the rooms they are found from, and those found from one room sorted |
| RoomOrder.Walk | packages/web/src/workbench/floorplan-panel.tsx:397-411 | the queue loop lists the component of its start, nearest first, in the order of the rooms from which rooms are found and sorted among those found from one, and removes it from the unvisited rooms |
| RoomOrder.VisitNext | packages/web/src/workbench/floorplan-panel.tsx:392-411 | one turn of the outer loop starts at a room no unvisited room precedes |
| RoomOrder.VisitAll | packages/web/src/workbench/floorplan-panel.tsx:389-413 | the outer loop lists every component |
| RoomOrder.OrderRooms | packages/web/src/workbench/floorplan-panel.tsx:377-414 | one block per component; each starts at a room that has at least as many neighbours as any room of its own and of later blocks, and of those with as many one whose given title comes first; rooms are ordered by distance from the start, then by the place of the room each is first adjacent to, and of neighbouring places found from one room the first has at least as many neighbours, and where they have as many the title that comes first; of rooms with one id the last given is kept; the result is a permutation of the rooms if and only if ids are distinct and none is empty |
| RoomOrder.PermutationWhen | packages/web/src/workbench/floorplan-panel.tsx:381-414 | the exact condition for the permutation |
| Floorplan.RoomSize | packages/web/src/workbench/floorplan-panel.tsx:430-459 | a room is 108..230 by 78..172, or 118..238 by 82..168 in the technical profile |
| Floorplan.DrawnToScale | packages/web/src/workbench/floorplan-panel.tsx:453-458 | an interior room is drawn 34 pixels to the metre within half a pixel, length across and width down, 3.2 by 2.8 metres where a measure is not given or not positive, and at the bound when that is out of range |
| Floorplan.PowerGrows | packages/web/src/workbench/floorplan-panel.tsx:437-451 | of two technical rooms the one of more power is drawn no smaller, in width and in height |
| Floorplan.DrawnToPower | packages/web/src/workbench/floorplan-panel.tsx:437-451 | a technical room is drawn 118 and 82 pixels plus 7.5 and 4.125 times the root of its power, within half a pixel, and at the bound when that is out of range |
| Floorplan.Clamp | packages/web/src/workbench/floorplan-panel.tsx:547-549 | the result is in the range, and is the value itself when that is |
| Floorplan.PackRooms | packages/web/src/workbench/floorplan-panel.tsx:265-300 | the packing loop places the rooms in order in rows, each next to the one before when it fits and else at the start of a row below the tallest room; the canvas is as wide as the widest row and ends one inset below the last |
| Floorplan.PlaceNext | packages/web/src/workbench/floorplan-panel.tsx:270-293 | placing one room keeps the row structure and the cursor in step with it |
| Floorplan.RoomsApart | packages/web/src/workbench/floorplan-panel.tsx:270-293 | any two rooms are at least 14 apart, sideways in one row and downwards in different rows |
| Floorplan.NextRow | packages/web/src/workbench/floorplan-panel.tsx:282-293 | a room that does not fit any more is drawn below every room before it |
| Floorplan.RoomsInside | packages/web/src/workbench/floorplan-panel.tsx:265-300 | every room lies within x 20..780, below the header and above the bottom inset |
| Floorplan.CanvasWidth | packages/web/src/workbench/floorplan-panel.tsx:268-297 | the fallback canvas is 780..814 wide |
| Floorplan.CanvasExactly | packages/web/src/workbench/floorplan-panel.tsx:268-297 | the canvas is 780 wide or 34 more than where some room ends, whichever is most |
| Floorplan.BottomReached | packages/web/src/workbench/floorplan-panel.tsx:282-298 | the rows end where some room ends and none ends below |
| Floorplan.RowHeightReached | packages/web/src/workbench/floorplan-panel.tsx:282-292 | the height of a row is that of its tallest room so far |
| FloorplanCoordinates.Margins | packages/web/src/workbench/floorplan-panel.tsx:317-350 | in the coordinate layout every room keeps 20 pixels at its near sides and at least 19 at its far sides, despite rounding |
| FloorplanCoordinates.SideBySide | packages/web/src/workbench/floorplan-panel.tsx:332-346 | rooms separated along an axis of the plan overlap by at most one pixel on that axis |
| FloorplanCoordinates.OverlapExactly | packages/web/src/workbench/floorplan-panel.tsx:332-346 | of two rooms side by side in the plan the drawings overlap, by one pixel, if and only if what the two roundings and the gap leave over is less than half a pixel; and a pixel stays free between them if and only if it is one and a half or more |
| FloorplanCoordinates.OverlapExactlyDown | packages/web/src/workbench/floorplan-panel.tsx:332-346 | the same for rooms one behind the other, with the y axis turned over |
| FloorplanCoordinates.OverlapHappens | packages/web/src/workbench/floorplan-panel.tsx:253-346 | three rooms with ids and measures of their own, drawn by their coordinates, of which two that only touch in the plan overlap by one pixel |
| FloorplanCoordinates.WithinHalfPixel | packages/web/src/workbench/floorplan-panel.tsx:332-346 | every room is drawn within half a pixel of its exact place and size, with the y axis turned over |
| FloorplanCoordinates.PlansOf | packages/web/src/workbench/floorplan-panel.tsx:314-315 | plan coordinates exist for all rooms or the layout is not used |
| FloorplanCoordinates.ModeExactly | packages/web/src/workbench/floorplan-panel.tsx:253-315 | coordinates are used if and only if the profile is interior and there are rooms and all have a corner that is not negative and sides that are positive |
| FloorplanCoordinates.DrawnFromMeasures | packages/web/src/workbench/floorplan-panel.tsx:314-372 | every room is drawn within half a pixel of where its own fields put it, 56 pixels to the metre from the least `plan_x` and the greatest upper edge of all rooms, and the canvas is 40 pixels larger than the plan, which counts as a metre at least, or 360 by 240 |
| FloorplanCoordinates.DrawRooms | packages/web/src/workbench/floorplan-panel.tsx:253-315 | an interior whose rooms all have coordinates is drawn at them, and everything else in rows |
| FloorplanCoordinates.DrawsAll | packages/web/src/workbench/floorplan-panel.tsx:265-346 | a drawing shows every room once, in order, with the selected one marked |
| FloorplanCoordinates.BuildFloorplanRooms | packages/web/src/workbench/floorplan-panel.tsx:241-301 | ordering and drawing together: the rooms drawn are the rooms given, each once, if and only if ids are distinct and none is empty |
| Floorplan.PackedNext | packages/web/src/workbench/floorplan-panel.tsx:270-293 | one turn of the packing loop |
| DocumentSections.BuiltConsistent | packages/views/src/document/document-view.tsx:258-284 | a loaded section shows the stored values of its object, and nothing but derived values where none is stored |
| DocumentSections.ReplaceFieldConsistent | packages/views/src/document/document-view.tsx:426-445 | so it does after a field is replaced |
| DocumentSections.ReplaceObjectConsistent | packages/views/src/document/document-view.tsx:451-464 | so it does after the object is replaced |
| DocumentSections.RefreshShowsLoad | packages/views/src/document/document-view.tsx:451-464 | a refresh shows what a load of the same object would show if and only if no shown field has only a derived value |
| DocumentSections.RefreshBlanksDerived | packages/views/src/api/view-client.ts:63-69 | refreshing a loaded section with the very object it shows blanks a field whose value is derived |
| DocumentProtocol.DiscardsExactly | packages/kernel/src/main/java/com/mnext/kernel/internal/UpdateFieldsHandler.java:59-99 | serving a save discards a value its writer had not read if and only if the save names the newest version of an open object, the value there is not the one that was read, and it is not the one that is saved |
| DocumentProtocol.UnseenExactly | packages/kernel/src/main/java/com/mnext/kernel/internal/UpdateFieldsHandler.java:59-99 | the same for the whole content: it is replaced unread if and only if the save names the newest version of an open object, the content there is not the one that was read, and the write counts |
| DocumentProtocol.AdoptionExact | packages/kernel/src/main/java/com/mnext/kernel/internal/UpdateFieldsHandler.java:76-99 | the version a client adopts after an accepted save exists if and only if the value counted as a change |
| DocumentProtocol.OpenReading | packages/server/src/main/java/com/mnext/server/ReadModelProjection.java:87-125 | while an object is open every reading says so, whatever versions its fields are from |
| DocumentObjects.AcceptedSound | packages/views/src/api/update-single-field.ts:27-53 | an accepted save of an object read as a snapshot replaced what its writer had read, and the object the client will adopt is the server's next version |
| DocumentObjects.ReplyExact | packages/views/src/document/document-view.tsx:426-445 | applying an accepted save to a section leaves an object the server had if and only if the section still shows what the save started from, outside the saved field |
| DocumentObjects.AppliedExact | packages/views/src/document/document-view.tsx:426-445 | so all sections of a client show objects the server had if and only if every section of that object does |
| DocumentObjects.ReceiveKeeps | packages/views/src/document/document-view.tsx:402-445 | then applying the reply keeps the client faithful to the server |
| DocumentObjects.AnswerKeeps | packages/views/src/document/document-view.tsx:486-535 | so does resolving a conflict: with the server's object when that is a snapshot, however old, and with the user's value when the reading has what the server would take for seen |
| DocumentObjects.StepKeeps | packages/views/src/document/document-view.tsx:384-535 | every step that is careful about whole objects keeps the invariant, with any number of clients and of operations outstanding on one object |
| DocumentFields.AcceptedSound | packages/kernel/src/main/java/com/mnext/kernel/internal/UpdateFieldsHandler.java:59-99 | an accepted save of a reading with mixed versions discards nothing unseen when the value read is the server's or the one that is saved |
| DocumentFields.ReceivedUpToDate | packages/views/src/document/document-view.tsx:402-464 | after a reply every field that can be edited is as the server has it, where the server would accept a save, if and only if the other fields were |
| DocumentFields.StepKeeps | packages/views/src/document/document-view.tsx:384-535 | every step that is careful about shown fields keeps the invariant, with any readings the read model can show |
| DocumentRuns.RunSafe | packages/views/src/document/document-view.tsx:384-535 | in every run that is careful about whole objects every cached object is the server's state at its cached version and no stored write replaced a content its writer had not read; in every run that is careful about shown fields no write discards a value unseen |
| DocumentRuns.CarefulExactly | packages/views/src/document/document-view.tsx:384-535 | for both: in every state with the invariant a step is careful if and only if no careful steps after it can end unsafely |
| DocumentRuns.OldNumberRefused | packages/server/src/main/java/com/mnext/server/ReadModelRepository.java:93-128 | a reading whose number is older than its fields can only lead to conflicts: in every run, a save that names an outdated number writes nothing, and gets a conflict while the object is open and a refusal once it is closed |
| DocumentConflict.ReplyExactly | packages/kernel/src/main/java/com/mnext/kernel/internal/UpdateFieldsHandler.java:59-71 | a save is refused if and only if its object is missing or closed, gets a conflict if and only if the object is open and the save does not name its newest version, and is accepted otherwise; unless it is accepted nothing changes on the server |
| DocumentConflict.AcceptedExactly | packages/kernel/src/main/java/com/mnext/kernel/internal/UpdateFieldsHandler.java:76-99 | an accepted save adds one version, with its value in its field and the rest as it was, unless the value is there already and the server compares |
| DocumentConflict.ConflictShown | packages/views/src/document/document-view.tsx:402-415 | from every state in which an open save names an outdated version of an open object, serving and delivering it shows the conflict of its field, ends the save, and changes nothing else |
| DocumentConflict.OverrideWins | packages/views/src/document/document-view.tsx:486-535 | when the conflict of a field is shown and the object was read again under its newest number, the user's value can be sent again, is accepted, is then the newest value of the field, and is shown; the dialog closes |
| DocumentConflict.ConflictWon | packages/views/src/document/document-view.tsx:402-535 | both together, from every state with such a save |
| DocumentConflict.CurrentShown | packages/views/src/document/document-view.tsx:451-508 | giving in shows the stored values of the object that was read in every section of the object, closes the dialog, and writes nothing |
| DocumentConflict.RefusedDropped | packages/views/src/document/document-view.tsx:416-420 | a save of a missing or closed object ends without a dialog and changes neither the server nor the view |
| DocumentConflict.LostDropped | packages/views/src/document/document-view.tsx:416-420 | a save whose reply is lost ends in the same way |
| DocumentConflict.StartExactly | packages/views/src/api/update-single-field.ts:34-51 | a save can be started exactly for a shown field that may be written, of an object not shown as deleted, with a value of the kind of the field, and names the object that is shown |
| DocumentRuns.NewNumberLosesWrite | packages/server/src/main/java/com/mnext/server/ReadModelProjection.java:87-115 | from every state, an object read with the newest number and an older value of a field can be loaded, and saving the field discards the newest value unseen |
| DocumentRuns.IdleLosesWrite | packages/kernel/src/main/java/com/mnext/kernel/internal/UpdateFieldsHandler.java:76-153 | from every state with a save outstanding that the server accepts without adding a version, careful steps lead to a write that discards the value another user wrote |
| DocumentGuard.GuardedCareful | packages/views/src/document/document-view.tsx:384-535 | with one operation per client and object at a time and readings that are snapshots, a step that hands in a changed value is careful |
| DocumentGuard.GuardedRunSafe | packages/views/src/document/document-view.tsx:384-535 | so every run is safe in which each client has one operation per object at a time, readings are snapshots, and saves hand in a changed value, or any value when the server counts every write |
| DocumentOverlap.ReplyOntoOther | packages/views/src/document/document-view.tsx:384-464 | in every state: an accepted save is on its way, the object is read again at any version and the reply comes; the view then shows a state the server had if and only if the reading agrees with the save's start outside the saved field |
| DocumentOverlap.OverlapGoesWrong | packages/views/src/document/document-view.tsx:384-464 | from every state with an up-to-date object: saving one shown field while another user writes another and the object is read again ends with a view of a state the server never had |
| DocumentOverlap.StaleReadLosesWrite | packages/views/src/document/document-view.tsx:384-464 | and when it is an old snapshot that is read again, the next save of the other field discards its newest value unseen |
| DocumentOverlap.UnchangedSaveLosesWrite | packages/kernel/src/main/java/com/mnext/kernel/internal/UpdateFieldsHandler.java:76-153 | when unchanged values do not count, saving a field as it is leads, from every state with an up-to-date object, to a run whose last write discards a value unseen |
| CatalogTreeBuilder.ChildrenAmongAppend | packages/web/src/unisource/data/data-catalog-tree-model.ts:69-76 | a directory is put behind the children of its own parent that came before it, once, and changes no other list |
| CatalogTree.ParentExactly | packages/web/src/unisource/data/data-catalog-tree-model.ts:69-75 | a directory is put under another one if and only if its parent code is that one's code and not empty, and its parent is lost if and only if it names one that is not there |
| CatalogTree.DirectoriesSorted | packages/web/src/unisource/data/data-catalog-tree-model.ts:299-304 | sorting directories gives the same directories, ordered by sort order and then by code |
| CatalogTree.LibrariesSorted | packages/web/src/unisource/data/data-catalog-tree-model.ts:306-312 | so does sorting libraries |
| Sorting.SortStable | packages/web/src/unisource/data/data-catalog-tree-model.ts:299-312 | directories, libraries or nodes that the order does not tell apart keep the order they came in |
| CatalogTree.Shrinks | packages/web/src/unisource/data/data-catalog-tree-model.ts:97-115 | entering a directory leaves fewer codes that are not ancestors, so building ends on every parent list |
| CatalogTreeTheorems.EveryDirectoryBuilt | packages/web/src/unisource/data/data-catalog-tree-model.ts:97-154 | whatever the parent codes are, the code of every directory is built somewhere in the tree; of directories that share a code the source may build only one |
| CatalogTreeTheorems.TreeInPlace | packages/web/src/unisource/data/data-catalog-tree-model.ts:97-229 | every directory node carries the name of a directory of its code and is at the top or under that directory's own parent; it is marked as unresolvable when it is only named, and else noted if and only if its code has a lost parent, or marked at the top; every library is under its own directory, or under the unclassified node when that is unknown, and shows its name, state and records when its type is known and only a diagnosis otherwise |
| CatalogTreeTheorems.OpenShows | packages/web/src/unisource/data/data-catalog-tree-model.ts:126-131 | with its holders open, a library in the tree is shown |
| CatalogTreeCount.OnceWhenChainsEnd | packages/web/src/unisource/data/data-catalog-tree-model.ts:97-154 | when every chain of parents ends, a directory appears exactly once |
| CatalogTreeCount.TopAreRoots | packages/web/src/unisource/data/data-catalog-tree-model.ts:69-76 | when every chain ends, only directories without a known parent are at the top, so with the placement above every other one is under its parent |
| CatalogTreeCount.TwiceWhenEndless | packages/web/src/unisource/data/data-catalog-tree-model.ts:97-154 | when some chain does not end, some directory appears at least twice |
| CatalogTreeCount.OnceIffChainsEnd | packages/web/src/unisource/data/data-catalog-tree-model.ts:97-154 | with unique codes, every directory appears exactly once if and only if every chain of parents ends |
| CatalogTreeCount.LibrariesOnce | packages/web/src/unisource/data/data-catalog-tree-model.ts:116-174 | then every library appears exactly once |
| CatalogTreeOrder.DirectoryArranged | packages/web/src/unisource/data/data-catalog-tree-model.ts:103-142 | below a directory are first all its directories and then all its libraries, each once and in sort order |
| CatalogTreeOrder.TreeInOrder | packages/web/src/unisource/data/data-catalog-tree-model.ts:97-174 | so it is everywhere in the tree |
| CatalogTreeOrder.TopInOrder | packages/web/src/unisource/data/data-catalog-tree-model.ts:144-154 | at the top are all roots in sort order, and then the directories no root leads to, in sort order |
| CatalogTreeOrder.TopMarked | packages/web/src/unisource/data/data-catalog-tree-model.ts:140-154 | at the top a root is noted if and only if its code has a lost parent, and every directory that no root leads to is marked as unresolvable |
| CatalogTreeOrder.UnclassifiedInOrder | packages/web/src/unisource/data/data-catalog-tree-model.ts:155-174 | the unclassified libraries are complete and in sort order |
| CatalogTreeBuilder.Builder.IndexDirectories | packages/web/src/unisource/data/data-catalog-tree-model.ts:67-76 | the loop groups the directories by parent, finds the roots and notes the codes with a lost parent |
| CatalogTreeBuilder.Builder.IndexLibraries | packages/web/src/unisource/data/data-catalog-tree-model.ts:78-86 | the loop groups the libraries by directory and finds the unclassified ones |
| CatalogTreeBuilder.Builder.Build | packages/web/src/unisource/data/data-catalog-tree-model.ts:97-142 | building one directory gives its node, marks it visited and expands it when it holds the selection |
| CatalogTreeBuilder.Builder.BuildOrName | packages/web/src/unisource/data/data-catalog-tree-model.ts:105-115 | a directory that is its own ancestor is only named |
| CatalogTreeBuilder.Builder.ExpandOn | packages/web/src/unisource/data/data-catalog-tree-model.ts:126-131 | a directory above the selected library is expanded |
| CatalogTreeBuilder.Builder.BuildAll | packages/web/src/unisource/data/data-catalog-tree-model.ts:103-115 | the nodes of a list of directories, in order |
| CatalogTreeBuilder.Builder.AddRest | packages/web/src/unisource/data/data-catalog-tree-model.ts:147-154 | the loop adds, at the top, what the roots do not reach |
| CatalogTreeBuilder.Builder.Reach | packages/web/src/unisource/data/data-catalog-tree-model.ts:147-153 | one directory, unless it was visited |
| CatalogTreeBuilder.Builder.AddUnclassified | packages/web/src/unisource/data/data-catalog-tree-model.ts:155-174 | the node of the libraries without a directory |
| CatalogTreeBuilder.Builder.Finish | packages/web/src/unisource/data/data-catalog-tree-model.ts:176-181 | the selected key and the key of the focused library are kept only when they name nodes of the tree |
| CatalogTreeBuilder.Builder.BuildTree | packages/web/src/unisource/data/data-catalog-tree-model.ts:52-199 | the whole run returns the specified tree and selection, and expands what holds the selection and, once the focused record is loaded, its library |
| CatalogTreeBuilder.SelectionShown | packages/web/src/unisource/data/data-catalog-tree-model.ts:126-180 | when the selected library is in the tree, the expanded keys open the way to it |
| CatalogTreeBuilder.FocusShown | packages/web/src/unisource/data/data-catalog-tree-model.ts:93-95 | when the records of the source are loaded and hold the focused record, its type is known and its library is in the tree, the expanded keys open the way to that record |
| CatalogTreeLaws.ExpandedExactly | packages/web/src/unisource/data/data-catalog-tree-model.ts:88-181 | a key is expanded if and only if it is that of a directory, or of the unclassified node, on a path to the library of a source whose type is known, or that of the library itself when it is in the tree and the focused record is loaded |
| CatalogTreeLaws.SourceShown | packages/web/src/unisource/data/data-catalog-tree-model.ts:88-181 | the library of a source whose type is known is selected and the way to it is open when it is in the tree, and so is the way to the focused record once that is loaded |
| CatalogTreeLaws.NothingExpanded | packages/web/src/unisource/data/data-catalog-tree-model.ts:88-181 | without a source nothing is selected or expanded |
| CatalogTreeLaws.KeyExactly | packages/web/src/unisource/data/data-catalog-tree-model.ts:314-321 | a key is found in the tree if and only if a path leads to it |
| CatalogTreeLaws.UnloadedChildren | packages/web/src/unisource/data/data-catalog-tree-model.ts:236-256 | below a library without loaded records there is one message that cannot be chosen, or after a failure one action to try again with the error as its title |
| CatalogTreeLaws.LoadedChildren | packages/web/src/unisource/data/data-catalog-tree-model.ts:257-280 | below a loaded library the records come first, one each and in order, with code and name as search terms, or one message when there are none; behind them is an action to load more if and only if there is a next page |
| CatalogTreeLaws.BlankLabelExactly | packages/web/src/unisource/data/data-catalog-tree-model.ts:289-292 | the label of a record is empty if and only if its name is an empty text, or it has no name and its code is empty |
| CatalogTreeLaws.LabelExactly | packages/web/src/unisource/data/data-catalog-tree-model.ts:289-292 | a record with code and name shows both, with one of them that one |
| CatalogSearcher.Searcher.VisitNode | packages/web/src/unisource/data/data-catalog-search-model.ts:30-66 | visiting a node returns what is kept of it and adds its keys and matches to the two accumulators |
| CatalogSearcher.Searcher.VisitDirectory | packages/web/src/unisource/data/data-catalog-search-model.ts:32-44 | the same for a directory, which is expanded when it is kept |
| CatalogSearcher.Searcher.VisitLibrary | packages/web/src/unisource/data/data-catalog-search-model.ts:45-64 | the same for a library |
| CatalogSearcher.Searcher.VisitNodes | packages/web/src/unisource/data/data-catalog-search-model.ts:38-40 | the same for a list |
| CatalogSearcher.Searcher.RetainUnloaded | packages/web/src/unisource/data/data-catalog-search-model.ts:92-115 | only unloaded libraries and the directories above them are kept and expanded |
| CatalogSearcher.Searcher.RetainOne | packages/web/src/unisource/data/data-catalog-search-model.ts:98-112 | the same for one node |
| CatalogSearcher.FilterTree | packages/web/src/unisource/data/data-catalog-search-model.ts:12-80 | the whole search returns the specified result |
| CatalogSearch.FilterTwice | packages/web/src/unisource/data/data-catalog-search-model.ts:12-80 | filtering the filtered nodes again with the same search changes nothing |
| CatalogSearch.ExpandedKeysExist | packages/web/src/unisource/data/data-catalog-search-model.ts:26-76 | every key that is expanded automatically names a node of the result; which keys are expanded is told by `CatalogSearchTheorems.ExpandedExactly` |
| CatalogSearch.RecordSurvives | packages/web/src/unisource/data/data-catalog-search-model.ts:30-71 | a record of a loaded library reached through directories is in the result, with its whole path, if and only if it was in the tree and something on the path matches |
| CatalogSearchTheorems.ExpandedExactly | packages/web/src/unisource/data/data-catalog-search-model.ts:26-115 | a key is expanded if and only if it is that of a directory or a library of the result that is reached through directories which do not match |
| CatalogSearchTheorems.MatchShown | packages/web/src/unisource/data/data-catalog-search-model.ts:30-68 | on the path of a record that is kept, the first match is shown, whether it is the record or stands above it |
| CatalogSearchTheorems.UnloadedShown | packages/web/src/unisource/data/data-catalog-search-model.ts:68-115 | when nothing is found, exactly the unloaded libraries under directories are left, and each is shown |
| CatalogSearchTheorems.FallsBackExactly | packages/web/src/unisource/data/data-catalog-search-model.ts:68-72 | what matches is the result if and only if some path leads to a match: through directories to any node, or to a record of a loaded library |
| CatalogSearchTheorems.FlagsExactly | packages/web/src/unisource/data/data-catalog-search-model.ts:28-64 | the result tells of a loaded match if and only if a path leads to a directory, a library or a record of a loaded library that matches, and of unloaded libraries if and only if a path leads to one |
| CatalogSearchTheorems.ActionsKept | packages/web/src/unisource/data/data-catalog-search-model.ts:60-63 | a library that is kept keeps all its actions |
| CatalogSearchTheorems.ContainsExactly | packages/web/src/unisource/data/data-catalog-search-model.ts:121-125 | a text contains another if and only if that stands somewhere in it |
| CatalogSearchTheorems.MatchesExactly | packages/web/src/unisource/data/data-catalog-search-model.ts:121-129 | a node matches if and only if the trimmed and lower-cased search stands in one of its search terms, or in its title when it has none, trimmed and lower-cased too |
| CatalogSearchTheorems.BlankSearch | packages/web/src/unisource/data/data-catalog-search-model.ts:16-25 | a search of white space shows the tree as it is and opens nothing |
| CatalogSearch.VisitAllTwice | packages/web/src/unisource/data/data-catalog-search-model.ts:30-68 | what visiting keeps, visiting keeps again |
| CatalogSearch.RetainTwice | packages/web/src/unisource/data/data-catalog-search-model.ts:92-115 | what is retained is retained again |
| Align.Near | packages/web/src/workbench/align.ts:38-55 | the near edge is where some node starts and none starts before it |
| Align.Far | packages/web/src/workbench/align.ts:38-55 | the far edge is where some node ends and none ends after it |
| Align.Selected | packages/web/src/workbench/align.ts:57-62 | the nodes whose ids are selected |
| Align.AlignedOnOneLine | packages/web/src/workbench/align.ts:64-94 | only selected nodes move, only along the command's axis, and they end on one line |
| Align.AlignedInside | packages/web/src/workbench/align.ts:64-94 | aligned nodes stay inside the old bounding box |
| Align.AlignTwice | packages/web/src/workbench/align.ts:64-94 | every alignment command is idempotent |
| Align.AlignedAcross | packages/web/src/workbench/align.ts:16-94 | aligned left, right or at the horizontal centre, a selected node starts where the leftmost one starts, ends where the rightmost one ends, or has its middle halfway between, by its own, measured or usual width; only its `x` changes |
| Align.AlignedDown | packages/web/src/workbench/align.ts:16-94 | aligned at the top, the bottom or the vertical centre, the same with `y` and heights |
| Distribute.SortAscends | packages/web/src/workbench/align.ts:104-108 | the selected nodes are taken in order of position |
| Distribute.OrderHolds | packages/web/src/workbench/align.ts:101-108 | that order holds exactly the selected nodes, each once |
| Distribute.DistributeNodes | packages/web/src/workbench/align.ts:96-138 | the method returns the specified nodes |
| Distribute.SpreadOut | packages/web/src/workbench/align.ts:109-137 | the cursor loop fills the map of new positions |
| Distribute.SumSizes | packages/web/src/workbench/align.ts:110-114 | the sizes added up |
| Distribute.DistributedPlaces | packages/web/src/workbench/align.ts:129-137 | a node that is not selected stays, and the selected node at a place in the order goes to the cursor of that place and moves on one axis only |
| Distribute.EndsAcross | packages/web/src/workbench/align.ts:96-138 | distributed horizontally, the first node stays where the leftmost was and the last one ends where the rightmost ended; only `x` changes |
| Distribute.SpacedAcross | packages/web/src/workbench/align.ts:96-138 | distributed horizontally, nodes are taken by their `x` and the same space is behind each, by its width |
| Distribute.EndsDown | packages/web/src/workbench/align.ts:96-138 | distributed vertically, the first node stays where the topmost was and the last one ends where the lowest ended; only `y` changes |
| Distribute.SpacedDown | packages/web/src/workbench/align.ts:96-138 | distributed vertically, nodes are taken by their `y` and the same space is below each, by its height |
| Distribute.EvenGaps | packages/web/src/workbench/align.ts:119-127 | the first node stays, and neighbours are one gap apart |
| Distribute.LastAtEdge | packages/web/src/workbench/align.ts:115-127 | the last node ends exactly at the old far edge |
| Distribute.NoOverlap | packages/web/src/workbench/align.ts:119-127 | every node ends before the next ones start if and only if the gap is not negative |
| Distribute.OrderAfter | packages/web/src/workbench/align.ts:96-138 | after distributing, the selected nodes in order are the old order at its cursors |
| Distribute.DistributeTwice | packages/web/src/workbench/align.ts:96-138 | when the size of every selected node and the gap add up to more than zero, so that none is placed at or before the one in front of it, a second application changes nothing |
| BodySave.StepKeeps | packages/views/src/document/body-editor.tsx:404-478 | every event keeps the fields told by the history of submissions |
| BodySave.RunSafe | packages/views/src/document/body-editor.tsx:404-478 | in every run at most one save is in flight, the same text is submitted twice in a row only if the first failed or threw, and the form never closes over a save in flight |
| BodySave.SubmitsExactly | packages/views/src/document/body-editor.tsx:404-424 | a request submits if and only if the form is open, nothing is in flight, the text differs from the text stored, and the text is not the one waiting for approval |
| BodySave.EventSubmitsExactly | packages/views/src/document/body-editor.tsx:404-478 | in every run an event submits the text if and only if it is a click on save, its key, or a loss of focus to the outside, the form is open, nothing is in flight, and the text is neither stored nor waiting for approval |
| BodySave.EventClosesExactly | packages/views/src/document/body-editor.tsx:404-512 | in every run an event closes the form if and only if, with nothing in flight, it is Escape, a cancellation or a request for a text that is stored, or it is the success of the save in flight |
| BodySave.EventRecords | packages/views/src/document/body-editor.tsx:404-478 | in every run the text is what was typed last, and an answer is recorded with the submission in flight and no other |
| BodySave.StatusExactly | packages/views/src/document/body-editor.tsx:384-451 | in every run the status is that of the outcome of the latest submission |
| BodySave.RequestClosesSaved | packages/views/src/document/body-editor.tsx:404-410 | a request closes the form only when nothing is unsaved |
| BodySave.AnswerLosesEdits | packages/views/src/document/body-editor.tsx:437-440 | a successful answer closes the form, and loses text if and only if the text was edited in flight |
| BodySave.TypedInFlightLost | packages/views/src/document/body-editor.tsx:420-440 | a run in which text typed during a save is lost |
| BodyEditor.BodyEditorForm.RequestSave | packages/views/src/document/body-editor.tsx:404-424 | refines the request up to the point where the save waits |
| BodyEditor.BodyEditorForm.Complete | packages/views/src/document/body-editor.tsx:425-451 | refines what follows, by outcome |
| BodyEditor.BodyEditorForm.LoseFocus | packages/views/src/document/body-editor.tsx:452-462 | refines losing focus |
| BodyEditor.BodyEditorForm.PressEscape | packages/views/src/document/body-editor.tsx:463-468 | refines Escape, which is ignored while saving |
| BodyEditor.BodyEditorForm.EditText | packages/views/src/document/body-editor.tsx:394-401 | refines an edit |
| BlockText.Blocks | packages/views/src/document/body-editor.tsx:307-322 | the blocks read from the tokens spell those tokens |
| BlockText.ReadsBack | packages/views/src/document/body-editor.tsx:307-322 | reading back what blocks spell gives those blocks |
| BlockText.IndexAtOffset | packages/views/src/document/body-editor.tsx:311 | the place of a block is found from its position |
| BlockTree.BlockExactly | packages/views/src/document/body-editor.tsx:307-322 | some tokens count as one block if and only if a node, with its content and its boundaries, spells them |
| BlockTree.BlocksOfNodes | packages/views/src/document/body-editor.tsx:307-322 | the blocks of a parent are the nodes it holds, each by itself and in order |
| BlockMove.CutAndPaste | packages/views/src/document/body-editor.tsx:323-332 | deleting and inserting at the computed position changes the places of two adjacent texts, in both directions |
| BlockMove.MovedIs | packages/views/src/document/body-editor.tsx:316-336 | the tokens and the selection after a move |
| BlockMove.MoveSwaps | packages/views/src/document/body-editor.tsx:316-336 | a move swaps the block with its neighbour and nothing else, and the target is the boundary of that place |
| BlockMove.StaysSelected | packages/views/src/document/body-editor.tsx:332-336 | the block stays selected |
| BlockMove.MoveBack | packages/views/src/document/body-editor.tsx:316-336 | moving a block and moving it back restores the document, in either direction |
| BlockTree.CanMoveExactly | packages/views/src/document/body-editor.tsx:307-314 | the selected block can move up if and only if something of its parent stands before it, and down if and only if the parent does not end with it |
| BlockMove.Editor.CanMoveSelected | packages/views/src/document/body-editor.tsx:307-314 | a block can move exactly when it has a neighbour on that side |
| BlockMove.Editor.Dispatch | packages/views/src/document/body-editor.tsx:323-336 | the transaction: delete, insert, select |
| BlockMove.Editor.Siblings | packages/views/src/document/body-editor.tsx:318-323 | the selected block and its neighbour |
| BlockMove.Editor.MoveSelected | packages/views/src/document/body-editor.tsx:316-338 | moves when it can, and reports whether it did |
| RelationPath.ResolveColumnObjects | packages/web/src/unisource/ana/ana-comparison.ts:272-295 | the loop follows the path of a column |
| RelationPath.ResolveMetricObjects | packages/web/src/unisource/bi/bi-view-model.ts:173-199 | the loop follows at most five steps, and gives nothing when one of them is not a text |
| RelationPath.FollowedReached | packages/web/src/unisource/ana/ana-comparison.ts:277-293 | what is followed is reached by a walk over active relations of the path's types through objects that are not terminal |
| RelationPath.ReachedFollowed | packages/web/src/unisource/ana/ana-comparison.ts:277-293 | every object such a walk reaches is followed |
| RelationPath.ResolvedExactly | packages/web/src/unisource/ana/ana-comparison.ts:272-295 | an object is in the result if and only if it is at the end of the path |
| RelationPath.ResolvedIs | packages/web/src/unisource/ana/ana-comparison.ts:272-295 | the result is the workspace's list with exactly those objects kept |
| RelationPath.KeptAt | packages/web/src/unisource/ana/ana-comparison.ts:288-292 | a kept object stands after exactly the kept objects before it: workspace order |
| RelationPath.KeptOnce | packages/web/src/unisource/ana/ana-comparison.ts:288-292 | no repeats |
| RelationPath.ColumnAndMetricAgree | packages/web/src/unisource/bi/bi-view-model.ts:173-199 | for every column that can be read, tables and metrics resolve its path to the same objects |
| RelationPath.RefusedPaths | packages/web/src/unisource/ana/ana-comparison.ts:387-397 | a path is read if and only if it has at most five steps and all are texts |
| RelationPath.ReadExactly | packages/web/src/unisource/ana/ana-comparison.ts:381-409 | stored settings are read as exactly the column whose key, label and field code they hold as texts, with the path, the unit and the mark they hold |
| DiagramRelations.InferredEndpoint | packages/web/src/workbench/diagram-panel.tsx:765-791 | the type picked for a connection is the one its endpoints stand for once oriented |
| DiagramInference.EndpointExactly | packages/web/src/workbench/diagram-panel.tsx:554-562 | two object types stand for a relation code if and only if the table lists them, whatever separators their names hold |
| DiagramInference.InferExactly | packages/web/src/workbench/diagram-panel.tsx:765-791 | a connection makes a relation if and only if its types stand for a code, or else do so turned around, that exactly one known type has, and then of that type and in that direction; it is ambiguous if and only if more types have the code |
| DiagramInference.NothingInferred | packages/web/src/workbench/diagram-panel.tsx:765-791 | types that the table joins in neither direction make no relation |
| DiagramInference.AcceptedExactly | packages/web/src/workbench/diagram-panel.tsx:793-810 | a connection is let through if and only if it joins two different objects and its relation would repeat no source, target and type of the list |
| DiagramRelations.CodesExactly | packages/web/src/workbench/diagram-panel.tsx:812-831 | a type is asked for if and only if it is known and is the diagram's own or stands for two visible objects |
| DiagramRelations.UniqueKeeps | packages/web/src/workbench/diagram-panel.tsx:833-841 | keeping one entry per relation id keeps exactly the last state found under each id |
| DiagramRelations.ConnectableQueried | packages/web/src/workbench/diagram-panel.tsx:765-831 | a load asks for the type of every relation that a connection between two visible objects can make |
| DiagramLoad.LoadedExactly | packages/web/src/workbench/diagram-panel.tsx:843-888 | whatever the read model shows, a load returns for each id once the last state found, among the relations of queried types that left a visible object at the moment their query was answered and then those of the diagram's type within two steps of the root at the moment of the root query |
| DiagramEvents.WithinTwoExactly | packages/web/src/workbench/diagram-panel.tsx:868-888 | a relation is within two steps of the root if and only if a walk of one or two relations of the type ends with it |
| DiagramLoad.LoadedAgrees | packages/web/src/workbench/diagram-panel.tsx:833-888 | a load returns at most one relation per source, target and type if and only if no two ids are last found with the same |
| DiagramLoad.LoadedDistinctExactly | packages/web/src/workbench/diagram-panel.tsx:833-888 | when every view has one relation per source, target and type, it does so if and only if the root query tells of none that a query of a visible object found under another id and no later answer overwrote |
| DiagramLoad.OneMomentAgrees | packages/web/src/workbench/diagram-panel.tsx:843-888 | that is so when the queries of the diagram's type are answered at one moment |
| DiagramLoad.RootCanDisagree | packages/web/src/workbench/diagram-panel.tsx:843-888 | a relation deleted and made again between two queries comes back twice |
| DiagramLoad.OldStateWins | packages/kernel/src/main/java/com/mnext/kernel/internal/UpdateRelationHandler.java:57-75 | of a relation that is moved between two queries a load can return the old state although it has read the new one |
| DiagramLoad.ConnectedIsLoaded | packages/web/src/workbench/diagram-panel.tsx:765-888 | once the query for it has caught up, a load returns every relation that a connection between visible objects can make, in this state if and only if no later answer has another |
| DiagramList.WithoutDistinct | packages/web/src/workbench/diagram-panel.tsx:898-930 | removal keeps one relation per source, target and type |
| DiagramList.MergedDistinct | packages/web/src/workbench/diagram-panel.tsx:973-988 | a merge keeps it if and only if the reloaded relations do |
| DiagramList.ShownDistinct | packages/web/src/workbench/diagram-panel.tsx:1686-1705 | showing a connection keeps it if and only if the list holds no other entry for that relation |
| DiagramList.UpdateKeeps | packages/kernel/src/main/java/com/mnext/kernel/internal/UpdateRelationHandler.java:57-75 | after an update, which may give a relation other ends under its id, the kernel has each id once and one relation per source, target and type |
| DiagramEvents.CreateExactly | packages/kernel/src/main/java/com/mnext/kernel/internal/CreateRelationHandler.java:55-73 | the kernel makes a relation exactly when its id is new, it joins two objects, and no active relation has its ends and type, and then it joins the active ones |
| DiagramEvents.UpdateExactly | packages/kernel/src/main/java/com/mnext/kernel/internal/UpdateRelationHandler.java:57-75 | a relation is given other ends exactly when they are two objects and no other active relation has them with its type; it keeps its id and type, gets the next version, and nothing else changes |
| DiagramEvents.DeleteExactly | packages/kernel/src/main/java/com/mnext/kernel/internal/SoftDeleteHandler.java:98-130 | a deleted relation is no longer active, and all others are |
| DiagramEvents.AskExactly | packages/web/src/workbench/diagram-panel.tsx:1661-1676 | a connection is asked for exactly when it joins two objects and the list shows no relation with its ends and type |
| DiagramEvents.AnswerExactly | packages/kernel/src/main/java/com/mnext/kernel/internal/CreateRelationHandler.java:55-73 | a request is answered by making the relation, or ends |
| DiagramEvents.ShowExactly | packages/web/src/workbench/diagram-panel.tsx:945-1703 | a connection that was made becomes the last entry of the list, in place of any under its id, which is put together from its ends and its type |
| DiagramEvents.EntryIdsTell | packages/web/src/workbench/diagram-panel.tsx:945-960 | between objects with UUIDs, entries have one id if and only if they have the same ends and type, and no UUID is among these ids |
| DiagramEvents.PerformedExactly | packages/web/src/workbench/diagram-panel.tsx:898-1705 | a run of connections made at once is a run of their events |
| DiagramList.StepExactly | packages/web/src/workbench/diagram-panel.tsx:898-1705 | with request, answer and showing of a connection as events of their own, relations made, moved and deleted by others, and a read model that may show anything, an event keeps one relation per source, target and type if and only if it is careful |
| DiagramList.RunExactly | packages/web/src/workbench/diagram-panel.tsx:898-1705 | a run keeps it after every event if and only if every event is careful: connections are shown where no other entry is for their relation, and the answers of a load agree |
| DiagramList.RunSafe | packages/web/src/workbench/diagram-panel.tsx:898-1705 | so every run keeps it in which connections are made at once, the read model shows what the kernel had, and each load asks for the diagram's type at one moment, however old |
| DiagramList.MergeIdsExactly | packages/web/src/workbench/diagram-panel.tsx:973-988 | a merge keeps each id once if and only if no relation was reloaded with other ends under the id of one that it keeps |
| DiagramList.RunIdsExactly | packages/web/src/workbench/diagram-panel.tsx:898-1705 | in every run each id is in the list at most once after every event if and only if no merge is of that kind |
| DiagramList.MovedStays | packages/web/src/workbench/diagram-panel.tsx:973-988 | a relation that was moved while it is in the list stays there beside its new state after a merge |
| DiagramList.LateShowRepeats | packages/web/src/workbench/diagram-panel.tsx:1675-1705 | when a reload shows the relation before the connection is shown, the list holds it twice |
| DiagramList.AttemptCanRepeat | packages/web/src/workbench/diagram-panel.tsx:1675-1705 | from every state with a request that the kernel would accept, its answer, a load of what it has then and the showing lead there |
| DiagramList.MergeKeepsExactly | packages/web/src/workbench/diagram-panel.tsx:973-988 | a merge shows exactly the relations of both lists if and only if every current relation whose key was reloaded was reloaded itself |
| DiagramList.PlainKeysTell | packages/web/src/workbench/diagram-panel.tsx:980-983 | without separators in the ids keys are equal exactly for the same source, target and type |
| DiagramList.UuidsMerge | packages/kernel/src/main/java/com/mnext/kernel/api/commands/CreateRelationCommand.java:7-15 | objects have UUIDs, so a merge loses nothing |
| DiagramEvents.HyphenatedUuid | packages/kernel/src/main/java/com/mnext/kernel/api/commands/CreateRelationCommand.java:7-15 | groups of hexadecimal digits with dashes between them are among the ids that these statements are about |
| DiagramList.KeysCanCollide | packages/web/src/workbench/diagram-panel.tsx:980-983 | on strings that are not ids, keys of different relations can be equal |
| DiagramList.CaughtUpReplaces | packages/web/src/workbench/diagram-panel.tsx:945-988 | after a connection the list shows it, and a merge with a load of what the kernel then has shows the kernel's relation in its place, alone |
| DiagramList.DiagramPanel.ShowConnected | packages/web/src/workbench/diagram-panel.tsx:1686-1705 | the connection is the last entry and the only one under its id, all others stay; one relation per source, target and type is kept if and only if no other entry is for this relation |
| DiagramList.DiagramPanel.RemoveRelations | packages/web/src/workbench/diagram-panel.tsx:898-930 | exactly the removed ids go, and one relation per source, target and type is kept; nothing changes when no id is in the list |
| DiagramList.DiagramPanel.MergeReloaded | packages/web/src/workbench/diagram-panel.tsx:1621-1627 | the reloaded relations come first, and exactly those current ones stay whose key was not reloaded; one relation per source, target and type is kept if and only if the reload keeps it, and with UUIDs nothing of either list is lost |

## Left out

- Rendering, hooks, event wiring, styles and all DOM work; network bodies of the clients.
- Template compilation, script loading, the helmet, and evaluation of logic classes: an evaluation is a start and an
  end with an outcome. The source evaluates at once; the model also allows other events in between.
- Sibling fetches carry the parsed file or nothing; parsing of the file text is not part of this model.
- `JSON` of expression values: numbers are reals, objects are references, and property lookup and `==` are parameters
  of the model. Rounding of numerals to doubles, strings beyond Unicode scalar values and string indexing by code unit
  are not modelled in the expression evaluator.
- The clock, and the readings it gives inside one call, are parameters.
- `Math.sqrt` and the locale's order of titles and codes are parameters (any function to the reals, any map to the
  integers); ties are broken in any order.
- Floating-point error: coordinates are reals and `Math.round` is `floor(x + 0.5)`.
- Area chips, tones and titles of rooms and document sections, the terminal flag of a section, record counts, the
  active record and the action names of catalog nodes.
- Keys of catalog nodes are a datatype, not strings with a prefix.
- Coercion of raw text to a field value: its result is an input of a save.
- A query of a diagram load is answered from one state of the read model, whatever pages it is read in; a load that
  fails empties the list. Cardinality and cycles, by which the kernel may refuse a relation, are an event that may
  happen.
- Constraints, unique values and rules, by which the kernel may refuse a save, are an event that may happen; the order
  in which events reach the read model is left open, so a reading may mix any versions.
- DocumentRuns.RunSafe: asks for careful steps, because with any other step the statement is false (`CarefulExactly`).
- DocumentGuard.GuardedRunSafe: asks for one operation per object at a time, changed values and readings that are
  snapshots, because without any of them the statement is false (`OverlapGoesWrong`, `UnchangedSaveLosesWrite`,
  `NewNumberLosesWrite`).
- DiagramList.RunSafe: asks for connections made at once, views that the kernel had and loads that ask for the
  diagram's type at one moment; `RunExactly` is the statement for all runs.
- Distribute.DistributeTwice: does not say what a second application does when a node would be placed at or before the
  one in front of it.
- Conflict handling in the table view and the field summary, which trust the details of the error.
- Unmounting of the body form from outside while a save is in flight, and the error message it shows.
- A selection inside nested nodes is modelled by the range of its parent; the rules by which the editor library
  repairs a document are not part of this model.
- The second alignment helper under `packages/web/src/unisource/canvas`, which repeats this one.
- Aliasing of registry entries: an entry is a value in a map field.
