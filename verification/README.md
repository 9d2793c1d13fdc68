# Verified models of mwfl

mwfl is a C++ library over Win32. Its window-free parts carry the invariants the rest relies on, and this project models
those parts in Dafny and proves what they promise.

* **Docking layout** (`dock_*.dfy`): a table of rows linked by id that spells one main split tree and one tree per
  floating host, the procedure that decides whether a table is valid, the six mutations, the model with its revision and
  transactions, the drag session over model and native side, and the text format. The table is abstracted to algebraic
  trees, and the link rewriting is shown to be insertion into those trees.
* **Document workspace** (`doc_*.dfy`): documents, history, active document and revision, transfers between workspaces,
  the coordinated close, and the session file with its restoration.
* **Two loops**: the pass over message filters that its own callbacks change (`message_pump*.dfy`), and the sharing of
  space in rows and columns (`layout.dfy`).
* **The text of both session files** (`session_*.dfy`, `unit_text.dfy`): scanning, printing and UTF-16 well-formedness.
* **State machines and codecs**: auto-hide timing, argument quoting, pipe frames, text encodings and log rotation.

Objects that change in place are classes whose methods are proved against functions on values; the properties are lemmas
about those functions and about runs of them. Callbacks are modelled as scripts: for the first, second, ... call the
operations it makes and how it ends. Every theorem holds for every script, so for every callback.

Where a promise does not hold for every input, the code is modelled as it is, a lemma gives an input that breaks it, and
others state exactly when it holds or what holds instead:

* An unchanged workspace revision does not mean an unchanged history: clearing it is not counted
  (`DocLaws.ClearingIsNotCounted`, `DocLaws.RevisionIdentifiesState`).
* `AddPanel` can leave a layout beyond the limits (`DockModel.AddPanelCanExceedLimits`, `DockModel.AddedValidity`,
  `DockModel.RunStaysValid`).
* A transfer plan that is both committed and rolled back loses its document (`DocTransfer.CommitThenRollbackLoses`,
  `DocTransfer.ResolveBalances`, `DocTransfer.TransferConserves`).
* The comment in src/message_pump.cpp:45-51 promises that every filter is called at most once. That holds exactly while
  callbacks keep the pass in step (`MessagePumpLaws.CalledTwice`, `MessagePumpLaws.NeverEnds`,
  `MessagePumpLaws.PromiseExactly`, `MessagePumpLaws.InStepWhen`).
* A captured workspace can be restored exactly when its history shares no id or path with its open documents
  (`DocRestoreLaws.ReachableButRefused`, `DocRestoreLaws.RestoreCaptured`).
* Plain UTF-8 text that begins with U+FEFF does not come back (`TextEncoding.FileReadsBackExactly`).
* A log without rotations exceeds its maximum (`LogRotation.BoundedExactlyWithRotations`).
* A tick longer than five seconds is cut off, so time is lost (`AutoHide.LongTickDiffers`, `AutoHide.LongestTick`).
* A program whose name has unbalanced quotation marks does not receive its arguments (`Quoting.UnbalancedLoses`,
  `Quoting.EveryListReadsBack`).
* An auto-sized child with a negative minimum can shrink below zero (`Layout.ShrinksBelowZero`, `Layout.KeepsLeastExactly`).
* Stretching may stop while a child could still take the rest (`Layout.StopsEarly`). That happens exactly when the first
  round stalls (`Layout.WellUsedExactly`), never when all have room to begin with (`Layout.RoomToBegin`), and what such a
  child can still claim is bounded by the tolerance (`Layout.MainSizesFair`).
* A layout or session with a line break in a title, key or path does not survive its file (`DockRoundTrip.ValidRoundTrip`,
  `DocRoundTrip.SessionRoundTrip`).

## Model

| member | source | states |
|---|---|---|
| DockValidate.Validate | src/docking_workspace.cpp:347-471 | accepts exactly the valid snapshots: limits, distinct ids, each panel placed once and in a fitting role, one leaf row per group, and a node table that is a forest of binary trees under the main and floating roots; every other snapshot gets the first complaint in the order of the stages |
| DockForest.ForestUnique | src/docking_workspace.cpp:417-469 | the table and its roots determine the forest: no two different lists of trees are spelled by the same rows |
| DockForest.ForestInDegree | src/docking_workspace.cpp:417-451 | in a forest every row is referred to exactly once, counting the roots |
| DockForest.WalkNeverRevisits | src/docking_workspace.cpp:453-466 | once every in-degree is one, no pop of the walk meets an unknown or an already visited row |
| DockForest.FinishedWalkCovers | src/docking_workspace.cpp:453-468 | over a forest, a finished walk has visited every row |
| DockForest.RebuildForest | src/docking_workspace.cpp:453-468 | a finished walk over in-degrees of one yields the forest it visited |
| DockValidate.WalkDecides | src/docking_workspace.cpp:453-468 | after the in-degree check, reaching every row is the same as the table being a forest: what the last check excludes are unreachable cycles |
| DockValidate.WalkTable | src/docking_workspace.cpp:453-468 | the worklist walk ends and answers whether every row was reached |
| DockValidate.HasDuplicate | src/docking_workspace.cpp:354-367 | tells whether an id is zero or repeated |
| DockValidate.CheckGroup | src/docking_workspace.cpp:391-403 | counts the uses of panels in one group and gives the first complaint about it |
| DockValidate.CheckPlacement | src/docking_workspace.cpp:391-413 | accepts exactly partitions of the panels over groups and strips with fitting roles and a known active panel |
| DockValidate.CheckLinks | src/docking_workspace.cpp:415-449 | accepts exactly the tables whose rows are well formed, with one leaf per group and one reference per row |
| DockGraft.ReplaceNodeReference | src/docking_workspace.cpp:61-85 | redirects the first reference found, looking at the main root, then the hosts, then the rows |
| DockGraft.FirstReplacementIsFull | src/docking_workspace.cpp:61-85 | where a row is referred to once, replacing the first reference found is replacing all |
| DockGraft.GraftRefines | src/docking_workspace.cpp:177-206 | rewriting links in the table is grafting a split onto a leaf of the abstracted trees, and the result is again a forest |
| DockGraft.GraftOrder | src/docking_workspace.cpp:193-206 | the leaves of a grafted tree are the old ones in order with the new group right before or after the target |
| DockEffects.EdgeSides | src/docking_workspace.cpp:193-204 | left and top put the new group first, right and bottom second; left and right split vertically, top and bottom horizontally |
| DockMutation.ApplyMutation | src/docking_workspace.cpp:96-207 | computes the outcome of each of the six kinds, with the status of every refusal |
| DockMutation.DetachPanel | src/docking_workspace.cpp:51-59 | takes a panel out of every group and strip, choosing another active panel where one was removed |
| DockPreserve.AcceptedStaysSound | src/docking_workspace.cpp:96-207 | whatever is accepted leaves a layout that meets every condition of the validation except possibly the size limits |
| DockPreserve.ProposalFailsOnlyByCaps | src/docking_workspace.cpp:290-298 | on a valid layout the result of an accepted mutation is valid exactly when there is room for the groups, rows and hosts it adds |
| DockPreserve.SplitRefinesInsertion | src/docking_workspace.cpp:177-206 | an accepted split replaces the one leaf that shows the target by a split of that leaf and the new group, with the id, side, orientation and ratio asked for; every other part of every tree and the order of all leaves stay |
| DockPreserve.OtherKindsKeepTrees | src/docking_workspace.cpp:96-176 | every other kind leaves the trees alone; floating adds a tree of one leaf |
| DockPreserve.OthersStayPut | src/docking_workspace.cpp:96-207 | every other panel keeps its group and its place among the other panels there, and a group that neither held nor gets the panel is unchanged, selection included |
| DockPreserve.StripsStayPut | src/docking_workspace.cpp:96-207 | every other panel on a strip keeps its entry, edge and place |
| DockEffects.AcceptedDoesAsAsked | src/docking_workspace.cpp:96-207 | the panel ends up where the mutation says: at the wanted index, alone in the new group, last on the strip with the highest order, or gone; it becomes the active panel, and closing the active one selects another while any is left |
| DockModel.DockLayoutModel.constructor | src/docking_workspace.cpp:222-229 | a model starts valid, with one empty group as its only tree |
| DockModel.DockLayoutModel.AddDockedGroup | src/docking_workspace.cpp:231-268 | installs the grafted layout and bumps the revision exactly when it validates, else changes nothing and gives the reason |
| DockModel.DockedRefinesInsertion | src/docking_workspace.cpp:231-268 | an accepted request replaces the one leaf that shows the target by a split of that leaf and the new group, as asked for, and leaves the rest of every tree alone |
| DockModel.DockedValidity | src/docking_workspace.cpp:231-268 | on a valid layout an accepted request validates exactly when there is room and the two new rows have different ids |
| DockModel.DockLayoutModel.AddPanel | src/docking_workspace.cpp:270-288 | adds the panel to its group and makes it active, or changes nothing and gives the reason |
| DockModel.AddedStaysSound | src/docking_workspace.cpp:270-288 | adding a panel keeps everything but possibly the size limits |
| DockModel.AddedValidity | src/docking_workspace.cpp:270-288 | the layout stays valid exactly when the panel count and the title length respect the limits, which the operation does not check |
| DockModel.AddPanelCanExceedLimits | src/docking_workspace.cpp:270-288 | a panel that is accepted and leaves the layout beyond the limits |
| DockModel.DockLayoutModel.Propose | src/docking_workspace.cpp:290-298 | changes nothing; a transaction exists exactly when the mutation is accepted and there is room, and carries the revision it was made at |
| DockModel.DockLayoutModel.Commit | src/docking_workspace.cpp:300-308 | installs a proposal exactly when the revision has not moved and the proposal validates |
| DockModel.DockLayoutModel.Replace | src/docking_workspace.cpp:310-316 | installs any valid snapshot |
| DockModel.RunStaysSound | src/docking_workspace.cpp:231-316 | no run of calls, accepted or refused, with genuine or made-up transactions, breaks the layout |
| DockModel.RunStaysValid | src/docking_workspace.cpp:231-316 | the layout is valid, size limits included, all through a run exactly when every panel that is taken respects the limits |
| DockModel.RevisionIdentifiesLayout | src/docking_workspace.cpp:231-316 | over any run the revision never falls, and an unchanged revision means an unchanged layout |
| DockDrag.HitTestDockTargets | src/docking_drag.cpp:20-37 | finds the best eligible target under the point, or nothing when none is eligible |
| DockDrag.BestIsUnique | src/docking_drag.cpp:20-37 | the order of priority, area and id leaves one best target |
| DockDrag.DockDragSession.Begin | src/docking_drag.cpp:39-50 | starts tracking a known panel from idle and remembers layout and revision |
| DockDrag.DockDragSession.SetProposal | src/docking_drag.cpp:62-76 | accepts a valid transaction for this panel and revision while tracking; any other cancels the drag |
| DockDrag.DockDragSession.Commit | src/docking_drag.cpp:96-137 | with callbacks that may call the layout model and the session itself in any way, as long as a proposal is in force when adoption reports success: outcome, layout, session and calls of rollback are those of the model |
| DockDrag.CommitIsAllOrNothing | src/docking_drag.cpp:96-137 | whatever the callbacks call: either the proposal in force is installed and nothing is rolled back, or the session changes no layout itself, calls rollback once and ends cancelled unless rollback reset it; a layout failure means the revision moved |
| DockDrag.CommitWithPlainCallbacks | src/docking_drag.cpp:96-137 | with callbacks that leave the session alone, exactly the proposal is installed, or rollback gets the layout of the beginning and the session ends cancelled |
| DockDrag.SuccessReplacesTheOriginal | src/docking_drag.cpp:39-50 | whatever calls happened since the beginning, a successful commit replaces the very layout the drag began with |
| SessionText.ReadRequiredLine | src/docking_session.cpp:23-28 | reads the next line that does not start with "X " and leaves exactly the records after it |
| SessionText.EscapedScansBack | src/docking_session.cpp:56-62 | a quoted string with escaped quotation marks and backslashes reads back as itself |
| SessionText.NatScansBack | src/docking_session.cpp:54-70 | a printed number reads back as itself |
| DockSession.SerializeDockingSession | src/docking_session.cpp:51-94 | writes the header, the root line, the five counted sections and the end mark |
| DockSession.ParseDockingSession | src/docking_session.cpp:96-234 | answers every text with the status of the first complaint, or with the layout it describes once that validates |
| DockRoundTrip.SessionRoundTrip | src/docking_session.cpp:51-234 | reading what was written gives back exactly the layout, for everything within the limits of the format; it is malformed instead exactly when a title or monitor key has an unpaired surrogate or the text or its UTF-8 form is too long for a length, and otherwise oversized exactly when its UTF-8 form is |
| DockRoundTrip.ValidIsWritable | src/docking_session.cpp:96-234 | every valid layout whose titles and keys are on one line is within the default limits, file size aside |
| DockRoundTrip.ValidRoundTrip | src/docking_session.cpp:51-234 | a valid layout survives saving and loading unchanged exactly when its titles and keys are well formed and on one line and the text fits into the file |
| DockAccepted.AcceptedOneLine | src/docking_session.cpp:96-234 | whatever text is accepted, its titles and monitor keys are on one line |
| DockEncoding.SessionWellFormed | src/docking_session.cpp:15-22 | the written text is well-formed UTF-16 exactly when all titles and monitor keys are |
| SessionEncoding.EscapeWellFormed | src/docking_session.cpp:61-80 | escaping neither breaks nor makes a pair of surrogates |
| DockRoundTrip.ExtensionsAreIgnored | src/docking_session.cpp:23-28 | any number of lines starting with "X " inserted after the header changes no result, file size aside |
| DockRoundTrip.FixedPointIsFaithful | src/docking_session.cpp:74-84 | the assumption made of the number format can be met: decimal millionths meet it |
| DocWorkspace.DocumentWorkspaceModel.Add | src/document_workspace.cpp:74-86 | inserts a valid document with new id and path, or changes nothing and says why |
| DocWorkspace.DocumentWorkspaceModel.RememberClosed | src/document_workspace.cpp:88-97 | puts a document first in the history, without older entries of the same id or path, and cuts to the maximum |
| DocWorkspace.DocumentWorkspaceModel.Close | src/document_workspace.cpp:99-111 | removes a document; the active one hands over to its right neighbour, else its left |
| DocWorkspace.DocumentWorkspaceModel.CloseMany | src/document_workspace.cpp:113-152 | checks all ids before it removes any, and succeeds exactly for nonempty lists of distinct open documents |
| DocClose.CloseManySucceeds | src/document_workspace.cpp:113-128 | the checks accept exactly nonempty lists of distinct open documents |
| DocClose.CloseManyIsCloseEach | src/document_workspace.cpp:99-152 | closing many at once equals closing them one by one in any order: same documents, order, active document and history |
| DocWorkspace.DocumentWorkspaceModel.Move | src/document_workspace.cpp:154-167 | moves a document to another position |
| DocWorkspace.DocumentWorkspaceModel.Rename | src/document_workspace.cpp:204-216 | renames a document unless another one has the path |
| DocWorkspace.DocumentWorkspaceModel.ReopenRecentlyClosed | src/document_workspace.cpp:218-229 | reopens an entry of the history as a clean active document, or changes nothing |
| DocWorkspace.DocumentWorkspaceModel.RestoreRecentlyClosed | src/document_workspace.cpp:231-250 | replaces the history by valid entries that clash with nothing, or changes nothing |
| DocLaws.CallKeepsConsistent | src/document_workspace.cpp:74-289 | every call keeps ids and paths distinct, documents valid, the active document open and the history within its maximum |
| DocLaws.RunKeepsConsistent | src/document_workspace.cpp:74-289 | so does every run of calls |
| DocLaws.EqualRevisionEqualState | src/document_workspace.cpp:74-289 | over any run an unchanged revision means unchanged documents, order and active document, and an unchanged history unless it was cleared |
| DocLaws.RevisionIdentifiesState | src/document_workspace.cpp:74-289 | equal revisions mean equal states exactly when no nonempty history was cleared in between |
| DocLaws.ClearingIsNotCounted | include/mwfl/document_workspace.h:103 | two states with one revision: clearing the history is not counted |
| DocWorkspace.DocumentWorkspaceModel.AcceptTransfer | src/document_workspace.cpp:261-271 | adds the planned document and marks the plan accepted at the new revision |
| DocWorkspace.DocumentWorkspaceModel.CommitTransfer | src/document_workspace.cpp:273-280 | closes the document at the source unless the source moved on |
| DocWorkspace.DocumentWorkspaceModel.RollbackTransfer | src/document_workspace.cpp:282-289 | closes the document at the destination unless the destination moved on |
| DocWorkspace.FreshCommitSucceeds | src/document_workspace.cpp:252-280 | a commit right after its plan was prepared and accepted elsewhere cannot fail |
| DocWorkspace.TransferDocument | src/document_workspace.cpp:291-305 | moves a document between two workspaces or changes neither; the rollback branch is never reached |
| DocTransfer.RollbackRestores | src/document_workspace.cpp:261-289 | a rollback succeeds exactly at an unmoved revision and then restores list, order and active document, and the history unless it was cleared |
| DocTransfer.ResolveBalances | src/document_workspace.cpp:273-289 | settling a plan keeps the balance of its document exactly when the plan is not settled a second time, which happens exactly when every guard of the call passes |
| DocTransfer.RunBalances | src/document_workspace.cpp:252-289 | over every interleaving of any calls of the protocol, repeated ones included, with nobody else opening or closing the document: the workspaces holding it exceed the accepted unresolved plans by a constant, less one for each time a plan is settled again |
| DocTransfer.TransferConserves | src/document_workspace.cpp:252-289 | so a document held once is held by one workspace and one more for each accepted unresolved plan, exactly when no plan for it is settled again |
| DocTransfer.NeverTheSameTwice | src/document_workspace.cpp:273-289 | a plan that was committed is never committed again, and one that was rolled back never rolled back again, whatever happens in between |
| DocTransfer.CommitThenRollbackLoses | src/document_workspace.cpp:273-289 | committing a plan and then rolling it back loses the document: the code does not prevent it |
| DocCoordination.BuildCoordinatedClosePlan | src/document_coordination.cpp:75-111 | a plan is ready exactly when the decisions are about distinct dirty documents and every dirty document is to be saved or discarded; else it names the first obstacle |
| DocCoordination.ChosenOnce | src/document_coordination.cpp:75-111 | a ready plan saves exactly the documents decided to be saved, each once |
| DocCoordination.ExecuteCoordinatedClose | src/document_coordination.cpp:132-155 | runs the saves in order, stopping at the first that fails or moves the revision, then closes |
| DocCoordination.CommitCoordinatedCloseAfterSaves | src/document_coordination.cpp:113-130 | closes everything the plan lists unless the workspace moved on |
| DocCoordination.CoordinatedCloseIsAllOrNothing | src/document_coordination.cpp:113-155 | on its own workspace the commit never fails; the close succeeds exactly when every save does and the revision stays, and then nothing is open; otherwise only what the save handler did has happened |
| DocCoordination.CloseWithoutHandler | src/document_coordination.cpp:132-155 | the same without a handler: success exactly when nothing was to be saved and the workspace had not moved on |
| DocCoordination.CommitAfterSavesIsAllOrNothing | src/document_coordination.cpp:113-130 | the commit alone closes everything at an unmoved revision and changes nothing otherwise |
| DocRestore.CaptureWorkspaceSession | src/document_session.cpp:75-83 | records documents, history and active id in order |
| DocSession.SerializeDocumentSession | src/document_session.cpp:28-99 | writes the header and each workspace with its documents and end mark |
| DocSession.ParseDocumentSession | src/document_session.cpp:41-171 | answers every text with the first complaint or the session it describes, version 0 read as version 1 |
| DocRoundTrip.SessionRoundTrip | src/document_session.cpp:28-171 | a session within the limits of the format is read back as it was written exactly when its titles and paths are well formed and on one line and the text fits into the file; on one line, it is malformed instead exactly when an unpaired surrogate or the length of the text prevents it, and oversized exactly when its UTF-8 form is |
| DocAccepted.AcceptedOneLine | src/document_session.cpp:101-171 | whatever text is accepted, its titles and paths are on one line |
| DocEncoding.SessionWellFormed | src/document_session.cpp:12-19 | the written text is well-formed UTF-16 exactly when all titles and paths are |
| DocRestore.RestoreWorkspaceSession | src/document_session.cpp:198-272 | rehearses the session on a workspace of its own, then restores entry by entry as the callbacks decide, and keeps the first exception |
| DocRestore.RestoreAccountsForAll | src/document_session.cpp:221-272 | whatever the callbacks answer, throw or do to the workspace, every entry is either restored or reported |
| DocRestore.ExceptionsAreReported | src/document_session.cpp:228-247 | the exception that is kept is the first one thrown, and its entry is reported as refused |
| DocRestoreLaws.RehearsedMeans | src/document_session.cpp:209-225 | restoring is attempted exactly when all entries are valid and no two, open or recent, share an id or a path |
| DocRestoreLaws.RestoreQuietly | src/document_session.cpp:226-272 | with callbacks that change nothing, exactly the accepted entries are restored, in order, with the saved active document if it was accepted |
| DocRestoreLaws.RestoreCaptured | src/document_session.cpp:75-83 | capturing and restoring into an empty workspace gives back documents, order, active document and as many recents as fit, exactly when no two entries share an id or a path |
| DocRestoreLaws.ReachableButRefused | src/document_session.cpp:75-83 | a workspace reached by opening, closing and opening again whose capture cannot be restored |
| DocRestoreLaws.WorkspaceSurvivesTheFile | src/document_session.cpp:28-272 | capture, serialize, parse and restore together give the workspace back |
| MessagePump.MessageLoop.AddFilter | src/message_pump.cpp:27-38 | registers a filter once, at the end |
| MessagePump.MessageLoop.RemoveFilter | src/message_pump.cpp:40-42 | removes a filter, the others keeping their order |
| MessagePump.MessageLoop.PreTranslate | src/message_pump.cpp:44-69 | with any callbacks, in step or not, a pass that ends makes the calls the model computes step by step and stops at the first consumer; with callbacks that keep it in step these are the intended calls |
| MessagePumpLaws.PassIsFair | src/message_pump.cpp:44-69 | the intended pass is newest first, calls none twice, none added or removed before its turn, stops at a consumer, and otherwise misses no filter that was never removed |
| MessagePumpLaws.InStepMeans | src/message_pump.cpp:55-66 | a callback leaves the pass in step exactly when the next filter to be called, if any, is one still waiting |
| MessagePumpLaws.InStepWhen | src/message_pump.cpp:55-66 | it does so exactly when its own filter, if still registered, is the lowest above those still waiting, and otherwise it removed none below its own or nothing but the waiting ones is left |
| MessagePumpLaws.PromiseExactly | src/message_pump.cpp:44-69 | over a whole pass: no call repeats, goes to a filter added during the pass or to one removed before it, exactly when every callback leaves the pass in step, which is also exactly when the calls are the intended ones |
| MessagePumpLaws.PoliteIsInStep | src/message_pump.cpp:55-66 | a callback that stays registered, or unregisters itself and none below it, leaves the pass in step |
| MessagePumpLaws.PolitePassIsInStep | src/message_pump.cpp:44-69 | so a pass of such callbacks keeps the promise |
| MessagePump.CallsAreIntended | src/message_pump.cpp:44-69 | in step, the pass ends and its calls and result are the intended ones |
| MessagePumpLaws.CalledTwice | src/message_pump.cpp:45-51 | a filter that takes out itself and the one below lets the one above be called twice |
| MessagePumpLaws.NeverEnds | src/message_pump.cpp:45-51 | two filters that each register themselves anew keep the pass going for ever |
| Layout.SizeChildren | src/layout.cpp:225-301 | computes the size of every child along the main axis |
| Layout.MainSizesFacts | src/layout.cpp:225-301 | whatever the children ask for: all keep to their bounds, fixed ones keep their size, and unless they do not fit to begin with, they and the gaps fit in the space; a shortage is taken from auto-sized children, as far as they can give |
| Layout.KeepsLeastExactly | src/layout.cpp:15-19 | a child stays at or above its minimum, with zero as the least, in every row and column exactly when it is not auto-sized with a negative minimum |
| Layout.StretchChildren | src/layout.cpp:257-283 | the rounds end after at most one more than there are children to stretch |
| Layout.RoundGives | src/layout.cpp:270-282 | a round gives out at most what is left, and all of it when it fills no child up |
| Layout.StretchedFacts | src/layout.cpp:257-283 | stretching gives out no more than there is, takes nothing away, keeps to the maxima and leaves other children alone |
| Layout.UnboundedInProportion | src/layout.cpp:257-283 | without maxima everything is given out at once, in proportion to the weights |
| Layout.ShrinkChildren | src/layout.cpp:284-301 | takes from each auto-sized child its part of the shortage |
| Layout.ShrunkFacts | src/layout.cpp:284-301 | exactly what is missing or all there is to take is taken, and no child falls below its minimum |
| Layout.PlaceChildren | src/layout.cpp:303-350 | each child begins after those before it and a gap for each |
| Layout.PlacedInOrder | src/layout.cpp:303-350 | children that fit do not overlap and end within the space |
| Layout.FairShares | src/layout.cpp:257-283 | over all rounds, a child that ends with room gained at least as much for its weight as any other, so children with room grow exactly in proportion to their weights |
| Layout.LeftoverClaims | src/layout.cpp:258-282 | if more than the tolerance is left, a child with room has next to no weight: its part of the rest is within the tolerance |
| Layout.MainSizesFair | src/layout.cpp:241-283 | both for every row or column, whether or not there was anything to share |
| Layout.StopsEarly | src/layout.cpp:279-281 | a heavy child that is full can end the rounds although another could take everything |
| Layout.WellUsedExactly | src/layout.cpp:257-283 | space that a child with weight and room could use stays unused exactly when the first round gives out next to nothing; no later round can end the sharing early |
| Layout.RoomToBegin | src/layout.cpp:257-283 | the space is always used when every child that stretches has room to begin with |
| AutoHide.RunIsSound | src/docking_auto_hide.cpp:33-139 | in every reachable state a panel waiting to hide or hiding has neither pointer nor focus inside, waiting never outlasts its delay, and progress agrees with the phase |
| AutoHide.BranchIsDead | src/docking_auto_hide.cpp:117-122 | the branch for a kept-open panel that is waiting to hide is never taken |
| AutoHide.TicksAddUp | src/docking_auto_hide.cpp:100-134 | any ticks have the effect of one span of time, the sum of what each counts for, from any state |
| AutoHide.ShortTicksAddUp | src/docking_auto_hide.cpp:100-134 | ticks of up to five seconds lose no time whatever their sum; if the sum is at most five seconds they have the effect of one tick |
| AutoHide.LongestTick | src/docking_auto_hide.cpp:103-105 | a tick counts in full in every reachable state exactly when it is no longer than five seconds |
| AutoHide.LongTickDiffers | src/docking_auto_hide.cpp:103-105 | every longer tick falls short in the middle of the longest wait |
| AutoHide.HidesInTime | src/docking_auto_hide.cpp:117-133 | left alone, a panel waiting to hide or hiding is gone exactly once what is left of its delay and the animation have passed, in ticks of any number and length |
| AutoHide.ShowsInTime | src/docking_auto_hide.cpp:106-116 | a panel waiting to be shown or showing is there exactly once what is left of its delay and the animation have passed |
| AutoHide.DockAutoHideController.RequestShow | src/docking_auto_hide.cpp:33-53 | shows at once for keyboard and program, by delay for the pointer |
| AutoHide.DockAutoHideController.RequestHide | src/docking_auto_hide.cpp:55-65 | starts hiding unless kept open, or hides at once |
| AutoHide.DockAutoHideController.SetPointerInside | src/docking_auto_hide.cpp:67-77 | the pointer coming in stops hiding, going out starts it |
| AutoHide.DockAutoHideController.Advance | src/docking_auto_hide.cpp:100-134 | moves through the phases as time passes |
| Quoting.QuoteWindowsArgument | src/process.cpp:178-201 | quotes an argument |
| Quoting.CommandLine | src/process.cpp:372-379 | joins the program and its arguments, and refuses an empty program |
| Quoting.CommandLineReadsBack | src/process.cpp:372-379 | the program receives exactly the arguments it was to be given, by the documented parsing rules, if quotation marks in its own name are balanced |
| Quoting.EveryListReadsBack | src/process.cpp:372-379 | a program receives every list of arguments exactly when every blank in its name, and the end of it, come after an even number of quotation marks |
| Quoting.Arguments | src/scheduler.cpp:30-61 | joins the quoted arguments with blanks |
| Quoting.JoinReadsBack | src/scheduler.cpp:30-61 | every list of arguments is read back from the joined text |
| Quoting.JoinIsInjective | src/scheduler.cpp:54-61 | different lists give different texts |
| Quoting.EquivalentMeansSameArguments | src/scheduler.cpp:172-179 | a registered task counts as up to date only for the very list of arguments it was registered with |
| Pipe.Wire.Transfer | src/ipc.cpp:118-154 | moves all bytes through partial reads or writes in order, or a part from the front and reports why |
| Pipe.Wire.WriteFrame | src/ipc.cpp:193-215 | writes length and payload whole, refuses one that is too large, or leaves a part from the front of the frame |
| Pipe.Wire.ReadFrame | src/ipc.cpp:216-240 | reads the frame at the front of the wire and nothing beyond it, refuses a length that is too large after four bytes, and on any other end has taken only a part of the frame |
| Pipe.FeedReadsFrames | src/ipc.cpp:118-240 | in whatever pieces bytes arrive, a payload is delivered exactly when they are its frame |
| Pipe.HeaderReadsBack | src/ipc.cpp:203-231 | the four length bytes read back as the length |
| Pipe.FramesAreUnambiguous | src/ipc.cpp:193-240 | a stream of bytes can be cut into frames in one way only |
| Pipe.EveryInterleavingDelivers | src/ipc.cpp:118-240 | however writing and reading interleave and into whatever pieces they fall, the reader delivers the payloads in order, never meets a length to refuse, and has them all when everything has come through |
| Pipe.NeverStuck | src/ipc.cpp:118-154 | until then one end can always go on |
| TextEncoding.IsValidUtf16 | src/text_file.cpp:58-68 | accepts exactly text whose surrogates come in pairs |
| TextEncoding.EncodeText | src/text_file.cpp:94-119 | encodes valid text with the mark of its encoding |
| TextEncoding.DecodeFile | src/text_file.cpp:195-213 | tells the encoding by the mark and decodes the rest |
| TextEncoding.Utf8ReadsBack | src/text_file.cpp:70-107 | decoding UTF-8 (section 3 of RFC 3629) inverts encoding |
| TextEncoding.Utf8WritesBack | src/text_file.cpp:70-107 | the strict decoder accepts only what the encoder writes |
| TextEncoding.FileReadsBackExactly | src/text_file.cpp:94-213 | text and encoding come back exactly when the text is not plain UTF-8 beginning with the mark |
| TextEncoding.FileReadsBack | src/text_file.cpp:94-213 | and in that case it comes back as marked text without it |
| TextEncoding.FileWritesBack | src/text_file.cpp:70-213 | writing back what was read gives the same bytes |
| TextEncoding.IllFormedRefused | src/text_file.cpp:58-119 | ill-formed surrogates are refused both ways |
| LogRotation.BoundedFileSink.Write | src/diagnostics.cpp:126-163 | appends the record, after moving the numbered files up when the current one would grow too large; the numbered files stay contiguous |
| LogRotation.BoundedFileSink.Rotate | src/diagnostics.cpp:138-155 | every file moves up by one and the last one goes |
| LogRotation.RunKeepsTheNewest | src/diagnostics.cpp:126-163 | over any run from no files, what is retained, oldest file to newest, is the end of what was accepted; the newest record is always retained, records are lost only once there are as many files as allowed, and every older file was left only when the next record did not fit |
| LogRotation.BoundedExactlyWithRotations | src/diagnostics.cpp:126-163 | every file stays within the maximum over every run exactly when there is at least one rotation |
| LogRotation.OutgrowsWithoutRotations | src/diagnostics.cpp:138-158 | without rotations two full records are enough to exceed it |

## Left out

- DockRoundTrip.SessionRoundTrip: takes the printing and scanning of doubles as a faithful codec, because the conversion of 17 digits to and from IEEE 754 doubles is the C++ runtime's; `DockRoundTrip.FixedPointIsFaithful` shows a codec that meets the assumption. `DockRoundTrip.ValidRoundTrip` also takes it that scanning a number does not go beyond its line.
- DocRoundTrip.SessionRoundTrip: makes the same assumption about the zoom factor.
- DockDrag.DockDragSession.Commit: a callback does not commit the same session again, and adoption does not report success after withdrawing the proposal, which makes src/docking_drag.cpp:122 read a value that is not there.
- DocTransfer.RunBalances: assumes that the document is not opened or closed outside the transfers meanwhile.
- MessagePump.MessageLoop.PreTranslate: speaks of passes that end, in step or not; `MessagePumpLaws.NeverEnds` shows one that does not.
- Layout.MainSizesFacts: covers the main axis of one row or column; measuring windows, the cross axis, overlays and nested nodes repeat it or only pass sizes on.
- Numbers: reals stand for float and double, so rounding, infinities other than an unlimited maximum, and NaN are not modelled; ids and counters are unbounded, so revision wrap-around is not.
- Strings: a character stands for one UTF-16 unit, paired or not; paths are compared by an unspecified canonical form, which stands for normalization and ordinal case folding; blanks are those of the classic locale.
- Allocation failure, thread-id checks, locks and the exceptions they cause.
- File, pipe and process calls of the system beyond their success or their listed ways to fail; in log rotation all file operations succeed.
- Loading and saving session files: reading, atomic replacement and stamps of files.
- Saving text atomically, the change check of a file while it is read, and message dispatch outside the filter pass.
- Native windows, floating hosts on screen, previews, painting, controls, dialogs and every other wrapper over Win32 and COM.
- Tab workspaces, property sheets, MDI, monitors, splitters, pagination, the image viewport and version comparison: shorter repeats of what is here, or plain arithmetic.
