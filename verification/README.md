# QindaQt verified models

Dafny models of the parts of QindaQt that carry its hardest invariants, with their proofs:

- **Window topology** (`Layout` to `TopologyMeaning`, `Coordinator`, `ContainerJson`, `JsonMeaning`):
  containers are ordered lists of pages, each a binary split tree; a topology is a map of containers
  beside a set of independent windows. Twenty-three commands edit a private candidate, normalization
  dissolves what has become empty or single, and a coordinator prepares, commits and publishes
  against a scene that may fail.
- **Controller input** (`StreamSearch`, `ButtonLayers`, `ButtonMeaning`, `ButtonSampler`, `HeldInput`,
  `GamePriority`, `PriorityObserver`): the chunked search of a stream, the layered button resolver,
  the reference-counted table of held inputs and the fenced observation worker.
- **Lock worker and greeter** (`WorkerWire`, `WorkerClient`, `GreeterAuthentication`, `GreeterPolicy`,
  `GreeterMeaning`, `GreeterController`, `OutputSupervisor`): the frame codec and deframer, one
  authentication attempt against its worker, the rules of unlocking and the controller that keeps
  them, and the supervision of one window per output.

Code the source writes as expressions is modelled by functions. Code that changes things step by
step is modelled by classes and loops, each proved against a specification function; the lemmas then
say what those functions are worth. The modules and lemmas named *Meaning say what each operation
accepts and exactly what it answers, in terms of fields, pages, paths and bytes and without the
functions that compute it. The outside world (scenes, sockets, processes, ports, factories) answers
from scripts that the theorems leave arbitrary, including calls it makes back into the code.

`dafny verify dfyconfig.toml` checks everything. Where a proof needs a bound, it is the source's own
(`int`, `quint64`), written out.

Five properties that one would expect turn out to need a condition, and are stated with it:

- `findAny` does not set the bit of an empty needle when nothing was read
  (`StreamSearch.AgreesWithNaiveSearch`).
- A pressed button the resolver does not list is neither held nor quarantined
  (`ButtonLayers.PartitionIff`).
- An output added again while its own window is being created can end with two windows, or with a
  window and a pending retry (`OutputSupervisor.ReaddedWhileCreated`); the exact condition is
  `OutputSupervisor.ReentryIff` for one creation and `OutputSupervisor.RunConsistentIff` for a run.
- A stale observation can be published after 2^64 invalidations during a single scan
  (`PriorityObserver.FenceWrapsAround`); the exact condition is `PriorityObserver.PublishedIsCurrentIff`.
- A worker whose client object is destroyed during an attempt sees its channel end before it is
  killed (`WorkerClient.WorkerProcess.Destroy`, which has the exact condition).

## Model
| member | source | states |
|---|---|---|
| Layout.ValidateDecides | src/core/layoutnode.cpp:227-274 | the validator that threads mutable ID sets accepts a tree exactly when it is well formed and brings in no ID the sets already hold, and then adds exactly its IDs |
| Layout.WellFormedIffFlat | src/core/layoutnode.cpp:227-274 | the recursive notion of a well-formed tree coincides with the flat one: distinct non-empty IDs, distinct non-empty windows and ratios strictly between 0 and 1 in the in-order list of nodes |
| Layout.FindWindowFinds | src/core/layoutnode.cpp:97-117 | a window is found exactly when a leaf of the tree shows it, and the leaf found shows it |
| Layout.FindNodeFinds | src/core/layoutnode.cpp:83-95 | a node is found exactly when its ID is one of the tree's |
| LayoutEdits.SplitAtWindowEffect | src/core/layoutnode.cpp:119-162 | splitting succeeds exactly when the target window exists, adds exactly two IDs and one window, and keeps a well-formed tree well formed when the newcomers are fresh |
| LayoutEdits.SplitAtWindowExact | src/core/layoutnode.cpp:119-162 | the result is the tree with the first leaf showing the target, the one its path leads to, replaced by the new split of that leaf and the newcomer, and nothing else changed |
| LayoutEdits.SplitAtWindowOrder | src/core/layoutnode.cpp:119-162 | in the in-order list of nodes the new leaf and its split stand directly before or after the first target leaf and nothing else changes |
| LayoutEdits.RemoveUndoesSplit | src/core/layoutnode.cpp:119-225 | removing the window a split has just added restores the original tree exactly |
| LayoutEdits.RemoveWindowEffect | src/core/layoutnode.cpp:191-225 | removal fails exactly for unknown windows, otherwise takes out the one window and its leaf and keeps well-formedness |
| LayoutEdits.RemoveWindowExact | src/core/layoutnode.cpp:191-225 | removal deletes the first leaf showing the window and its parent split: the result is the tree with that parent, at the leaf's path but for the last step, replaced by the leaf's sibling, and nothing else changed |
| LayoutEdits.RemoveWindowOrder | src/core/layoutnode.cpp:191-225 | the in-order list of nodes loses the leaf and one split standing directly beside it, and keeps the order of all other nodes |
| LayoutEdits.SetNodeRatioEffect | src/core/layoutnode.cpp:164-175 | setting a ratio succeeds exactly for split nodes, changes that node's ratio only, and setting the old ratio again restores the tree |
| LayoutEdits.ReplaceWindowIdEffect | src/core/layoutnode.cpp:177-189 | replacing a window's ID succeeds exactly when it is shown, changes that leaf only, and the reverse replacement restores the tree |
| LayoutEdits.SwapThroughPaths | src/core/windowcontainer.cpp:287-322 | exchanging two payloads through pointers to their leaves equals exchanging the two IDs everywhere at once |
| Names.TrimmedTwice | src/core/containerpage.cpp:14-45 | trimming a page name is idempotent |
| Names.TrimmedMeaning | src/core/containerpage.cpp:14-45 | trimming takes spaces off both ends until none is left there, and nothing else |
| Names.ValidNameMeaning | src/core/containerpage.cpp:14-33 | a name is valid exactly if it has at most 255 code units, neither begins nor ends with a space, and holds no control or format character |
| ContainerProofs.FreshNumberIsFresh | src/core/windowcontainer.cpp:89-105 | with fewer than 2^31-1 numbers in use the search yields a positive unused number and stays within int |
| ContainerProofs.PageNumberAssigned | src/core/windowcontainer.cpp:89-105 | a page keeps a number that is positive and unused; any other gets one that is; nothing else of the page changes |
| ContainerProofs.AddPageEffect | src/core/windowcontainer.cpp:84-117 | an accepted page is appended with its assigned number, the container stays valid and the active page stays unless there was none |
| ContainerProofs.AddPageSucceeds | src/core/windowcontainer.cpp:84-117 | a well-formed page whose IDs and windows are all new to the container is always accepted |
| ContainerProofs.MovePageEffect | src/core/windowcontainer.cpp:132-162 | an accepted move puts the page at the destination and keeps the other pages in their order, the active page, windows, leaves and validity |
| ContainerProofs.DetachPageEffect | src/core/windowcontainer.cpp:164-193 | detaching returns that page and leaves a valid container with the other pages in their order; an active page hands over to the page after it, or at the end to the one before it, and any other leaves the active page alone |
| ContainerProofs.SplitWindowEffect | src/core/windowcontainer.cpp:195-235 | an accepted split keeps the container valid, adds exactly one window and leaves every other window in its leaf |
| ContainerProofs.SplitPageEffect | src/core/windowcontainer.cpp:237-285 | the same for a split at a page's root |
| ContainerProofs.SwapWindowsEffect | src/core/windowcontainer.cpp:287-322 | a swap keeps pages, IDs and the set of windows; the two windows trade leaves and nobody else moves |
| ContainerProofs.SetSplitRatioEffect | src/core/windowcontainer.cpp:324-347 | a ratio in (0,1) is accepted exactly for existing split nodes and changes neither windows nor leaves |
| ContainerProofs.DetachWindowEffect | src/core/windowcontainer.cpp:349-390 | detaching a member leaves a valid container with exactly the other windows and returns the leaf it had |
| ContainerProofs.ReplaceWindowEffect | src/core/windowcontainer.cpp:397-436 | replacing a member exchanges one window and leaves every other window in its leaf |
| ContainerProofs.RenamePageEffect | src/core/containerpage.cpp:35-59 | renaming keeps the container valid and all windows in their leaves |
| ContainerProofs.TwoMembers | src/core/windowcontainer.cpp:57-63 | a valid container has at least two members exactly when it is neither empty nor a single leaf |
| ContainerMeaning.AddPageMeaning | src/core/windowcontainer.cpp:84-117 | a page is accepted exactly when its tree and name are good and its identities and windows new, and stands last under a number of its own |
| ContainerMeaning.MovePageMeaning | src/core/windowcontainer.cpp:132-162 | a move is accepted exactly for an existing page and another index in range, and rearranges the list as stated |
| ContainerMeaning.DetachPageMeaning | src/core/windowcontainer.cpp:164-193 | exactly an existing page is detached; its place goes to nobody and its being active to the page after it, or the one before |
| ContainerMeaning.SplitWindowMeaning | src/core/windowcontainer.cpp:195-235 | a split is accepted exactly for a shown target, an unknown window, two new identities and a ratio in (0,1); the target's leaf and the new one are then its children, in the order asked for |
| ContainerMeaning.SplitPageMeaning | src/core/windowcontainer.cpp:237-285 | the same at a page's root |
| ContainerMeaning.SwapWindowsMeaning | src/core/windowcontainer.cpp:287-322 | a swap is accepted exactly for two different members; every tree stays as it is but that the two have traded leaves |
| ContainerMeaning.SetSplitRatioMeaning | src/core/windowcontainer.cpp:324-347 | a ratio is accepted exactly in (0,1) and for an existing split; that split alone then has it |
| ContainerMeaning.DetachWindowMeaning | src/core/windowcontainer.cpp:349-390 | exactly a member is detached; its page goes with it if it has no other, and otherwise its sibling takes the parent's place |
| ContainerMeaning.ReplaceWindowMeaning | src/core/windowcontainer.cpp:397-436 | a member is replaced exactly by a non-empty unknown window; one leaf then shows that window, and nothing else changes |
| ContainerMeaning.ActivatePageMeaning | src/core/windowcontainer.cpp:119-130 | exactly an existing page becomes the active one, and nothing else changes |
| ContainerMeaning.RenamePageMeaning | src/core/containerpage.cpp:35-59 | an existing page takes exactly a valid trimmed name, and nothing else changes |
| WindowContainerObject.WindowContainer.Validate | src/core/windowcontainer.cpp:438-481 | the looping validator answers true exactly for containers meeting the declarative specification |
| WindowContainerObject.WindowContainer.NextNumber | src/core/windowcontainer.cpp:89-105 | the loops over the set of numbers, in any iteration order, compute the specified number without overflow |
| WindowContainerObject.WindowContainer.AddPage | src/core/windowcontainer.cpp:84-117 | the in-place method appends the page with the number the set search yields and refuses exactly what the specification refuses, changing nothing then |
| WindowContainerObject.WindowContainer.MovePage | src/core/windowcontainer.cpp:132-162 | the page list is rearranged exactly when the page exists, the destination is in range and differs from its place; otherwise nothing changes |
| WindowContainerObject.WindowContainer.DetachPage | src/core/windowcontainer.cpp:164-193 | the page comes out, and the active page passes to the neighbour the specification names |
| WindowContainerObject.WindowContainer.SplitWindow | src/core/windowcontainer.cpp:195-235 | the split lands in the first page that shows the target, the result validates as the source asserts, and a refusal changes nothing |
| WindowContainerObject.WindowContainer.SplitPage | src/core/windowcontainer.cpp:237-285 | the split replaces the page's root, the result validates as the source asserts, and a refusal changes nothing |
| WindowContainerObject.WindowContainer.SwapWindows | src/core/windowcontainer.cpp:287-322 | the swap through two leaf pointers is the simultaneous exchange of the two IDs |
| WindowContainerObject.WindowContainer.SetSplitRatio | src/core/windowcontainer.cpp:324-347 | the first page that knows the node decides; ratios outside (0,1) and leaves are refused with nothing changed |
| WindowContainerObject.WindowContainer.DetachWindow | src/core/windowcontainer.cpp:349-390 | a page is dropped with its last window, otherwise only the leaf goes |
| WindowContainerObject.WindowContainer.ReplaceWindow | src/core/windowcontainer.cpp:397-436 | the first page that shows the window is rewritten; an empty, equal or already shown ID is refused with nothing changed |
| WindowContainerObject.WindowContainer.ActivatePage | src/core/windowcontainer.cpp:119-130 | exactly an existing page becomes active |
| WindowContainerObject.WindowContainer.RenamePage | src/core/containerpage.cpp:35-59 | the trimmed name is checked and stored on exactly that page |
| WindowContainerObject.SwapIsRelabelling | src/core/windowcontainer.cpp:287-322 | two pointers into the page list, written one after the other, exchange the two windows on all pages |
| TopologyProofs.ApplyKeeps | src/hybrid/topologymutation.cpp:414-472 | every accepted command, of all twenty-three, keeps ownership disjoint and every container valid, conserves the windows but for adding or forgetting one, keeps every window in its leaf and touches no container it does not name |
| TopologyProofs.ApplyPlaces | src/hybrid/topologymutation.cpp:414-472 | every accepted command leaves exactly the windows it says in the independent set and in each container it touches: who joins, who leaves, and which container is founded or dissolved |
| TopologyProofs.NormalizeValidates | src/hybrid/topologymutation.cpp:474-490 | normalizing turns any such topology into one the validator accepts, losing and inventing no window |
| TopologyProofs.NormalizeMeaning | src/hybrid/topologymutation.cpp:474-490 | exactly the containers with fewer than two members dissolve and set them free; every other container stays as it is |
| TopologyProofs.KeptMerge | src/hybrid/topologymutation.cpp:111-149 | merging removes the source container, adds exactly its windows to the target's, leaves the independent windows alone and keeps every window in its leaf |
| TopologyProofs.KeptGroup | src/hybrid/topologyplacementmutation.cpp:202-288 | grouping takes exactly the two windows out of the independent set; they are the members of the new container |
| TopologyProofs.KeptInsert | src/hybrid/topologyplacementmutation.cpp:131-161 | inserting takes one window out of the independent set and adds it to the container's members |
| TopologyProofs.KeptRegroupMember | src/hybrid/topologyplacementmutation.cpp:290-346 | regrouping takes the one window out of the independent set and the other out of its container; the two are the members of the new container |
| TopologyProofs.KeptAdopt | src/hybrid/topologyadoptionmutation.cpp:14-46 | adopting takes exactly the layout's windows out of the independent set; they are the members of the new container |
| TopologyProofs.KeptMoveMember | src/hybrid/topologymutation.cpp:273-301 | moving takes the window out of the one container's members and adds it to the other's |
| TopologyProofs.KeptMovePage | src/hybrid/topologymutation.cpp:151-178 | moving a page takes exactly its windows out of the one container and adds them to the other |
| TopologyProofs.KeptRegroupPage | src/hybrid/topologyplacementmutation.cpp:163-200 | regrouping a page takes its windows out of the source and the one window out of the independent set; together they are the members of the new container |
| TopologyProofs.PlaceMemberEffect | src/hybrid/topologymutation.cpp:223-271 | a member placed as a split or as a page adds exactly its window and its leaf |
| NoOpPlacement.ReparentNoOpIff | src/hybrid/topologyplacementmutation.cpp:79-113 | a placement beside a target is rejected as already in place if and only if detaching and splitting again would give the same container up to the name of one split |
| NoOpPlacement.ReparentToRootNoOpIff | src/hybrid/topologyplacementmutation.cpp:115-128 | the same for a placement at a page's root |
| CommandMeaning.ReparentedMeaning | src/hybrid/topologyplacementmutation.cpp:396-440 | a reparenting is accepted exactly for two different members, a good split ID and ratio and a placement that is not there already; the member then leaves its leaf's place, takes the leaf along, and shares the new split with the target on the side asked for |
| CommandMeaning.ReparentedToRootMeaning | src/hybrid/topologyplacementmutation.cpp:442-493 | the same at a page's root |
| CommandMeaning.ExtractedMeaning | src/hybrid/topologyplacementmutation.cpp:348-394 | a member gets a page of its own exactly when the target page exists and would not be left empty and the new IDs are free; it stands right after the target, active if asked for |
| CommandMeaning.WithinMeaning | src/hybrid/topologymutation.cpp:448-464 | for each of the eight commands on one container: when it is accepted and exactly which container it makes |
| TopologyMeaning.PlacingMeaning | src/hybrid/topologymutation.cpp:223-271 | a placement is accepted exactly for a good index or target and new IDs, and puts the window on a page at the index, beside the target or beside the page, on the side asked for |
| TopologyMeaning.MergedMeaning | src/hybrid/topologymutation.cpp:111-149 | a merge is accepted exactly for two different containers that share no identity and an index in range; the pages then stand in order at the index |
| TopologyMeaning.MemberRegroupedMeaning | src/hybrid/topologyplacementmutation.cpp:290-346 | when a regrouping is accepted, and exactly which split or pages, in which order and with which active one, the new container has |
| TopologyMeaning.ApplyMeaning | src/hybrid/topologymutation.cpp:414-472 | for each of the twenty-three commands: exactly when it is accepted, and exactly which topology it makes, page by page and leaf by leaf (containers of fewer than 2^31-1 pages) |
| CommandEffects.MergeResult | src/hybrid/topologymutation.cpp:111-149 | the source's pages stand, in order, at the requested index of the target's own, with all trees, names and IDs, and the target's page stays active |
| CommandEffects.MergeKeepsFreeNumbers | src/hybrid/topologymutation.cpp:111-149 | pages whose numbers are free keep them through a merge |
| CommandEffects.InsertedPage | src/hybrid/topologymutation.cpp:223-271 | a page appended and then moved stands between its new neighbours |
| CommandEffects.PlacedAsPage | src/hybrid/topologymutation.cpp:223-271 | a window placed as a page stands at the requested index |
| CommandEffects.ExtractedAfterTarget | src/hybrid/topologyplacementmutation.cpp:348-394 | a member moved to a page of its own comes directly after the target page |
| CommandEffects.DockResult | src/hybrid/topologymutation.cpp:66-109 | docking makes one page, numbered 1 and active, whose split holds the two windows in order |
| WindowTopologyObject.WindowTopology.Validate | src/hybrid/windowtopology.cpp:105-144 | the looping validator answers true exactly for valid topologies |
| WindowTopologyObject.WindowTopology.OwnerOf | src/hybrid/windowtopology.cpp:89-97 | at most one container owns a window, and it is the one found |
| WindowTopologyObject.WindowTopology.Apply | src/hybrid/topologymutation.cpp:414-472 | the command dispatcher performs the specified command, its defensive branches being unreachable |
| WindowTopologyObject.WindowTopology.ApplyMerge | src/hybrid/topologymutation.cpp:111-149 | append and bring-forward loops yield the merged container; the move loop issues no move that is refused |
| WindowTopologyObject.BringForward | src/hybrid/topologymutation.cpp:111-149 | each round of the move loop is an accepted move that brings the next source page to its place |
| WindowTopologyObject.WindowTopology.ApplyMove | src/hybrid/topologymutation.cpp:273-301 | a member changes container with its leaf node: detached from the one, placed in the other, refused when either step is |
| WindowTopologyObject.WindowTopology.ApplyMovePage | src/hybrid/topologymutation.cpp:151-178 | a page changes container with all its IDs: detached, appended and moved to its index, refused when any step is |
| WindowTopologyObject.WindowTopology.ApplyDetachPage | src/hybrid/topologymutation.cpp:180-221 | a single-leaf page frees its window, any other page founds a container |
| WindowTopologyObject.WindowTopology.ApplyRelease | src/hybrid/topologymutation.cpp:368-381 | all members become independent and the container is gone |
| WindowTopologyObject.WindowTopology.ApplyGroup | src/hybrid/topologyplacementmutation.cpp:202-288 | the windows become single-leaf pages of a new container in the order given, the second one active on demand, and cease to be independent |
| WindowTopologyObject.WindowTopology.ApplyInsert | src/hybrid/topologyplacementmutation.cpp:131-161 | an independent window is placed as a split or a page and ceases to be independent; activation is for pages only |
| WindowTopologyObject.WindowTopology.ApplyRegroupPage | src/hybrid/topologyplacementmutation.cpp:163-200 | a page and an independent window found a new container, the window's page first |
| WindowTopologyObject.WindowTopology.ApplyRegroupMember | src/hybrid/topologyplacementmutation.cpp:290-346 | a member and an independent window found a new container, as a split or as two pages |
| WindowTopologyObject.WindowTopology.ExtractToPage | src/hybrid/topologyplacementmutation.cpp:348-394 | the target page is always still there after the member has been detached, and the new page stands right after it |
| WindowTopologyObject.WindowTopology.ApplyReparent | src/hybrid/topologyplacementmutation.cpp:396-440 | a no-op placement is refused before anything changes; otherwise the member is detached and split in beside the target |
| WindowTopologyObject.WindowTopology.ApplyReparentToRoot | src/hybrid/topologyplacementmutation.cpp:442-493 | a no-op placement is refused before anything changes; otherwise the member is detached and split in at the root of the page, which is still there |
| WindowTopologyObject.WindowTopology.ApplyAdopt | src/hybrid/topologyadoptionmutation.cpp:14-46 | the members collected into a list are removed from the independent set one by one and the container inserted |
| WindowTopologyObject.WindowTopology.Normalize | src/hybrid/topologymutation.cpp:474-490 | the loop over the containers, in any order, dissolves exactly the empty and single-leaf ones |
| Coordinator.CandidateValid | src/hybrid/topologycoordinator.cpp:73-86 | the normalized candidate is always valid, so InvalidCandidate cannot occur |
| Coordinator.ExecuteOutcome | src/hybrid/topologycoordinator.cpp:47-124 | a success raises the revision by exactly one and publishes a valid topology with the expected windows; every failure leaves the repository as it was and publishes nothing |
| Coordinator.ExecuteMeaning | src/hybrid/topologycoordinator.cpp:47-124 | the error names the first thing that went wrong: revisions used up, command refused, scene unavailable, prepare or commit failed; without one, exactly the normalized result of the command is published as the next revision, and that is what the scene was asked to prepare |
| Coordinator.ExecuteEffect | src/hybrid/topologycoordinator.cpp:47-124 | a command succeeds exactly when revisions are left, its arguments are in order and the scene goes along, and publishes exactly the topology the command describes, normalized |
| Coordinator.ExecuteDisciplined | src/hybrid/topologycoordinator.cpp:93-124 | a failed prepare or commit is followed by a rollback and never by a publication, and the scene sees the old revision until commit has succeeded |
| Coordinator.RunSafe | src/hybrid/topologycoordinator.cpp:47-124 | over every run against every scene, with reentrant submissions: always valid, one revision per publication, scene steps disciplined, every prepare sees the latest publication |
| Coordinator.RunConserves | src/hybrid/topologycoordinator.cpp:47-124 | over every run no window is lost, duplicated or invented but by committed add and forget commands |
| Coordinator.RunFollows | src/hybrid/topologycoordinator.cpp:47-124 | over every run each committed command publishes the normalized result of applying it to the latest publication, and no other command publishes anything |
| Coordinator.TopologyCoordinator.Execute | src/hybrid/topologycoordinator.cpp:47-124 | the guarded transaction on the repository object is the specified execution |
| Coordinator.TopologyCoordinator.SubmitAll | src/hybrid/topologycoordinator.cpp:47-58 | every command submitted from inside the scene is refused and changes nothing |
| Coordinator.TopologyRepository.Publish | src/hybrid/windowtopology.cpp:146-165 | publication swaps in the candidate and nothing else |
| ContainerJson.PerLevelValidation | src/core/layoutnode_json.cpp:50-120 | validating at every level rejects exactly what validating the finished tree would, so it never rejects a subtree of a valid tree |
| ContainerJson.NodeRoundTrip | src/core/layoutnode_json.cpp:30-120 | every well-formed tree is read back as it was written |
| ContainerJson.RoundTrip | src/core/windowcontainer_json.cpp:37-134 | every valid container is read back as it was written |
| ContainerJson.AcceptedIsValid | src/core/windowcontainer_json.cpp:53-134 | every accepted object yields a valid container, and writing that loses nothing |
| JsonMeaning.NodeReadIff | src/core/layoutnode_json.cpp:50-120 | a tree is read from exactly the objects that spell it key by key, if it is well formed |
| JsonMeaning.NodeWritten | src/core/layoutnode_json.cpp:30-48 | what is written for a tree spells it key by key |
| JsonMeaning.ContainerReadIff | src/core/windowcontainer_json.cpp:53-134 | a container is read from exactly the objects that spell it in schema version 1, with names and numbers defaulting as stated, if it is valid |
| JsonMeaning.ContainerWritten | src/core/windowcontainer_json.cpp:37-51 | what is written for a container spells it key by key |
| ContainerJson.WriteContainer | src/core/windowcontainer_json.cpp:37-51 | the loop over the pages writes the specified object |
| ContainerJson.ReadContainer | src/core/windowcontainer_json.cpp:53-134 | the loop with its early exits accepts exactly the specified objects and builds the specified container |
| StreamSearch.FindAny | src/controllers/proc_files.cpp:53-78 | the word returned is the naive search of all bytes read, never more than the limit; reading ends exactly at the limit, an interruption, an empty read or a stop bit, and not before |
| StreamSearch.ResultMeaning | src/controllers/proc_files.cpp:53-78 | bit i is set exactly when something was read and needle i occurs in the bytes read, however they were cut into chunks |
| StreamSearch.ResultBits | src/controllers/proc_files.cpp:53-78 | bit i of the word, counted from the lowest, is needle i's |
| StreamSearch.ReadMeaning | src/controllers/proc_files.cpp:25-31 | a read retries as long as signals interrupt it and then gives what is asked for, left and offered |
| StreamSearch.AgreesWithNaiveSearch | src/controllers/proc_files.cpp:53-78 | the result is the naive search exactly when something was read or no needle is empty |
| StreamSearch.MaskAcross | src/controllers/proc_files.cpp:62-76 | searching the carried tail and the fresh bytes finds exactly what searching everything would add |
| StreamSearch.SearchChunk | src/controllers/proc_files.cpp:65-76 | one chunk read behind the carry, searched with it, and carried over; the carry always leaves room for a whole chunk |
| StreamSearch.MoveToFront | src/controllers/proc_files.cpp:74-75 | the overlapping move puts the tail of the window at the front |
| StreamSearch.Descriptor.Read | src/controllers/proc_files.cpp:25-31 | interrupted calls are retried; what is delivered lands at the offset and nothing before it changes |
| ButtonLayers.RunReplays | src/controllers/button_layers.cpp:20-57 | over every run between clears each button's edges alternate, every up carries the binding of its own down, and the edges account for exactly what is held |
| ButtonLayers.AtMostOneEdge | src/controllers/button_layers.cpp:20-57 | no button gets two edges in one sample, and it is said which buttons get one |
| ButtonLayers.ConsistentNext | src/controllers/button_layers.cpp:20-57 | a sample keeps held and quarantined buttons a partition of the listed pressed ones and every modifier held |
| ButtonLayers.PartitionIff | src/controllers/button_layers.cpp:20-57 | held and quarantined buttons are exactly the pressed ones if and only if the sample names no unlisted button |
| ButtonLayers.AllReleased | src/controllers/button_layers.cpp:20-57 | a sample with everything released leaves no hold, modifier or quarantine |
| ButtonLayers.LayerChangeRule | src/controllers/button_layers.cpp:33-41 | at a change of layer modifiers, gyro contact and pure modifier bindings stay held; every other held button goes into quarantine |
| ButtonLayers.QuarantineIsSilent | src/controllers/button_layers.cpp:42-56 | a quarantined button gives no edge until it is let go |
| ButtonLayers.StableSample | src/controllers/button_layers.cpp:20-57 | sampling the same buttons again announces and changes nothing, whatever the profile has become |
| ButtonMeaning.InForceMeaning | src/controllers/button_layers.cpp:6-14 | the page in force is the first one with the ID that the newest modifier's binding names, its page for a hold-page action and its hold page otherwise, or else the active page |
| ButtonMeaning.SampleMeaning | src/controllers/button_layers.cpp:20-57 | button by button: a press is bound on the active page and becomes a modifier exactly if that binding names a layer, and is bound on the page in force otherwise; which holds survive and which go into quarantine |
| ButtonMeaning.EdgesMeaning | src/controllers/button_layers.cpp:20-57 | the edges are exactly a down for each press under its new binding and an up for each button no longer held under its old one, one per button |
| ButtonMeaning.EdgesInTurn | src/controllers/button_layers.cpp:20-57 | releases come first, then presses that engage a layer, then what a change of layer takes away, then pure modifiers, then all else; presses of a kind come in the order of the button list |
| ButtonMeaning.ModifiersMeaning | src/controllers/button_layers.cpp:23-32 | the modifiers are those that stay pressed in their order and then the new ones in the order of the button list |
| ButtonSampler.ButtonLayersObject.Sample | src/controllers/button_layers.cpp:20-57 | the ordered loops produce a specified sample, whatever the iteration order of the sets, with the bindings, modifiers and edges stated button by button |
| ButtonSampler.ButtonLayersObject.ReleaseGone | src/controllers/button_layers.cpp:23-26 | the release loop gives one up for each held button that is gone and cleans modifiers and quarantine |
| ButtonSampler.ButtonLayersObject.EngageLayers | src/controllers/button_layers.cpp:27-32 | activators take their binding from the active page, in the order of the button list |
| ButtonSampler.ButtonLayersObject.RetireLayer | src/controllers/button_layers.cpp:33-41 | what a change of layer takes away moves into quarantine with one up each |
| ButtonSampler.ButtonLayersObject.PressSome | src/controllers/button_layers.cpp:42-55 | each of the two press passes takes exactly the buttons due, on the effective page |
| ButtonSampler.ButtonLayersObject.Page | src/controllers/button_layers.cpp:8-14 | the page returned is the one in force: the first with the ID the newest modifier's binding names, or the active page |
| ButtonSampler.RemainingPresses | src/controllers/button_layers.cpp:42-55 | the two passes together take exactly the new presses that engaged no layer; the quarantine test in them never decides |
| HeldInput.RunReplays | src/controllers/held_input_state.cpp:8-31 | over every run the changes fold to exactly the inputs held by some token; every down hits an input that is up and every up one that is down |
| HeldInput.RunMeaning | src/controllers/held_input_state.cpp:8-31 | over every run the changes fold to exactly the keys and buttons that the presses not yet released asked for, each as what it was asked for |
| HeldInput.ReleaseUndoesPress | src/controllers/held_input_state.cpp:8-31 | releasing a token just pressed restores the table and undoes each change, last first |
| HeldInput.KeysInsideButtons | src/controllers/held_input_state.cpp:8-31 | keys precede buttons on the way down and follow them on the way up; only inputs nobody else holds are announced |
| HeldInput.PressInOrder | src/controllers/held_input_state.cpp:8-21 | a press announces keys and then buttons, each in the order of its first mention |
| HeldInput.HeldInputState.Press | src/controllers/held_input_state.cpp:8-21 | the counting loops announce the specified changes and every counter stands at the number of tokens holding its code |
| HeldInput.HeldInputState.Release | src/controllers/held_input_state.cpp:22-31 | the same for the reversed counting loops |
| HeldInput.UniqueMeaning | src/controllers/held_input_state.cpp:10-13 | duplicates are dropped and nothing else |
| GamePriority.InspectGamePriority | src/controllers/game_priority.cpp:62-98 | the accumulating loop reports exactly what its description says of the processes it reached |
| GamePriority.InspectDescribes | src/controllers/game_priority.cpp:62-98 | the report names Steam, the held nodes, the game nodes, a consumer and for each game node the least name, each if and only if some process warrants it |
| GamePriority.InspectMeaning | src/controllers/game_priority.cpp:62-98 | the report told from the fields of the processes: Steam by name, held nodes, consumers and the focused game's nodes |
| GamePriority.LessMeaning | src/controllers/game_priority.cpp:62-98 | names are compared at the first place where they differ |
| GamePriority.OrderDoesNotMatter | src/controllers/game_priority.cpp:89-95 | the report does not depend on the order of the directory, not even in its names |
| GamePriority.FocusIndependent | src/controllers/game_priority.cpp:84-88 | without a consumer the report is the same for every focus, and whether there is one never depends on the focus |
| PriorityObserver.RunSound | src/controllers/game_priority_observer.cpp:26-85 | over every run at most one scan is in flight, and one is while an invalidation is unanswered |
| PriorityObserver.PublishedIsCurrent | src/controllers/game_priority_observer.cpp:74-82 | a delivery publishes exactly when unfenced, and then the verdict for the current paths and focus, unless 2^64 invalidations fell into one scan; otherwise it scans again |
| PriorityObserver.PublishedIsCurrentIff | src/controllers/game_priority_observer.cpp:28-83 | whatever the processes, a delivery publishes nothing or the current verdict exactly when the invalidations during its scan are not a multiple of 2^64 or have left the paths as they were |
| PriorityObserver.FenceWrapsAround | src/controllers/game_priority_observer.cpp:28-29 | such a run: when 2^64 invalidations during one scan have changed the paths, there are processes for which the verdict published differs from the one for the current paths |
| PriorityObserver.QuietScanSettles | src/controllers/game_priority_observer.cpp:69-82 | once nothing changes, two deliveries at most end the scanning with an observation: a first one that is not published is followed by one that publishes the verdict for the current paths and focus |
| PriorityObserver.StepMeaning | src/controllers/game_priority_observer.cpp:26-54 | new paths or a demand invalidate; so does a new focus while a consumer was last seen on watched paths; each leaves a scan in flight |
| PriorityObserver.RunUpToDate | src/controllers/game_priority_observer.cpp:26-83 | over every run with fewer than 2^64 invalidations, either one is owed and a scan in flight or what was published last is current for the paths and the focus |
| PriorityObserver.GamePriorityObserver.OnRefresh | src/controllers/game_priority_observer.cpp:26-35 | new paths or a demand invalidate once and replace the paths; a scan is posted exactly when none is running |
| PriorityObserver.GamePriorityObserver.SetFocusedProcess | src/controllers/game_priority_observer.cpp:36-54 | a new focus invalidates exactly when a consumer was published and paths are watched; negative process numbers count as none |
| PriorityObserver.GamePriorityObserver.OnDelivery | src/controllers/game_priority_observer.cpp:67-83 | the verdict for the captured query is published when unfenced and still relevant, and otherwise exactly one new scan is posted |
| WorkerWire.DecodesIffEncoded | src/lock_authentication/worker_wire.cpp:42-60 | bytes decode to a frame if and only if they are that frame's encoding |
| WorkerWire.EncodedBytes | src/lock_authentication/worker_wire.cpp:42-54 | the wire format byte by byte: magic, version, kind, reserved byte, length, epoch and request with the first byte counting most, payload; and exactly which frames have one |
| WorkerWire.Put | src/lock_authentication/worker_wire.cpp:12-17 | the loop writes the number big-endian into the buffer and nothing else |
| WorkerWire.Get | src/lock_authentication/worker_wire.cpp:18-24 | the loop reads the big-endian number; nothing is shifted out |
| WorkerWire.EncodeFrame | src/lock_authentication/worker_wire.cpp:42-54 | the encoder that fills a zeroed header in place computes the specified encoding or refuses |
| WorkerWire.DecodeFrame | src/lock_authentication/worker_wire.cpp:55-60 | the decoder accepts exactly the specified byte strings |
| WorkerWire.ChunkingDoesNotMatter | src/lock_worker_client/worker_process.cpp:114-137 | the frames extracted and whether framing aborts depend on the bytes alone; what is left over stays below one maximal frame |
| WorkerWire.FramesRoundTrip | src/lock_worker_client/worker_process.cpp:114-137 | any list of frames, encoded and cut anywhere, comes back as it was |
| WorkerWire.ReencodeFrames | src/lock_worker_client/worker_process.cpp:124-136 | bytes that do not abort are the encodings of the frames extracted followed by the rest |
| WorkerClient.ConversationFacts | src/lock_worker_client/worker_process.cpp:138-156 | in an unbroken conversation all frames carry the attempt's token and a result is the last thing heard |
| WorkerClient.ConversationResult | src/lock_worker_client/worker_process.cpp:138-145 | there is a result exactly when the last frame is of kind 8, and it is the one its byte stands for: 48 authenticated, 49 denied, 50 account denied, 51 cancelled, 52 unavailable |
| WorkerClient.HearMeaning | src/lock_worker_client/worker_process.cpp:138-156 | exactly which frames a conversation goes on with, by kind number, and what each does to it |
| WorkerClient.ConversationCounts | src/lock_worker_client/worker_process.cpp:138-156 | at most sixty-four messages are shown and every response answers a question of its own |
| WorkerClient.WorkerProcess.Drain | src/lock_worker_client/worker_process.cpp:114-137 | the chunks are taken in order up to the first that ends the attempt; whether one does depends on the bytes received alone; otherwise exactly the frames in them have been heard; the overflow branch is unreachable |
| WorkerClient.WorkerProcess.CutFrames | src/lock_worker_client/worker_process.cpp:124-136 | the inner loop hears exactly the whole frames in the buffer |
| WorkerClient.WorkerProcess.Consume | src/lock_worker_client/worker_process.cpp:138-156 | one frame advances the conversation by its kind, or aborts on a foreign token, a late result, an unanswered question or too many messages |
| WorkerClient.WorkerProcess.Respond | src/lock_worker_client/worker_process.cpp:80-88 | a response goes out exactly when a question of a live attempt is unanswered, nothing is buffered, the frame can be encoded and the socket does not fail; otherwise the attempt fails, or nothing happens without a question |
| WorkerClient.WorkerProcess.Send | src/lock_worker_client/worker_process.cpp:89-101 | one frame at a time: accepted exactly when nothing is buffered, it can be encoded and the socket does not fail; what the socket took and what is buffered are the frames promised, in order |
| WorkerClient.WorkerProcess.Flush | src/lock_worker_client/worker_process.cpp:102-113 | exactly the bytes the socket takes leave the buffer, none lost or repeated |
| WorkerClient.PushedMeaning | src/lock_worker_client/worker_process.cpp:102-113 | sending goes on through interruptions and partial writes until all is taken, the socket would block, or it fails |
| WorkerClient.ChunksMeaning | src/lock_worker_client/worker_process.cpp:117-122 | receiving goes on through interruptions until it would block, the channel ends, or nothing is delivered |
| WorkerClient.WorkerProcess.Abort | src/lock_worker_client/worker_process.cpp:158-171 | a running child is killed first and the channel closed after it, and without a child the attempt completes once; in every valid state no channel was closed before a child that could still run |
| WorkerClient.WorkerProcess.Finish | src/lock_worker_client/worker_process.cpp:172-178 | one completion: with the failure there was; or else, if the child ended normally with code 0 and nothing was left over, with what its last frame's byte stands for; or else as unavailable. An approval needs a last frame of kind 8 with the byte 48, and all bytes received accounted for |
| WorkerClient.WorkerProcess.Start | src/lock_worker_client/worker_process.cpp:41-79 | an attempt starts exactly when none is active or running, the token is non-zero and the platform admits it, and goes on exactly when the process launches and the first frame can be sent; a process that fails to start at once closes the channel and completes the attempt as unavailable |
| WorkerClient.WorkerProcess.Destroy | src/lock_worker_client/worker_process.cpp:37-40 | destruction closes the channel before it kills the child, so a worker sees the channel end while it can still run exactly when the object is destroyed with the channel open and the process running; at every other close the child is dead |
| WorkerClient.DestroyedMidAttempt | src/lock_worker_client/worker_process.cpp:37-40 | such a run: an attempt is started and the object destroyed |
| GreeterAuthentication.AtMostOneUnlock | src/lock_greeter/authentication_controller.cpp:204-240 | over every run the unlock is asked for at most once |
| GreeterAuthentication.UnlockOrigin | src/lock_authentication/attempt_coordinator.cpp:14-33 | every unlock request answers an Authenticated completion of a token begun and since then neither cancelled, completed nor left behind |
| GreeterAuthentication.HeldGoesToFirstSecretPrompt | src/lock_greeter/authentication_controller.cpp:151-179 | a response held back is sent only to the first prompt of an attempt, only if that prompt is secret, and only while that attempt is alive |
| GreeterAuthentication.HeldIsSentOnce | src/lock_greeter/authentication_controller.cpp:251-257 | every held response that is sent was held for it and neither sent nor discarded before |
| GreeterAuthentication.TokensAreFresh | src/lock_authentication/attempt_coordinator.cpp:14-20 | tokens do not repeat until the request counter has gone all the way round |
| GreeterPolicy.RunLawful | src/lock_greeter/authentication_controller.cpp:50-240 | whatever the ports answer and whatever events they deliver, at any depth of nesting, the controller's log breaks no rule and holds at most one unlock request |
| GreeterPolicy.ApprovalAsksForUnlock | src/lock_greeter/authentication_controller.cpp:204-226 | an approval of the pending token does ask for the unlock, at once |
| GreeterPolicy.HeldIsDelivered | src/lock_greeter/authentication_controller.cpp:151-179 | a response held while an attempt starts is sent to its first prompt if that is secret |
| GreeterPolicy.NoInputNoAttempt | src/lock_greeter/authentication_controller.cpp:50-102 | as long as nothing the user does arrives, at any depth, no attempt begins |
| GreeterPolicy.SettledLawful | src/lock_greeter/authentication_controller.cpp:204-226 | a completion of the pending token is recorded once and only an approval leads to the unlock request |
| GreeterPolicy.PromptingLawful | src/lock_greeter/authentication_controller.cpp:151-173 | what was typed ahead survives only a first secret prompt, and may then be sent |
| GreeterMeaning.StartMeaning | src/lock_greeter/authentication_controller.cpp:76-97 | a start asks the runner at once if the session is locked, no child is left and no token pending; it waits for a child that is left, and does nothing otherwise; an accepted attempt is starting and a refused one has ended |
| GreeterMeaning.LockedMeaning | src/lock_greeter/authentication_controller.cpp:50-63 | the lock is entered once, when the session says it is locked, and earlier input starts an attempt |
| GreeterMeaning.InputMeaning | src/lock_greeter/authentication_controller.cpp:64-71 | input before the lock is remembered, input at an armed idle prompt starts an attempt, and any other does nothing |
| GreeterMeaning.SubmitMeaning | src/lock_greeter/authentication_controller.cpp:103-132 | a typed response is sent at a prompt unless it is an empty secret, held while an attempt starts, dropped while one verifies, and when idle held for the attempt it asks for; nothing stays held if none begins or waits, and nothing happens in a session that is not locked |
| GreeterMeaning.RespondMeaning | src/lock_greeter/authentication_controller.cpp:133-139 | a response is sent exactly at a prompt |
| GreeterMeaning.SendMeaning | src/lock_greeter/authentication_controller.cpp:140-150 | the response goes to the runner at once, and the attempt verifies |
| GreeterMeaning.PromptMeaning | src/lock_greeter/authentication_controller.cpp:151-179 | questions of a live attempt are shown; a held response answers the first one if that is secret, and is discarded by any other |
| GreeterMeaning.CancelMeaning | src/lock_greeter/authentication_controller.cpp:180-192 | the token is dropped at once, and whatever the runner delivers, the greeter ends idle, armed and holding nothing |
| GreeterMeaning.RejectedMeaning | src/lock_greeter/authentication_controller.cpp:193-203 | the epoch is left at once, and whatever the runner delivers, the greeter ends idle and holding nothing |
| GreeterMeaning.CompletedMeaning | src/lock_greeter/authentication_controller.cpp:204-240 | an answer counts exactly for the pending token of a locked session; an approval asks for the unlock and ends the epoch, any other arms input exactly if the user was asked something; then a waiting start goes ahead |
| GreeterController.AuthenticationController.EnterLock | src/lock_greeter/authentication_controller.cpp:50-63 | the lock is entered once, and input that came first starts an attempt |
| GreeterController.AuthenticationController.NoteUserInput | src/lock_greeter/authentication_controller.cpp:64-71 | input before the lock is remembered; later input starts an attempt only when idle and armed |
| GreeterController.AuthenticationController.Start | src/lock_greeter/authentication_controller.cpp:76-97 | an attempt begins only when idle and locked, waits for the old child, and completes as unavailable when the runner refuses |
| GreeterController.AuthenticationController.ResumePendingStart | src/lock_greeter/authentication_controller.cpp:98-102 | a start that was waiting goes ahead once the old child is gone |
| GreeterController.AuthenticationController.SubmitResponse | src/lock_greeter/authentication_controller.cpp:103-132 | a submission is sent to a prompt, held for an attempt it starts or that is starting, or dropped, by phase; an empty secret is never sent |
| GreeterController.AuthenticationController.Send | src/lock_greeter/authentication_controller.cpp:140-150 | the response goes to the runner, and a refusal cancels the attempt there |
| GreeterController.AuthenticationController.ShowPrompt | src/lock_greeter/authentication_controller.cpp:151-179 | a prompt of a live attempt is shown, and the response held for it sent, with whatever that delivers |
| GreeterController.AuthenticationController.CancelAttempt | src/lock_greeter/authentication_controller.cpp:180-192 | the token is gone before the runner is told; afterwards the controller is idle and armed, with nothing held |
| GreeterController.AuthenticationController.Reject | src/lock_greeter/authentication_controller.cpp:193-203 | the epoch is left before the runner is told; afterwards the controller is idle with nothing held |
| GreeterController.AuthenticationController.Complete | src/lock_greeter/authentication_controller.cpp:204-240 | a stale answer only resumes a waiting start; a current one ends the attempt, asks for the unlock if approved, and then resumes |
| GreeterController.AuthenticationController.Queue | src/lock_greeter/authentication_controller.cpp:251-257 | the held response is replaced, never joined |
| GreeterController.AttemptCoordinator.Begin | src/lock_authentication/attempt_coordinator.cpp:14-20 | a token is issued exactly when locked with none pending, and counts up modulo 2^64 |
| GreeterController.AttemptCoordinator.Complete | src/lock_authentication/attempt_coordinator.cpp:22-33 | a stale answer changes nothing; an approval consumes the lock epoch |
| OutputSupervisor.RunConsistent | src/lock_greeter/output_window_supervisor.cpp:5-48 | live windows are exactly the entries marked window, pending retries exactly those marked retry, never both, over every run in which no output is added while its own window is being created |
| OutputSupervisor.ReentryIff | src/lock_greeter/output_window_supervisor.cpp:23-48 | an output removed and added again at will while its own window is being created, but not once more inside such a second creation: windows, timers and marks agree afterwards exactly when the entry found as create() returns is gone, has no window, and waits for a retry only if this creation failed too |
| OutputSupervisor.RunConsistentIff | src/lock_greeter/output_window_supervisor.cpp:5-48 | over every run, with any nesting of creations of one output inside another or inside itself, windows, timers and marks agree after every event at every depth exactly when every entry found after a create() can take its result |
| OutputSupervisor.EventMeaning | src/lock_greeter/output_window_supervisor.cpp:5-48 | a window is asked for exactly for an output added without window or retry and for one whose retry falls due, and what comes of it is recorded as stated; a removal takes entry, window and timer away |
| OutputSupervisor.QuietAttempt | src/lock_greeter/output_window_supervisor.cpp:23-48 | a new output gets its window, or a retry after 250 ms, or is forgotten, as the creation says |
| OutputSupervisor.ReaddedWhileCreated | src/lock_greeter/output_window_supervisor.cpp:23-48 | the simplest such run, one bare re-adding: all agrees exactly when the inner attempt finds no output or both attempts fail |
| OutputSupervisor.RunDelays | src/lock_greeter/output_window_supervisor.cpp:43-47 | over every run, the delay after k failures in a row is min(30000, 250*2^k) ms |
| OutputSupervisor.BackoffDoubles | src/lock_greeter/retry_backoff.h:10-24 | the doubling loop with its cap is min(maximum, initial*2^k) for non-negative durations with a maximum below 2^62 ms, for which no doubling overflows the 64-bit count |
| OutputSupervisor.OutputWindowSupervisor.AttemptWindow | src/lock_greeter/output_window_supervisor.cpp:23-48 | the retry mark is cleared, any events are delivered during the creation, and the entry found afterwards, if any, takes the result |
| OutputSupervisor.OutputWindowSupervisor.OutputRemoved | src/lock_greeter/output_window_supervisor.cpp:10-17 | the entry goes, its timer is cancelled and its window destroyed |
| OutputSupervisor.OutputWindowSupervisor.RetryIsDue | src/lock_greeter/output_window_supervisor.cpp:18-22 | an attempt is made exactly for an entry without window that waits for its retry |
| OutputSupervisor.OutputWindowSupervisor.WindowCount | src/lock_greeter/output_window_supervisor.cpp:61-64 | counting the entries counts the live windows |
| OutputSupervisor.OutputWindowSupervisor.PendingRetries | src/lock_greeter/output_window_supervisor.cpp:65-68 | counting the entries counts the running timers |

## Left out
- LayoutNode's nodes are values: a split or removal yields a new tree where the source rewrites the node in place, so moves of owned children are not modelled; the containers, topologies and every other object are classes.
- Error messages, log lines and status texts; a refusal is a false or an empty result.
- Ratios are reals strictly between 0 and 1; NaN and rounding are not modelled.
- Page names: category tables of the Basic Multilingual Plane are written out; characters beyond it are checked only as UTF-16 units.
- JSON is a value, not text; numbers in it are reals; file storage is not part of this model.
- Iteration order of hash sets and maps: the loops take elements in any order, which covers the source's.
- Button names are constructors of an enumeration, with `Unlisted` for any other name.
- HeldInput.HeldInputState.Press: does not model the overflow of an int counter by 2^31 tokens holding one code.
- GamePriority: what /proc says of a process is a record; reading it and the focus heuristics are not part of this model.
- PriorityObserver: slots that call back while `invalidated` or `observed` is emitted are not modelled; the worker's thread is its order of deliveries.
- WorkerClient.WorkerProcess.Drain: slots that call back while a prompt is being emitted are not modelled.
- WorkerChannel's blocking send and receive with poll and deadline, socket options, process creation and wiping of secrets are not part of this model.
- GreeterController: the signals `changed`, `clearFields` and `finished` are taken to deliver nothing back; construction and destruction are not part of the run.
- OutputSupervisor.BackoffDoubles: says nothing of negative durations or maxima of 2^62 ms and more, for which the doubling can overflow.
- Backoff: the counter of failures wraps as the source's does; the timers' clock is not modelled.
- Decorations, QML bridges, session tools, Wayland and PAM: user interface and foreign calls without such invariants.
