# GEM control plane: verified models

Dafny models of the three parts of GEM whose correctness does not show in any single function.

**Operations** (`api/gem_api/services/`). `OperationManager.dfy` holds the manager's dictionary, records and
subscriber queues as objects. `OperationProtocol.dfy` is the asyncio program around them: request handlers,
pipeline tasks, done-callbacks and log streams as steps of one state machine with a first-in-first-out lock;
a step is the code between two suspension points. `ProtocolInvariant.dfy` and `ProtocolSteps.dfy` prove the
invariant, `ProtocolTheorems.dfy` and `StreamTheorems.dfy` what follows for every run,
`OperationOutcomes.dfy` why an operation ended and what it is left with, and `ManagerAgreement.dfy` ties the
machine's steps to the manager's methods, which share the functions of `OperationRecords.dfy`. `LineReader.dfy`
proves the chunk-to-line splitter of the runner against one split of the whole output. `ZoneRegion.dfy` relates
request validation to the runner's second reading of the same fields.

**Secondary networks** (`pod_mutator.go`). `Ipv4.dfy` has 32-bit addresses, their dotted decimal text (section
3.2.2 of RFC 3986) and CIDR blocks (section 3.1 of RFC 4632). `Ipam.dfy` is the allocator with its string-keyed
exclusion map, `ExclusionTexts.dfy` what VIP texts add to it, and `AllocationLaws.dfy` what it means and what an
allocation is worth. `PodMutator.dfy`, `MutationLaws.dfy` and `MergeShapes.dfy`
cover the webhook, `Admissions.dfy` whole histories of it, and `VipHistories.dfy` what they mean for
the addresses of Gateways.

**Reconcilers** (`gateway_controller.go`, `network_controller.go`). `GatewayVip.dfy`, `StatusUpdates.dfy`,
`Endpoints.dfy` with `Backends.dfy`, `CoreDns.dfy`, and `NetworkReconciler.dfy` with `NetworkTheorems.dfy` and
`NetworkMeaning.dfy`; `SubnetAgreement.dfy`
ties the webhook's subnet to the reconciler's.

`Text.dfy`, `TextSets.dfy` and `Wrappers.dfy` hold the string functions and small types they share.
Imperative code is modelled by classes and loops, each proved against a function, and the theorems are about
the functions. Clock readings, API answers and output chunks are parameters. `dafny verify dfyconfig.toml`
checks everything.

## What the proofs found

Each of these is a lemma with a concrete or general input, next to the exact condition under which the code does
what it should.

- A gateway of 255.255.255.255 with prefix 32 makes the search wrap: it hands out 0.0.0.0
  (`WrappedSearchLeavesSubnet`; every other configuration stays in its subnet, `SearchWrapsExactly`).
- The gateway is excluded as raw text. Written in IPv4-mapped form it parses, but its own address is handed out
  (`MappedGatewayIsAllocated`, `GatewayProtectedExactly`).
- The Gateway reconciler accepts a GKEGatewayCIDR by object name, the webhook only by `spec.network`: a CIDR that
  matches by name alone gives a Gateway and a pod the same address (`NameOnlyCidrCollides`, `VipSafeExactly`).
- A GKEGatewayCIDR in IPv4-mapped form gets a Gateway its VIP, but the webhook reads the wrong bytes of the mask and
  excludes the network address alone: a pod is given the VIP (`MappedCidrCollides`; the whole block is excluded
  exactly for plain text, `CidrExcludesBlockExactly`).
- The webhook swallows a failed list of GKEGatewayCIDRs and allocates without their exclusions: a pod is given the
  VIP of a Gateway whose CIDR is in order (`FailedListCollides`; otherwise `PodNeverGetsGatewayVip`,
  `VipSafeExactly`).
- The Gateway reconciler takes its VIP without a look at pods. A pod admitted before the CIDR came keeps the address
  (`PodCameFirst`); what keeps a VIP clear from then on is stated over histories (`AlwaysClearExactly`,
  `VipStaysClear`, `GuardedExactly`).
- A prior Multus entry without an interface serves one request only: two interfaces of its network end as two
  entries with two addresses (`BlankEntryServesOnce`; `NothingAppendedExactly`, `NothingAppendedForDistinct`).
- Addresses that pods bring along are kept without a look at other pods (`OwnAddressesAreUnchecked`). Sharing comes
  from them alone: it is avoided exactly when they are distinct and free (`AlwaysUniqueExactly`).
- `register_operation` stores the record before it looks at the id. A refused id leaves a QUEUED record without a
  task, and the target stays busy (`RefusedIdLocksTarget`) until somebody cancels the id (`RefusedMovesByCancelOnly`).
  That cancellation raises before the end marker is sent, so a stream on the operation waits for nothing
  (`RefusedReaderCanBeStranded`, `NoReaderWaitsForever`). The routers' own names are never refused.
- For an unknown id `update_operation` raises an AttributeError instead of its 404: its parameter `status` hides the
  module of that name (`Manager.UpdateOperation`).
- Reusing an active operation's id with another target makes the dictionary forget the first one, whose target is
  then free while its pipeline still runs (`LockLostExactly`). The routers use one name for both.
- The runner looks whether its operation was cancelled before every step, but in every reachable state it finds that
  it was not: cancelling the task keeps it from ever taking that step (`CancelledLookNeverFires`).
- The line that announces a registration is buffered but not published, so a stream that joins while the
  registration is suspended never shows it (`AnnouncementCanBeMissed`, `LiveReaderMissesNothing`).
- A request with a region only is accepted, then paired with the default zone, which may lie elsewhere
  (`RegionOnlyCanDisagree`, `RegionOnlyAgreesExactly`).
- Two desired conditions of one type that disagree are restamped and rewritten by every call
  (`RepeatIsSilentExactlyWhenConsistent`).
- A Network reconcile never removes a child that is no longer wanted, such as a pool whose VIP annotation went
  away, nor a binding that is no longer asked for or allowed (`StaleChildrenStay`, `StaleBindingsStay`); and on
  deletion the finalizer is dropped even when a delete failed (`NoChildLeftExactly`).

## Model

| member | source | states |
|---|---|---|
| ProtocolTheorems.RunsKeepInvariant | api/gem_api/services/operations.py:110-300 | In every state of every interleaving of register, attach, pipeline calls, cancel, done-callback and log streams under the FIFO lock, the invariant holds: closed streams, indexed records, owned tasks, queued waiters and stream windows are all in order. |
| ProtocolSteps.NextKeeps | api/gem_api/services/operations.py:169-452 | Each single step of the machine keeps that invariant, from any state that has it. |
| ProtocolTheorems.ExclusionOverRuns | api/gem_api/services/operations.py:122-135 | At every point of a run, of two records on one target resource at least one is terminal. |
| ProtocolTheorems.AtMostOneActive | api/gem_api/services/operations.py:124-146 | Two records of one target that are both QUEUED or RUNNING are the same record. |
| ProtocolTheorems.RecordsEvolve | api/gem_api/services/operations.py:179-201 | Between any two points of a run a record keeps its identity, its status never falls, what it published and logged only grows, and once terminal the whole record is frozen. |
| ProtocolTheorems.StepTouches | api/gem_api/services/runner.py:263-294 | A step changes at most one record, only as allowed above, and a step of a pipeline task changes no record but the one the task was created for. |
| ProtocolTheorems.TaskTouchesOnlyItsRecord | api/gem_api/services/runner.py:80-94 | Pipeline calls, log lines and done-callbacks of a task leave every other record as it was. |
| ProtocolTheorems.SupersededTaskChangesNothing | api/gem_api/services/operations.py:266-270 | Once the operation id belongs to a newer record, no step of the old task, not even one queued on the lock when it was cancelled, and not its done-callback, changes any record. |
| ProtocolTheorems.TerminalIffCompletedIffClosed | api/gem_api/services/operations.py:196-199 | A record is terminal exactly when completed_at is set. Its end marker was published exactly when it is terminal and its id was accepted, and then once, with at most one item after it. |
| ProtocolTheorems.ActiveHasDriverExactly | api/gem_api/services/operations.py:146-167 | An active record is being registered, or has a task of its own whose done-callback has not run, exactly when its id was accepted. |
| ProtocolTheorems.ActiveCanMove | api/gem_api/services/operations.py:250-264 | For every active record of an accepted id some step of its registration, task or callback is enabled. |
| ProtocolTheorems.RefusedMovesByCancelOnly | api/gem_api/services/operations.py:146-149 | The record that a refused registration leaves is changed by a cancellation of that id and by no other step of anybody. |
| ProtocolTheorems.LockIsNeverStuck | api/gem_api/services/operations.py:122-164 | While anybody waits for the lock it can be granted, released, or left by its cancelled head. |
| ProtocolTheorems.RegistrationAcceptedExactly | api/gem_api/services/operations.py:122-149 | A granted registration is refused as a conflict exactly while the current record of the id is active; otherwise a new QUEUED record becomes current, and the lock stays held for an accepted id only. |
| ProtocolTheorems.SettledTaskFreesResource | api/gem_api/services/operations.py:266-300 | When the task of a current record is done and its callback has run, no conflict is left on the target. |
| ProtocolTheorems.CancelFreesResource | api/gem_api/services/operations.py:382-452 | After a granted cancellation a registration on that target finds no conflict. |
| OperationOutcomes.WhyItEnded | api/gem_api/services/runner.py:263-294 | When a step takes a record from active to terminal, it is SUCCEEDED exactly if the step grants the pipeline's success, FAILED exactly if it grants its failure or runs the callback of a task that raised or returned, and CANCELLED exactly if it grants a cancellation or runs the callback of a cancelled task. |
| OperationOutcomes.FinalCallEnds | api/gem_api/services/runner.py:263-294 | A granted call ends its task's record exactly if it is the success or the failure. |
| OperationOutcomes.CallLeaves | api/gem_api/services/runner.py:89-94 | For each call of the pipeline the status, step, message, error and completion time it leaves: RUNNING with its step, SUCCEEDED with "Completed", FAILED with "Failed", label and reason. |
| OperationOutcomes.CancelLeaves | api/gem_api/services/operations.py:404-408 | A cancellation leaves CANCELLED with its message, and step and error as they were. |
| OperationOutcomes.CallbackLeaves | api/gem_api/services/operations.py:278-298 | For each way a task ends without reporting the status, step, error and message it leaves. |
| OperationOutcomes.UpdateLeaves | api/gem_api/services/operations.py:187-197 | Field by field, what is given replaces what was there, and what is not given stays. |
| OperationOutcomes.RegisteredLeaves | api/gem_api/services/operations.py:138-145 | A new record is QUEUED with the given step and message and nothing else. |
| OperationOutcomes.StampedLine | api/gem_api/services/operations.py:228-235 | A line loses the blanks behind it and is stamped unless it begins like a stamp; blanks alone are no line. |
| OperationOutcomes.LoggedLine | api/gem_api/services/operations.py:222-248 | Such a line becomes the newest in the bounded buffer and, under an accepted id, is what is published. |
| OperationOutcomes.CancelSays | api/gem_api/services/operations.py:441-445 | The streams of a cancelled operation end with the one stamped line about it and the end marker. |
| OperationOutcomes.CallbackSays | api/gem_api/services/operations.py:299-300 | Those of an operation that the callback ends, with its stamped message and the end marker. |
| OperationOutcomes.RefusedIds | api/gem_api/services/operations.py:89-94 | An id is refused exactly if it is empty or has a slash, a backslash or two dots in a row. |
| OperationOutcomes.CallSays | api/gem_api/services/runner.py:255-293 | What each call of the pipeline sends and buffers: nothing while it runs, one end marker at its end, and a completion line only after the marker. |
| OperationOutcomes.CancelledLookNeverFires | api/gem_api/services/runner.py:80-87 | The pipeline's look at whether it was cancelled never finds that it was, since a cancelled task takes no further step: a call that is asked for always waits for the lock. |
| ProtocolSteps.ActingTaskOwnsCurrent | api/gem_api/services/runner.py:80-94 | A task that can still write drives the current and active record of its id. |
| ProtocolInvariant.EmitKeeps | api/gem_api/services/operations.py:203-220 | Publishing the items of a lawful change keeps every record and every stream window in order. |
| ProtocolInvariant.OfferAllIsNewest | api/gem_api/services/operations.py:203-220 | Offering items one by one to a 100-place queue, evicting the oldest when it is full, leaves the newest 100 of the whole sequence. |
| StreamTheorems.QueueIsNewestPublished | api/gem_api/services/operations.py:348-353 | A subscriber queue is a contiguous suffix, at most 100 long, of what was published since its reader joined. |
| StreamTheorems.EndMarkerIsQueued | api/gem_api/services/operations.py:372-377 | If the operation is over, a reader in the wait loop has the end marker in its queue, whatever was evicted, exactly when the id was accepted; otherwise its queue is empty. |
| StreamTheorems.NoReaderWaitsForever | api/gem_api/services/operations.py:372-377 | In every state of every run a reader waiting on a finished operation can go on, with the end marker ahead of it, exactly when the id was accepted. |
| StreamTheorems.ReaderFinishesInTime | api/gem_api/services/operations.py:351-380 | From the end of an operation on, whatever else the run does, each reader is resumed at most a computed number of times, and under an accepted id it can be resumed as long as it is open. |
| StreamTheorems.FinishedStreamIsStill | api/gem_api/services/operations.py:203-220 | Nobody but the reader itself moves the stream of a finished operation. |
| StreamTheorems.LiveReaderMissesNothing | api/gem_api/services/operations.py:348-377 | For a live reader that never overflowed, delivered plus queued lines are everything logged from the oldest line of its snapshot on, once and in order; a reader that joined while the registration was suspended lacks exactly the announcing line. |
| StreamTheorems.FinishedReaderGotEverything | api/gem_api/services/operations.py:372-377 | A reader that took the end marker without overflowing was given every line logged up to it; at most one line follows. |
| StreamTheorems.DrainingStaysInOrder | api/gem_api/services/operations.py:357-370 | What a draining reader yields after its snapshot is one stretch of the lines published after it joined, once and in order, without those that equal a line of the snapshot. |
| StreamTheorems.DrainedReaderGotFreshLines | api/gem_api/services/operations.py:357-370 | A drained reader that never overflowed got every line logged since its snapshot, up to the end marker, that does not equal a line of the snapshot; at most one line follows. |
| StreamTheorems.AnnouncementCanBeMissed | api/gem_api/services/operations.py:146-166 | A run in which a reader joins while the registration is suspended and is then live with nothing left to read, the announcing line never shown to it. |
| StreamTheorems.RefusedReaderCanBeStranded | api/gem_api/services/operations.py:404-445 | For every refused id, a run in which a reader is left live with an empty queue on a cancelled operation. |
| ManagerAgreement.RegistrationAgrees | api/gem_api/services/operations.py:122-149 | The protocol step changes the dictionary as register_operation does, for refused ids too; it does nothing exactly on a conflict, and goes on holding the lock exactly when nothing is raised. |
| ManagerAgreement.FinishAgrees | api/gem_api/services/operations.py:164-167 | The step after the suspension does to the dictionary what the end of register_operation and attach_task do, and to the streams nothing. |
| OperationRecords.CallGoesOnOrEnds | api/gem_api/services/runner.py:255-294 | From an active record, success and failure end the operation (terminal, completed, one end marker, buffer the newest lines); every other call keeps it active and sends lines only. |
| OperationRecords.CancelEnds | api/gem_api/services/operations.py:404-445 | Cancellation ends the operation with a last line and the end marker; under a refused id the line is buffered, logging raises, and nothing is published. |
| OperationRecords.FinalizeEnds | api/gem_api/services/operations.py:278-300 | So does the done-callback, for a cancelled, raising or silently returning task. |
| OperationRecords.AppendLogGoesOn | api/gem_api/services/operations.py:222-248 | Logging keeps an active operation active, buffers at most the one stamped line within the bound, and under an accepted id publishes what it buffers. |
| OperationManager.PublishTo | api/gem_api/services/operations.py:211-220 | The put, evict and put-again loop ends and leaves the newest 100 items with the new one last. |
| OperationManager.Publish | api/gem_api/services/operations.py:203-220 | Every subscriber queue gets the item so; record and subscriber list stay. |
| OperationManager.Manager.FindConflict | api/gem_api/services/operations.py:124-135 | The scan answers whether some stored operation on the target is QUEUED or RUNNING. |
| OperationManager.Manager.RegisterLocked | api/gem_api/services/operations.py:122-149 | Up to the suspension: refused with the dictionary unchanged on a conflict, otherwise the new QUEUED record is stored, even if the id is then refused. |
| OperationManager.Manager.RegisterFinish | api/gem_api/services/operations.py:164-167 | The announcing line is buffered within the bound and not published. |
| OperationManager.Manager.UpdateOperation | api/gem_api/services/operations.py:169-201 | Exactly the given fields change, and completion stamps the record and sends one end marker to every queue; an unknown id changes nothing and raises an AttributeError. |
| OperationManager.Manager.AppendLog | api/gem_api/services/operations.py:222-248 | Blank text changes nothing; otherwise the stamped line goes to the bounded buffer and to every queue, or to the buffer alone, raising, exactly when the id has no log file. |
| OperationManager.Manager.AttachTask | api/gem_api/services/operations.py:250-264 | Only the task of the record changes. |
| OperationManager.Manager.FinalizeTask | api/gem_api/services/operations.py:266-300 | Only the record's own task, and only if the record is not terminal yet, finalizes it, with line and end marker sent in that order; the callback raises exactly when it does so under a refused id. |
| OperationManager.Manager.CancelOperation | api/gem_api/services/operations.py:382-452 | Missing, finished and active operations get their answers; only an active one changes: it is marked, logged and closed, or marked, buffered and raised for when its id is refused. |
| OperationManager.Manager.Subscribe | api/gem_api/services/operations.py:341-353 | Joining and taking the snapshot are one region: an empty new queue and the buffer of that instant. |
| OperationManager.RefusedIdLocksTarget | api/gem_api/services/operations.py:146-149 | A registration that raises for its id has stored the record already: the target is busy and every later registration on it is refused. |
| OperationManager.RegisterKeepsExclusive | api/gem_api/services/operations.py:124-146 | Whatever id and target a registration names, the dictionary keeps at most one active operation per target. |
| OperationManager.LockLostExactly | api/gem_api/services/operations.py:124-146 | A registration unlocks a target it does not name exactly when it reuses the id of that target's active operation. |
| LineReader.StreamOutput | api/gem_api/services/runner.py:112-151 | The logged pieces lose and reorder no byte; the buffer never exceeds 1 MiB + 64 KiB; a forced cut happens exactly when the unfinished line at some chunk end exceeds 1 MiB; without one, and so whenever no line exceeds 1 MiB, the log is the non-blank lines of one split of the whole output. |
| LineReader.DrainLines | api/gem_api/services/runner.py:124-130 | Every complete line is logged and removed, and the account of logged and buffered bytes still adds up to the output read. |
| LineReader.ShortLinesNeverOverflow | api/gem_api/services/runner.py:147-151 | When no line of the output exceeds 1 MiB, no unfinished line ever does, however the output was cut into chunks. |
| LineReader.Boundary | api/gem_api/services/runner.py:147-151 | After a chunk, the cut is taken exactly when what is pending since the last newline is too long. |
| LineReader.LogLineMeaning | api/gem_api/services/runner.py:128-130 | A stretch of output is one log line without the blanks behind it, or none when it is all blank. |
| ZoneRegion.AcceptedExactly | api/gem_api/models/validators.py:40-96 | Validation accepts exactly when each part is absent or well shaped and, with both there, the region is the zone without its last segment. |
| ZoneRegion.RejectedExactly | api/gem_api/models/validators.py:51-89 | Which complaint a rejected request gets: swapped, a region for a zone, a zone for a region, neither, or a region that is not the zone's, which names the right one. |
| ZoneRegion.AcceptedPair | api/gem_api/models/validators.py:85-96 | An accepted zone comes back with its own region, given or derived, and any region that comes back is well shaped. |
| ZoneRegion.ValidationIsStable | api/gem_api/models/validators.py:40-96 | Validating an accepted pair again returns it. |
| ZoneRegion.ZoneRegionShape | api/gem_api/models/validators.py:20-21 | Dropping the last segment of a well-shaped zone gives a well-shaped region. |
| ZoneRegion.ZoneShapeMeaning | api/gem_api/models/validators.py:20 | A zone is a word of lower-case letters, a dash, lower-case letters or digits, a dash and one lower-case letter, and nothing else is. |
| ZoneRegion.RegionShapeMeaning | api/gem_api/models/validators.py:21 | A region is the same without the last dash and letter. |
| ZoneRegion.SanitizeMeaning | api/gem_api/models/validators.py:28-37 | A part is absent if it is missing, blank or one of four placeholders in any mix of cases, and else the text without the blanks around it. |
| ZoneRegion.LastSegmentMeaning | api/gem_api/models/validators.py:87 | Dropping the last segment drops it with the dash before it, and leaves a text without a dash alone. |
| ZoneRegion.GcpTargetRequest.ValidateTarget | api/gem_api/models/validators.py:193-196 | Raises exactly unless each part is absent or well shaped and both agree, leaving the fields alone; otherwise they become the validated pair, the region that of the zone. |
| ZoneRegion.ResolverKeepsAcceptedPair | api/gem_api/services/runner.py:48-58 | For an accepted request with a zone the runner's resolver returns the validated pair, whatever the defaults. |
| ZoneRegion.AcceptedNeverSwaps | api/gem_api/services/runner.py:54-55 | The resolver's swap is never taken for an accepted request, whatever the default zone. |
| ZoneRegion.RegionOnlyAgreesExactly | api/gem_api/services/runner.py:52-58 | An accepted request with a region only is paired with the default zone; validation accepts that pair exactly when the default zone lies in the region. |
| ZoneRegion.RegionOnlyCanDisagree | api/gem_api/services/runner.py:52-58 | A concrete accepted request that is resolved to a pair validation rejects. |
| ZoneRegion.ResolveNothing | api/gem_api/services/runner.py:48-58 | A request with neither part gets the default zone, and the region of that zone, or the default region if the zone has no dash. |
| ZoneRegion.ResolveSwaps | api/gem_api/services/runner.py:54-55 | A well-shaped region and zone given the wrong way round come back the right way round. |
| Ipv4.ParsePrinted | operators/gem-network-operator/controllers/pod_mutator.go:377-389 | Parsing the dotted decimal text of a 32-bit number gives the number back. |
| Ipv4.PrintParsed | operators/gem-network-operator/controllers/pod_mutator.go:377-389 | Only the canonical text of an address parses, and printing gives it back. |
| Ipv4.DottedInjective | operators/gem-network-operator/controllers/pod_mutator.go:385-389 | Different addresses have different texts. |
| Ipv4.ParsePrintedCidr | operators/gem-network-operator/controllers/pod_mutator.go:358-362 | The same for CIDR text. |
| Ipv4.ParsePrintedMappedCidr | operators/gem-network-operator/controllers/pod_mutator.go:358-362 | And for CIDR text in IPv4-mapped form, whose prefix counts the 96 bits in front. |
| Ipv4.AndMask | operators/gem-network-operator/controllers/pod_mutator.go:226-228 | And-ing, bit by bit, with a mask clears exactly the host bits. |
| Ipv4.OrMask | operators/gem-network-operator/controllers/pod_mutator.go:229-230 | Or-ing, bit by bit, with the inverted mask sets exactly the host bits. |
| Ipv4.SubnetShape | operators/gem-network-operator/controllers/pod_mutator.go:226-230 | The masked bounds enclose the address, are 2^(32-p) apart minus one, and the lower is aligned. |
| Ipam.ExcludeInterval | operators/gem-network-operator/controllers/pod_mutator.go:346-351 | The inclusive loop over uint32 ends even at 255.255.255.255, adds the texts of exactly its interval and removes none. |
| Ipam.ExcludeIpRangeOrCidr | operators/gem-network-operator/controllers/pod_mutator.go:332-375 | A range or single address adds exactly its interval, a CIDR what the first four bytes of its mask make of it, anything malformed nothing; nothing is removed. |
| ExclusionTexts.RangeTextMeaning | operators/gem-network-operator/controllers/pod_mutator.go:337-354 | The text "lo-hi", with blanks around both ends, adds the keys of exactly the addresses from lo to hi, and none when lo is above hi. |
| ExclusionTexts.SingleTextMeaning | operators/gem-network-operator/controllers/pod_mutator.go:372-374 | A single address with blanks around it adds exactly itself. |
| ExclusionTexts.BadRangeMeaning | operators/gem-network-operator/controllers/pod_mutator.go:338-342 | A range with an end that is no address adds nothing. |
| ExclusionTexts.TwoDashesMeaning | operators/gem-network-operator/controllers/pod_mutator.go:338-339 | A text with two dashes or more adds nothing. |
| Ipam.NamesAreInterval | operators/gem-network-operator/controllers/pod_mutator.go:347-351 | The text of an address is among the keys of an interval exactly when the address is in it. |
| Ipam.BuildExclusions | operators/gem-network-operator/controllers/pod_mutator.go:232-318 | The six loops fill the map with the stated union of keys. |
| Ipam.AllocateSecondaryIp | operators/gem-network-operator/controllers/pod_mutator.go:205-330 | The whole imperative search equals the allocation function in result, error and in-use set. |
| Ipam.FirstFreeIsLeast | operators/gem-network-operator/controllers/pod_mutator.go:320-329 | The search returns the least candidate whose text is not a key, or none exactly when there is none. |
| AllocationLaws.ExcludedMeaning | operators/gem-network-operator/controllers/pod_mutator.go:232-318 | Inside the subnet a text is a key exactly when its address is the plainly written gateway, at offset 2 to 9, in a VIP range or a CIDR of the network, held by a live pod or already in use for this pod. |
| AllocationLaws.HostTextsMeaning | operators/gem-network-operator/controllers/pod_mutator.go:240-242 | The host-interface loop covers exactly offsets 2 to 9 inside the subnet. |
| AllocationLaws.AllocateIsLeastFree | operators/gem-network-operator/controllers/pod_mutator.go:205-330 | An allocation is the least untaken address strictly between network and broadcast, and exhaustion is reported exactly when there is none. |
| ExclusionTexts.NoAllocationInVipRange | operators/gem-network-operator/controllers/pod_mutator.go:245-252 | With the text "lo-hi" among the network's VIPs no allocation lies between lo and hi, wrapped search or not. |
| AllocationLaws.AllocationErrors | operators/gem-network-operator/controllers/pod_mutator.go:208-272 | Each error exactly in its case, in the order of the code, and exhaustion only after all of them. |
| AllocationLaws.PrefixLengthMeaning | operators/gem-network-operator/controllers/pod_mutator.go:213-216 | The prefix length is the Network's if it is 1 to 32, and 24 otherwise. |
| AllocationLaws.CleanIpMeaning | operators/gem-network-operator/controllers/pod_mutator.go:284 | Of an entry, what stands before the slash is read, without the blanks around the whole. |
| AllocationLaws.StatusNameMeaning | operators/gem-network-operator/controllers/pod_mutator.go:301 | A status entry is of the network exactly if it has its name, bare or behind a namespace and a slash. |
| AllocationLaws.AllocationInSubnetUnlessWrapped | operators/gem-network-operator/controllers/pod_mutator.go:320-327 | An allocation lies inside its subnet exactly when the first candidate did not wrap. |
| AllocationLaws.SearchWrapsExactly | operators/gem-network-operator/controllers/pod_mutator.go:321 | It wraps exactly for gateway 255.255.255.255 with prefix 32. |
| AllocationLaws.WrappedSearchLeavesSubnet | operators/gem-network-operator/controllers/pod_mutator.go:321 | There the allocator hands out 0.0.0.0. |
| AllocationLaws.NeverAllocatedExactly | operators/gem-network-operator/controllers/pod_mutator.go:232-327 | An address of the subnet is never handed out, whatever a pod already holds, exactly when something other than that pod takes it. |
| AllocationLaws.GatewayProtectedExactly | operators/gem-network-operator/controllers/pod_mutator.go:221-237 | The gateway is never handed out exactly when it is written in plain dotted decimal or something else reserves or holds it. |
| AllocationLaws.MappedGatewayIsAllocated | operators/gem-network-operator/controllers/pod_mutator.go:221-237 | A gateway written in IPv4-mapped form is handed out to the first pod. |
| AllocationLaws.PlainGatewayNeverAllocated | operators/gem-network-operator/controllers/pod_mutator.go:237 | A plainly written gateway is never handed out, wrapped search or not. |
| AllocationLaws.CleanAllocation | operators/gem-network-operator/controllers/pod_mutator.go:284-325 | What later searches read back from the annotation is the address that was allocated. |
| Admissions.AddressesStayUnique | operators/gem-network-operator/controllers/pod_mutator.go:134-327 | After any history of serialised admissions, terminations and status reports in which pods bring no addresses, no two live pods hold one address on one network and none holds one twice. |
| Admissions.AlwaysUniqueExactly | operators/gem-network-operator/controllers/pod_mutator.go:134-327 | A history of any pods never comes to such sharing exactly when the addresses of every admitted pod were, when it came, pairwise distinct and in no live pod's list on their network. |
| Admissions.ApplyKeepsUniqueExactly | operators/gem-network-operator/controllers/pod_mutator.go:134-327 | From a list without sharing, any single event leads to one exactly under that condition. |
| Admissions.AdmissionKeepsUniqueExactly | operators/gem-network-operator/controllers/pod_mutator.go:134-175 | The same for an accepted admission. |
| Admissions.AdmittedIsFreeExactly | operators/gem-network-operator/controllers/pod_mutator.go:143-175 | What a pod lists after the webhook is pairwise distinct and disjoint from every live pod's list exactly when what it listed before was: allocation neither causes nor repairs sharing. |
| Admissions.AllocateAvoids | operators/gem-network-operator/controllers/pod_mutator.go:268-327 | A granted address is on record with no live pod of the network and not in use in this pod, even when the search wraps. |
| Admissions.OwnAddressesAreUnchecked | operators/gem-network-operator/controllers/pod_mutator.go:134-163 | Two pods that bring the same address, the first alone free of sharing, are both live afterwards and both hold it on the network. |
| Admissions.OwnAddressIsKept | operators/gem-network-operator/controllers/pod_mutator.go:158-164 | An address a pod brings along is held by it afterwards, whoever else holds it. |
| PodMutator.Pod.MutateInterfaces | operators/gem-network-operator/controllers/pod_mutator.go:93-201 | The webhook equals the mutation function; an allocation error leaves the pod unchanged. |
| PodMutator.Classify | operators/gem-network-operator/controllers/pod_mutator.go:108-122 | The loop puts each interface into the primary list or, as a request with trimmed names, into the secondary list, in order. |
| PodMutator.CollectListed | operators/gem-network-operator/controllers/pod_mutator.go:134-141 | The addresses of the entries already there are in use from the start. |
| PodMutator.MergeInto | operators/gem-network-operator/controllers/pod_mutator.go:144-175 | One secondary network is merged into the first matching entry or appended, with an address if it lacks one. |
| MergeShapes.MergeOneExactly | operators/gem-network-operator/controllers/pod_mutator.go:145-174 | With a prior entry of the request's name whose interface is equal, or one of the two blank, the first such entry alone changes and a blank interface there becomes the requested one; otherwise exactly the request is appended. |
| PodMutator.MergeSecondaries | operators/gem-network-operator/controllers/pod_mutator.go:134-175 | The merge loop equals the fold of that step, stopping at the first error. |
| MutationLaws.MergeAllKeepsAndCovers | operators/gem-network-operator/controllers/pod_mutator.go:143-175 | Prior entries keep place, name, non-empty interface and non-empty addresses; every request is covered; nothing is added that was not requested. |
| MutationLaws.MutationKeepsAndCovers | operators/gem-network-operator/controllers/pod_mutator.go:124-200 | The same for a whole mutation, after which only primary interfaces, at least one, are left. |
| MergeShapes.MutationShape | operators/gem-network-operator/controllers/pod_mutator.go:143-181 | Names and interfaces of the mutated list are those of a merge that knows nothing of addresses. |
| MergeShapes.NothingAppendedExactly | operators/gem-network-operator/controllers/pod_mutator.go:144-174 | The list does not grow exactly if every request finds a suiting entry when its turn comes. |
| MergeShapes.NothingAppendedForDistinct | operators/gem-network-operator/controllers/pod_mutator.go:144-174 | When each network is requested once, that is exactly if every request has a suiting prior entry. |
| MergeShapes.NothingAppendedNeedsPrior | operators/gem-network-operator/controllers/pod_mutator.go:144-174 | In general a suiting prior entry for every request is needed. |
| MergeShapes.BlankEntryServesOnce | operators/gem-network-operator/controllers/pod_mutator.go:147-156 | But not enough: two interfaces of one network and one prior entry without an interface end as two entries. |
| MergeShapes.InterfaceMeaning | operators/gem-network-operator/controllers/pod_mutator.go:111-121 | Names are read without the blanks around them, and exactly the empty name, "pod-network" and "default" are primary. |
| MergeShapes.LeftForPrimary | operators/gem-network-operator/controllers/pod_mutator.go:184-198 | What is left for the primary network: its interfaces in order, or eth0 on pod-network; and eth0 as default interface if there was none. |
| MutationLaws.EveryInterfaceOnOneSide | operators/gem-network-operator/controllers/pod_mutator.go:108-122 | The two sides share out the interfaces, with multiplicity, each to its own side. |
| MutationLaws.SecondariesAreRequests | operators/gem-network-operator/controllers/pod_mutator.go:115-121 | The k-th request comes from the k-th secondary interface. |
| MutationLaws.SecondMutationIsNoOp | operators/gem-network-operator/controllers/pod_mutator.go:124-200 | A mutated pod is not mutated again, whatever the cluster has become. |
| MutationLaws.MutatedExactlyForSecondaries | operators/gem-network-operator/controllers/pod_mutator.go:98-126 | A pod passes unmutated exactly when it names no secondary network. |
| SubnetAgreement.PodAddressIsInAttachmentSubnet | operators/gem-network-operator/controllers/network_controller.go:355-372 | The address the webhook hands out lies in the subnet the Network reconciler writes into the attachment. |
| GatewayVip.DetermineGatewayIp | operators/gem-network-operator/controllers/gateway_controller.go:227-270 | The first explicit address, else the first VIP a serving CIDR offers, else nothing. |
| GatewayVip.FirstVipMeaning | operators/gem-network-operator/controllers/gateway_controller.go:246-266 | The VIP is the offer of the first CIDR in list order that serves the network, by spec or by name, and offers one. |
| GatewayVip.VipIsNetworkPlusOne | operators/gem-network-operator/controllers/gateway_controller.go:251-261 | A CIDR, plain or mapped, offers its network address plus one, inside its block, and a single-address block offers none. |
| GatewayVip.CidrExcludesBlockExactly | operators/gem-network-operator/controllers/pod_mutator.go:357-369 | The webhook excludes the whole block of a CIDR exactly when its text is plain dotted decimal or the block is a single address. |
| GatewayVip.OwnExclusionCoversVipExactly | operators/gem-network-operator/controllers/pod_mutator.go:357-369 | It excludes the VIP that the CIDR offers exactly when the text is plain dotted decimal. |
| GatewayVip.EvenBaseDoesNotCarry | operators/gem-network-operator/controllers/gateway_controller.go:258 | The increment of the last byte alone never needs a carry. |
| GatewayVip.PodNeverGetsGatewayVip | operators/gem-network-operator/controllers/pod_mutator.go:254-266 | If every CIDR that the Gateway reconciler saw serving a network names it in its spec, in plain dotted decimal, an allocation there is the VIP only when the webhook's own list of CIDRs failed or lacks one of them, wrapped search or not. |
| GatewayVip.VipSafeExactly | operators/gem-network-operator/controllers/gateway_controller.go:246-261 | The VIP is never allocated exactly when the webhook's list was answered and what it excludes for a CIDR naming the network covers it, or it is outside the subnet, reserved, or on record with a live pod already. |
| GatewayVip.NameOnlyCidrCollides | operators/gem-network-operator/controllers/gateway_controller.go:248 | A CIDR that serves the network by object name only: the Gateway and a pod get the same address. |
| GatewayVip.MappedCidrCollides | operators/gem-network-operator/controllers/pod_mutator.go:360-362 | A CIDR in IPv4-mapped form that names the network in its spec: the Gateway and the first pod get the same address. |
| GatewayVip.FailedListCollides | operators/gem-network-operator/controllers/pod_mutator.go:257-266 | The webhook's list of CIDRs fails: the first pod gets the VIP that the Gateway has from a proper CIDR. |
| VipHistories.AlwaysClearExactly | operators/gem-network-operator/controllers/pod_mutator.go:143-175 | From any pods, no live pod's list ever holds a given address on a network exactly when none held it at the start and no later admission brings it along or allocates it. |
| VipHistories.AdmittedHoldsExactly | operators/gem-network-operator/controllers/pod_mutator.go:143-175 | An admitted pod holds an address exactly when it brought it along or one of its requests was allocated it. |
| VipHistories.VipStaysClear | operators/gem-network-operator/controllers/pod_mutator.go:254-266 | No pod ever holds the VIP of a Gateway with proper CIDRs, if none holds it when they come, none brings it along later, and the webhook is answered with those CIDRs at every later admission. |
| VipHistories.GuardedExactly | operators/gem-network-operator/controllers/pod_mutator.go:205-330 | At an admission, an address of the subnet goes to no pod that does not bring it, whatever pod comes and whatever it lists already, exactly when it is never allocated as the webhook sees things. |
| VipHistories.PodCameFirst | operators/gem-network-operator/controllers/gateway_controller.go:243-266 | A pod is admitted before the CIDR exists; when the CIDR comes, proper and seen by everybody, the Gateway gets the address the pod still holds. |
| StatusUpdates.StatusObject.UpdateIfChanged | operators/gem-network-operator/controllers/gateway_controller.go:172-223 | The stored block becomes the computed one and the API is written to exactly when it differs. |
| StatusUpdates.RepeatIsSilent | operators/gem-network-operator/controllers/gateway_controller.go:172-223 | Repeating addresses and conditions changes nothing although the clock has moved. |
| StatusUpdates.RepeatIsSilentExactlyWhenConsistent | operators/gem-network-operator/controllers/gateway_controller.go:172-223 | On a new object that holds exactly when no two desired conditions of one type disagree. |
| StatusUpdates.TransitionMeaning | operators/gem-network-operator/controllers/gateway_controller.go:188-200 | A condition keeps the time of the last stored one of its type exactly if status, reason and message are the same and the time is not blank; otherwise it gets the clock. |
| StatusUpdates.TimesAreLastChanges | operators/gem-network-operator/controllers/gateway_controller.go:186-212 | Over any history, from any stored status, a condition's transition time is the clock of the call since which its status, reason and message have stood, or the time it had been stored with. |
| StatusUpdates.StoredConditions | operators/gem-network-operator/controllers/gateway_controller.go:186-212 | The stored conditions after a history, each with that time. |
| StatusUpdates.WritesExactlyOnChange | operators/gem-network-operator/controllers/gateway_controller.go:172-223 | From any stored status, a call after the first changes the object exactly when its addresses or conditions differ from those of the call before. |
| StatusUpdates.FoundAgain | operators/gem-network-operator/controllers/gateway_controller.go:172-200 | What was stored of a condition is what the next call finds under its type. |
| Endpoints.ReconcileRoutes | operators/gem-network-operator/controllers/gateway_controller.go:299-380 | The nested loops with shared maps write the first occurrences of the flattened address and port lists, return the number of endpoints, and remove the pair exactly when no backend is named; when the routes cannot be listed nothing is touched. |
| Backends.OutcomeMeans | operators/gem-network-operator/controllers/gateway_controller.go:299-380 | An address is an endpoint exactly if a listed route has a parentRef to the Gateway and a rule with a reference to a selector, and a pod that selector matches is running, has "True" in its first Ready condition and reports the address first on the network; a port is listed exactly if such a reference gives it, or 80 in place of none; and nothing is touched or removed but without routes or references. |
| Backends.FollowedExactly | operators/gem-network-operator/controllers/gateway_controller.go:313-343 | The references followed are exactly those of rules of routes with a parentRef of the Gateway's name and no namespace or its own. |
| Backends.PortsAreNamed | operators/gem-network-operator/controllers/gateway_controller.go:467-472 | A single port is named "service", each of several after its number. |
| Endpoints.CollectEndpoints | operators/gem-network-operator/controllers/gateway_controller.go:417-462 | One selector contributes, in order, the addresses not yet seen, and marks all of its own as seen. |
| Endpoints.PieceByPiece | operators/gem-network-operator/controllers/gateway_controller.go:450-452 | Deduplicating piece by piece against a shared map is deduplicating the whole. |
| Endpoints.SameElements | operators/gem-network-operator/controllers/gateway_controller.go:450-452 | Deduplication keeps exactly the elements. |
| Endpoints.NoRepeats | operators/gem-network-operator/controllers/gateway_controller.go:450-452 | It leaves none twice. |
| Endpoints.OrderKept | operators/gem-network-operator/controllers/gateway_controller.go:450-452 | Those left stand in the order of their first occurrences. |
| Endpoints.WrittenPairIsSound | operators/gem-network-operator/controllers/gateway_controller.go:466-536 | Service and EndpointSlice carry the same ports, distinct, in 1 to 65535 and uniquely named, and one endpoint per distinct address. |
| Endpoints.PortNamesDistinct | operators/gem-network-operator/controllers/gateway_controller.go:467-472 | Different ports get different names. |
| CoreDns.InjectRule | operators/gem-network-operator/controllers/gateway_controller.go:551-575 | The loop computes the patched text, and the guard of the update holds exactly when it differs. |
| CoreDns.Cluster.ReconcileCoreDns | operators/gem-network-operator/controllers/gateway_controller.go:546-609 | Template first, then live config; only an accepted change of the config restarts CoreDNS. |
| CoreDns.PatchChangesExactly | operators/gem-network-operator/controllers/gateway_controller.go:546-609 | The text changes exactly when the rule is missing and some line trims to "ready". |
| CoreDns.PatchedBelowReady | operators/gem-network-operator/controllers/gateway_controller.go:554-562 | Every ready line of a patched file has the rule right below it, and the rule stands below ready lines only. |
| CoreDns.ReadyLineMeaning | operators/gem-network-operator/controllers/gateway_controller.go:558 | A line is ready exactly if it is that word with blanks around it. |
| CoreDns.PatchActivates | operators/gem-network-operator/controllers/network_controller.go:307-313 | Afterwards the Network reconciler sees the rule exactly if it was there or a ready line was. |
| CoreDns.PatchIdempotent | operators/gem-network-operator/controllers/gateway_controller.go:546-609 | A second pass changes nothing. |
| CoreDns.DeletingRestores | operators/gem-network-operator/controllers/gateway_controller.go:546-609 | Deleting the inserted lines gives the original text back. |
| CoreDns.TextsAfterRun | operators/gem-network-operator/controllers/gateway_controller.go:546-609 | Over any run the template and the live config are each patched exactly if some update of their own was accepted. |
| CoreDns.AtMostOneRestart | operators/gem-network-operator/controllers/gateway_controller.go:546-585 | Over any run without outside edits there is one restart if the config needed the rule and some update was accepted, and none otherwise. |
| NetworkReconciler.Controller.Reconcile | operators/gem-network-operator/controllers/network_controller.go:117-251 | The reconciler equals the reconcile function on the whole world, for every set of answers of the API server: children, services, status, finalizer and write counts. |
| NetworkReconciler.Controller.ReconcileNetAttachDef | operators/gem-network-operator/controllers/network_controller.go:349-414 | Every non-terminating namespace that is not refused gets the attachment; a bad MTU or unlisted namespaces write nothing; success is reported exactly when no namespace was left out. |
| NetworkReconciler.Controller.ReconcileMetalLb | operators/gem-network-operator/controllers/network_controller.go:417-450 | Pool, then advertisement, which is not reached when the pool is refused. |
| NetworkReconciler.Controller.ReconcileServices | operators/gem-network-operator/controllers/network_controller.go:471-505 | Exactly the requesting, allowed and unbound Services whose update is taken are bound, each with one write; success is reported exactly when none was refused. |
| NetworkMeaning.ListedNamespacesAreBound | operators/gem-network-operator/controllers/network_controller.go:454-505 | With an allowlist of names joined by commas, blanks allowed, a Service that asks and was not bound comes out bound exactly if its namespace is one of the names. |
| NetworkMeaning.OpenNetworksBindAll | operators/gem-network-operator/controllers/network_controller.go:454-458 | With no, a blank or a "*" allowlist every Service that asks comes out bound. |
| NetworkMeaning.OthersAreNotBound | operators/gem-network-operator/controllers/network_controller.go:480-481 | A Service that does not ask is not touched. |
| NetworkReconciler.Controller.ApplyOrUpdate | operators/gem-network-operator/controllers/network_controller.go:512-531 | Created, left alone when the spec matches, or replaced with a newer version; refused, nothing is written. |
| NetworkReconciler.Controller.CleanupChildren | operators/gem-network-operator/controllers/network_controller.go:269-303 | Deletes whatever the API server lets go, namespace by namespace. |
| NetworkTheorems.BindOneFacts | operators/gem-network-operator/controllers/network_controller.go:480-502 | A binding leaves the Service bound if it asked and may, adds the pool annotation only, and does not change which network anybody asks for. |
| NetworkTheorems.ReconcileConverges | operators/gem-network-operator/controllers/network_controller.go:188-213 | From any world, after a reconcile without faults every non-terminating namespace has the desired attachment, pool and advertisement have their desired specs, and every requesting and allowed Service is bound. |
| NetworkTheorems.ConvergesExactly | operators/gem-network-operator/controllers/network_controller.go:188-213 | Whatever is refused, a network is converged after a reconcile exactly when each child and Service was right before or its write was reached and taken. |
| NetworkTheorems.ReadyMeansConverged | operators/gem-network-operator/controllers/network_controller.go:183-232 | Whatever was refused, when the Ready condition comes out true every desired child and binding is in place. |
| NetworkMeaning.JoinErrorsMeaning | operators/gem-network-operator/controllers/network_controller.go:231 | The message of a failure tells every error in order, with "; " between them. |
| NetworkMeaning.ReadyMeaning | operators/gem-network-operator/controllers/network_controller.go:216-232 | The Ready condition in its three cases, a missing host interface before failed children. |
| NetworkMeaning.ProvisionedMeaning | operators/gem-network-operator/controllers/network_controller.go:317-345 | A host interface is there exactly if none is asked for, the Network is a primary one, or VLAN or interface is published. |
| NetworkMeaning.DnsMeaning | operators/gem-network-operator/controllers/network_controller.go:236-246 | CoreDNSReady is true exactly if the Corefile can be read and has the suffix of the rule. |
| NetworkMeaning.ConditionsStored | operators/gem-network-operator/controllers/network_controller.go:248 | A reconcile stores those two conditions, in that order, and ensures the finalizer. |
| NetworkTheorems.ChildrenSettle | operators/gem-network-operator/controllers/network_controller.go:512-531 | Each single child that got through is as wanted, and one that was right, is not wanted or was refused is untouched. |
| NetworkMeaning.DesiredMeaning | operators/gem-network-operator/controllers/network_controller.go:396-447 | The desired objects by name and spec: an attachment per namespace that is not terminating, and with VIPs a pool and an advertisement in kube-system. |
| NetworkMeaning.AttachmentMeaning | operators/gem-network-operator/controllers/network_controller.go:361-383 | The attachment has interface, MTU, the subnet around the gateway with the Network's prefix, and the gateway. |
| NetworkMeaning.AttachmentWithoutGateway | operators/gem-network-operator/controllers/network_controller.go:361-365 | Without a gateway it uses the pod CIDR. |
| NetworkMeaning.InterfaceMeaning | operators/gem-network-operator/controllers/network_controller.go:164-167 | The host interface is the named one, else that of the VLAN, else none. |
| NetworkMeaning.MtuMeaning | operators/gem-network-operator/controllers/network_controller.go:350-353 | A decimal number with blanks around it is the MTU if it is positive and fits; no number means 1410. |
| NetworkMeaning.BadMtuMeaning | operators/gem-network-operator/controllers/network_controller.go:350-353 | Anything else is no MTU. |
| NetworkMeaning.ChildOfMeaning | operators/gem-network-operator/controllers/network_controller.go:275-294 | What belongs to a Network, and is taken down with it, by kind and name. |
| NetworkTheorems.StaleChildrenStay | operators/gem-network-operator/controllers/network_controller.go:196-207 | A live reconcile removes nothing: afterwards there is no stale child exactly when there was none before. |
| NetworkTheorems.StaleBindingsStay | operators/gem-network-operator/controllers/network_controller.go:471-505 | Nor does it unbind: afterwards no Service is bound without asking and being allowed exactly when none was before. |
| NetworkTheorems.ReconcileIsIdempotent | operators/gem-network-operator/controllers/network_controller.go:117-251 | Repeating a reconcile without faults on an unchanged world changes nothing at all, though the clock has moved. |
| NetworkTheorems.ConvergedIsQuiet | operators/gem-network-operator/controllers/network_controller.go:524-526 | On a converged network a reconcile writes no child and no Service, whatever it is answered. |
| NetworkTheorems.NetworksDoNotInterfere | operators/gem-network-operator/controllers/network_controller.go:188-213 | Reconciling one network, whatever is refused, leaves another converged one converged. |
| NetworkTheorems.PassConvergesAll | operators/gem-network-operator/controllers/network_controller.go:117-251 | After one pass over any list of live networks all of them are converged together. |
| NetworkTheorems.SecondPassIsQuiet | operators/gem-network-operator/controllers/network_controller.go:512-531 | A second pass writes no child and no Service. |
| NetworkTheorems.DeletionDeletesExactly | operators/gem-network-operator/controllers/network_controller.go:127-138 | The children gone after a deletion are exactly those whose delete was asked for and accepted, nobody else's is touched, and the finalizer goes exactly when that update is taken. |
| NetworkTheorems.NoChildLeftExactly | operators/gem-network-operator/controllers/network_controller.go:269-303 | So no child remains exactly when every delete was asked for and accepted; the finalizer is dropped either way. |
| NetworkTheorems.DeletionLeavesNoChild | operators/gem-network-operator/controllers/network_controller.go:127-138 | Without faults no child remains in any namespace. |
| NetworkTheorems.DeletionDoesNotInterfere | operators/gem-network-operator/controllers/network_controller.go:269-303 | Deleting one network leaves another converged one converged. |

## Left out

Assumptions of the models:

- Operation protocol: operation ids equal the target resource, as in the routers; an id is refused for its text, not for symbolic links in the log directory; a request handler is not cancelled while its registration is suspended. The lock may pass over cancelled tasks that still wait, for anybody behind them; asyncio allows that only when all who wait are cancelled, so the model has more runs than the program.
- Admissions.AlwaysUniqueExactly: the webhook itself serialises nothing; admissions are assumed to be stored one before the next, with all earlier pods listed. Sharing is of the text in front of the slash, as the code compares it: one address in two spellings counts as two.
- VipHistories.VipStaysClear: what a pod holds is what its Multus list says; distinct VIPs for two Gateways on one CIDR are not claimed, since the code does not provide them.
- NetworkReconciler.Controller.Reconcile: a refused write is taken to have left the object as it was; an update that is taken although its answer is lost is not modelled.
- NetworkTheorems.DeletionDeletesExactly: attachments are taken to live in namespaces that exist, which the API server enforces.
- LineReader.StreamOutput: for any decoder that maps no bytes to no text, instead of UTF-8 with replacement; the status messages derived from Ansible and Terraform lines appear in the protocol as `Note` calls, not in the reader.

Not modelled:

- Subprocesses, signals, the force-kill timer, log files, `get_logs`, and the formatting of wall-clock time.
- The completion line of cluster creation follows the end marker, so a stream may miss it; the model has it and proves that at most one line can follow.
- IPv6 spellings of an IPv4 address other than `::ffff:` before dotted decimal. As CIDR text they behave like that one; `PodNeverGetsGatewayVip` asks for plain dotted decimal and so holds beside them.
- White space beyond Latin-1, and lower-casing beyond ASCII in placeholder words.
- JSON text: annotations are modelled decoded, with "absent" for what does not parse.
- The API server beyond a store of objects with versions: retries on conflict, the fallback from a status update to a full update, events, logging, requeue intervals, owner references beyond the owner's name, and the wording of API errors in status messages.
- `applyService`, `applyEndpointSlice` and the route conditions written inside `reconcileRoutesAndEndpoints`: idempotent writes of the kind proved for children and statuses.
- The Gateway reconciler's own control flow, finalizer and event mapping.
- Terraform and Ansible command and environment assembly, settings, routers, response models, `k8s_client.py` and `gcp_client.py`, webhook certificates, and `OperationManager.reset`: plumbing without a hard property.
