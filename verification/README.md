# Verified models of Muen

Dafny models of the parts of the Muen separation kernel, its components and its
tools whose correctness rests on more than one function: lock-free channels, the
synchronisation of CPUs, the scheduler's timer lists, rewriting of schemas and of
policies, and a few device clients. Each module proves what the code promises to
its callers, over all inputs, all interleavings or all runs. `dafny verify
dfyconfig.toml` checks everything.

## The modules

**Channels.** `ShmStream` is the shared memory region of an SHMStream version 2
channel. Every atomic access of the writer is one event, including resets, the
initialization of the header in any order, and the writing of a batch of packets
cell by cell in any order. Its invariant says which cells of the ring are intact.
`ShmReader` adds any number of readers that follow the interface description,
one access at a time, and relates what each of them reports to an unbounded,
append-only log per epoch. `Muchannel` is the Ada implementation of the reader:
`Read` as a function of what the writer does before each of its accesses.
`MuchannelHistory` is about any number of calls one after the other.
`MuchannelRegion` is the channel object itself, updated in place by the writer's
procedures and read by `Read`, proved against the other modules.

The implementation differs from the description in three points. `Read` stores
the epoch *after* the transfer parameters, the description wants it before. It
returns `No_Data` and `Incompatible_Interface` without the last look at the epoch
that the description demands after every attempt. `Muchannel` shows what this
costs, with runs that end in `Success` on an inactive channel, return half a
packet, leave parameters of one epoch with the number of another, or report a
mismatch put together from two compatible epochs. `Right` says what each of the
six results means. For all of them but `No_Data`, and for the stored parameters,
there is one exact condition under which a call is right whatever any writers do:
at the call's first look the channel is active and in the epoch that the reader
had stored. `No_Data` can be wrong from every state; it is right if and only if
the channel is still in the reader's epoch at the access to WC.

**Kernel.** `MajorFrame` is the switch of major frames on N CPUs, with the sense
barrier of the kernel used twice and every shared access a step of its own;
`MajorFrameProgress` shows that under a fair schedule every wait is completed.
`TimerList` is the scheduler's timer list, a doubly linked list in the fields of
the scheduling groups, with the operations that keep it, the search for the next
active group, and the activity bits that other CPUs set meanwhile.

**Schemas.** `ContentModel` gives content models a meaning as languages of
element names (W3C XML Schema Part 1: Structures, sections 3.4.2, 3.8 and 3.9).
`XsdPlugin` is the rewriting of a schema document, in place and as functions;
`XsdMeaning`, `XsdDocs` and `XsdSchema` compare the languages of all complex
types before and after, through chains of extensions.

**Documentation transfer.** `DepGraph` computes which subjects use a component.
`PathKeys` is the matching of path steps, done by splitting strings. `DocTrie`
holds the pending insertions and applies them in one pass. `DocRules` and
`DocTransfer` interpret the rules, `DocPlaces` shows that the shipped rules need
no more than one pass, `DocNames` says which elements get which documents in terms
of tags, attributes and values, `DocOrder` that the order in which sets are
visited does not matter, and `DocSource` ties the parts together. `Xml` has the
trees that these modules and the schema modules share, `Wrappers` optional values
and results for all modules.

**Devices and tools.** `Console` is the VGA console, `Muenblock` the block device
client and `AhciServer` the driver that combines its requests and hands them to
the device, `Uart` the serial transmitter; `Mulog` has the two log tools, `AdaHex`
the printing and parsing of Ada literals, `Layout` the memory layout of Solo5
unikernels.

## What is not as documented

- `Read` of Muchannel stores the epoch after the parameters
  (`Muchannel.SafeExactlyWhenInSync`, `Muchannel.ParametersExactlyWhenInSync`,
  `Muchannel.TornElement`), and returns `No_Data` and `Incompatible_Interface`
  without a last look at the epoch (`Muchannel.NoDataIsRightIff`,
  `Muchannel.NoDataIsNeverSafe`, `Muchannel.MismatchExactlyWhenInSync`).
- `RW` of the block client adds a byte offset to a sector number. The request
  format wants a byte address, which this is only in special cases
  (`Muenblock.ByteAddressesIff`). The AHCI driver takes the offset of the first of
  the requests it combines for a sector number: a transfer gets the sectors it
  asked for if and only if all of its requests are combined into one command, or
  sectors are bytes, and no command is larger than the device allows
  (`AhciServer.RightSectorsIff`). With more requests than the driver combines, of
  larger sectors, it never does (`AhciServer.LongTransfersGoWrong`), and the client
  can be told success for other sectors (`AhciServer.WrongSectorsReportedGood`).
- A leading sequence that may be left out, but has no empty content of its own,
  does not take doc elements in front (`XsdDocs.DocsFirstExactlyWhenItOccurs`).
- Names that end in an equals sign, or hold a slash, `[@` or `="`, or start with
  a dollar sign, do not survive substitution into a path
  (`PathKeys.MatchesExactlyIffClean`).
- Zero is printed as an Ada literal without a digit, which cannot be parsed
  (`AdaHex.RoundTripIffPositive`).
- The console documents a tab as four spaces; the code goes to the next multiple
  of eight, which is the same only in the middle between two of them
  (`Console.TabStops`).

## Model

| member | source | states |
|---|---|---|
| `ShmStream.StepKeepsInv` | doc/shmstream/shmstream2.tex:150-217 | every access of a writer, in any order that the description allows and with resets at any time, keeps the last Elements packets intact except those that WSC has given up |
| `ShmStream.RunIsLater` | doc/shmstream/shmstream2.tex:107-118 | over any run no epoch returns, parameters of an epoch never change, its log only grows, and both counters only go up while it lasts |
| `ShmStream.ValidatedCell` | doc/shmstream/shmstream2.tex:79-101 | speculative access: a cell copied from the slot of a published packet is that packet's cell if afterwards the epoch is unchanged and WSC has not passed RC + Elements |
| `ShmReader.NeverBlocks` | doc/shmstream/shmstream2.tex:225-232 | with memory of arbitrary content at every access, an attempt of a reader ends within a bounded number of accesses with exactly one outcome, and no access leaves the region |
| `ShmReader.RunsAreExplained` | doc/shmstream/shmstream2.tex:234-314 | in every interleaving of a writer with resets and any number of readers, every synchronization, packet, overrun and absence of data that a reader reports is explained by the append-only log of one epoch |
| `ShmReader.NoDataMeansDrained` | doc/shmstream/shmstream2.tex:284-290 | a reader of the current epoch finds no data exactly when it has read all packets, and is never ahead of the writer |
| `ShmReader.StaleIsNeverAccepted` | doc/shmstream/shmstream2.tex:306-314 | once the epoch of a reader is gone, its next report is that it is not synchronized, and nothing it read in between is accepted |
| `ShmReader.InOrder` | doc/shmstream/shmstream2.tex:67-74 | packets of an epoch arrive in the order written, and consecutively unless an overrun was reported between them |
| `ShmReader.NothingLostSilently` | doc/shmstream/shmstream2.tex:67-74 | every packet before a reader's position was delivered or lies in a reported gap |
| `ShmReader.DeliveredOnce` | doc/shmstream/shmstream2.tex:67-74 | no packet is delivered twice |
| `Muchannel.FetchIsRight` | components/libmuchannel/src/muchannel-readers.adb:160-184 | from the check of WC on, whatever any writers do between the accesses: Success means that the element is the packet at RC of the reader's epoch, an overrun that the writer had begun packet RC + Elements and that RC has moved on to published packets, a changed epoch that it has changed, if an instance of its generic had opened the reader's epoch |
| `Muchannel.SynchronizeStores` | components/libmuchannel/src/muchannel-readers.adb:127-153 | among instances of one generic, synchronization under any interference stores the parameters of the epoch it stores, unless that is zero |
| `Muchannel.AcceptedIsRight` | components/libmuchannel/src/muchannel-readers.adb:103-186 | among instances of one generic, a call that leaves the reader with a nonzero epoch is right in its result, packet or overrun, unless that is No_Data |
| `Muchannel.ReadKeepsGood` | components/libmuchannel/src/muchannel-readers.adb:103-186 | every call leaves a reader record from which the next call is right again |
| `Muchannel.AcceptsInactiveChannel` | components/libmuchannel/src/muchannel-readers.adb:127-149 | on every channel, for every reader that is not in sync at its first look, there is a run of a writer of its own generic under which Read returns Success on an inactive channel |
| `Muchannel.SafeExactlyWhenInSync` | components/libmuchannel/src/muchannel-readers.adb:123-158 | on every channel, also an inactive or empty one: all results of Read but No_Data are right under every interference, of any writers or of instances of its generic, if and only if at its first look the channel was active and in the epoch that the reader had stored |
| `Muchannel.NoDataIsRightIff` | components/libmuchannel/src/muchannel-readers.adb:161-162 | No_Data is right, all packets of the current epoch have been read, if and only if the header still shows the reader's epoch, not zero, at the access to WC |
| `Muchannel.NoDataWhenInactive` | components/libmuchannel/src/muchannel-readers.adb:161-162 | from every state, in sync or not, there is a run of a writer of the reader's generic under which Read returns No_Data on an inactive channel |
| `Muchannel.NoDataIsNeverSafe` | components/libmuchannel/src/muchannel-readers.adb:161-162 | so no state makes all six results right under every interference |
| `Muchannel.MismatchIsRight` | components/libmuchannel/src/muchannel-readers.adb:127-153 | a reported incompatible interface is that of the current epoch, if one epoch lasted over the accesses to the parameters |
| `Muchannel.MismatchExactlyWhenInSync` | components/libmuchannel/src/muchannel-readers.adb:127-153 | whatever writers there are, a reported mismatch is always right if and only if the reader was in sync at its first look, and then none is reported |
| `Muchannel.TornParameters` | components/libmuchannel/src/muchannel-readers.adb:145-153 | a run in which an incompatible interface is reported although both epochs there were are compatible with the reader |
| `MuchannelHistory.CallsAreExplained` | doc/shmstream/shmstream2.tex:234-314 | whatever is handed out in a real epoch by any number of calls, among instances of one generic and under any interference, is explained by the append-only log of that epoch |
| `MuchannelHistory.PacketsArriveInOrder` | doc/shmstream/shmstream2.tex:67-74 | so the packets that calls of Read deliver in one epoch arrive in the order written, none twice, and consecutively unless an overrun was reported between them |
| `Muchannel.ParametersExactlyWhenInSync` | components/libmuchannel/src/muchannel-readers.adb:127-149 | after Read the reader carries the parameters of its epoch, whatever writers there are, if and only if that same condition held |
| `Muchannel.TornElement` | components/libmuchannel/src/muchannel-readers.adb:127-176 | a run in which Read returns Success with half of one packet and half of another state, which was never written |
| `Muchannel.ParametersOfAnotherEpoch` | components/libmuchannel/src/muchannel-readers.adb:127-149 | a run with writers of different protocols after which the reader carries the protocol of one epoch with the number of another |
| `MuchannelRegion.Region.Deactivate` | components/libmuchannel/src/muchannel-writer.adb:34-38 | the channel is left as the reset event leaves it |
| `MuchannelRegion.Region.Initialize` | components/libmuchannel/src/muchannel-writer.adb:42-71 | every store, in the order of the code, is a writer event; the run ends with the new epoch, the instance's header, and data of null elements |
| `MuchannelRegion.Region.Write` | components/libmuchannel/src/muchannel-writer.adb:75-89 | every store, in the order of the code, is a writer event; the run appends the element to the log of the epoch and advances both counters by one |
| `MuchannelRegion.Region.CopyElement` | components/libmuchannel/src/muchannel-readers.adb:164-166 | the copying loop with interference before every cell computes what the model of Read says |
| `MuchannelRegion.Region.FetchNext` | components/libmuchannel/src/muchannel-readers.adb:160-184 | element, result, reader and channel after the accesses from WC on are those of the model |
| `MuchannelRegion.Region.Read` | components/libmuchannel/src/muchannel-readers.adb:103-186 | element, result, reader and channel after all accesses, in the order of the code, are those of the model |
| `MajorFrame.StepKeepsInv` | kernel/src/sk-barriers.adb:70-95 | every access of every CPU, in any interleaving, keeps the barrier, the published frames and each CPU's position consistent |
| `MajorFrame.FramesAgree` | doc/report/des_architecture.tex:460-466 | whatever two CPUs see of the frame index, or of the start time, while running the same major frame, at any points of any run, is the same |
| `MajorFrame.RunTogether` | doc/report/des_architecture.tex:460-466 | CPUs that run at the same time run the same major frame, and index and start time then are those published for it |
| `MajorFrame.PublishesAlone` | doc/report/des_architecture.tex:444-459 | only the BSP replaces the index, and only while every other CPU is held between the two waits |
| `MajorFrame.NoOvertaking` | doc/report/impl_multicore.tex:80-87 | no CPU is ever more than one wait ahead of another, and the other has then been released already |
| `MajorFrame.WaitsForAll` | doc/report/des_architecture.tex:452-454 | a CPU completes a wait only after every other CPU has come to it |
| `MajorFrame.NeverStuck` | kernel/src/sk-barriers.adb:70-95 | in every reachable state some CPU can move, so the reused barrier does not deadlock |
| `MajorFrameProgress.EveryWaitCompletes` | kernel/src/sk-barriers.adb:70-95 | if every CPU keeps taking steps and its major frames end, then after a number of rounds that depends on the number of CPUs only the barrier is released once more, and every CPU passes wait after wait, in whatever order the CPUs move |
| `MajorFrame.StartOfFrame` | kernel/src/sk-scheduler.adb:773-787 | the start of frame k is the first start plus the periods of all frames before it, modulo 64 bits |
| `MajorFrame.Machine.Step` | kernel/src/sk-scheduler.adb:753-807 | one access on the shared variables in place is one step of the model |
| `MajorFrame.Machine.RunOn` | kernel/src/sk-scheduler.adb:719-729 | a look at one of the two global variables in place is the model's step; the last two looks before the waits are at the index and then at the start |
| `MajorFrame.Machine.Wait` | kernel/src/sk-barriers.adb:70-95 | an access of the barrier on the shared variables in place is the model's step |
| `MajorFrame.Machine.Publish` | kernel/src/sk-scheduler.adb:759-788 | the BSP's accesses between the waits on the shared variables in place are the model's steps |
| `TimerList.RemovalKeepsLists` | kernel/src/sk-scheduler.adb:138-169 | relinking around a listed group leaves its partition's list without it, in order and linked both ways, and every other list untouched |
| `TimerList.RemovalNeedsMember` | kernel/src/sk-scheduler.adb:152-158 | the store to Earliest_Timer is right if and only if the group is in its list or the list is empty |
| `TimerList.InsertionKeepsLists` | kernel/src/sk-scheduler.adb:219-240 | linking a group in where the loop stops yields the list with the group behind all that expire no later, and leaves every other list untouched |
| `TimerList.InsertedSorted` | kernel/src/sk-scheduler.adb:255-272 | the list stays sorted by timeout |
| `TimerList.ExpiredIsPrefix` | kernel/src/sk-scheduler.adb:483-497 | in a sorted list, stopping at the first group still waiting finds all expired groups |
| `TimerList.VisitStep` | kernel/src/sk-scheduler.adb:345-412 | visiting a group leaves the states of those still ahead as they were at the start of the search, so the first active one in cyclic order is found |
| `TimerList.Scheduler.constructor` | kernel/src/sk-scheduler.adb:878-892 | with empty timer lists and every group's bit set no group is forgotten and no wake-up missed |
| `TimerList.Scheduler.MarkAllActive` | kernel/src/sk-scheduler.adb:968-979 | the loops over partitions and their groups set the bit of every group |
| `TimerList.Scheduler.UpdatePartition` | kernel/src/sk-scheduler.adb:513-568 | on every frame change, under any interference, no wake-up is missed and no group forgotten; the partition switches to an active, indicated group outside the timer list, if one is found, and wakes up then; exactly the current subjects of sleeping partitions are halted |
| `TimerList.Scheduler.ReschedulePartition` | kernel/src/sk-scheduler.adb:577-661 | the same after a sleep or yield of the current subject, also if an event for it arrives while it goes to sleep; the partition goes to sleep if and only if no group is found |
| `TimerList.Scheduler.IsGroupInTimerList` | kernel/src/sk-scheduler.adb:120-132 | the test of head and previous link is true exactly for members of the list |
| `TimerList.Scheduler.LinkPrevToNext` | kernel/src/sk-scheduler.adb:147-168 | the stores to the fields of the groups and to Earliest_Timer, in the order of the code |
| `TimerList.Scheduler.RemoveGroup` | kernel/src/sk-scheduler.adb:138-169 | the list is the old one without the group; a group whose bit is set may leave without being forgotten |
| `TimerList.Scheduler.ActivateGroup` | kernel/src/sk-scheduler.adb:178-197 | the group leaves the list and its bit is set; no group is forgotten |
| `TimerList.Scheduler.FindPlace` | kernel/src/sk-scheduler.adb:255-271 | the loop stops behind all groups that expire no later than the deadline, with the neighbours of that place |
| `TimerList.Scheduler.Insert` | kernel/src/sk-scheduler.adb:219-240 | the stores of the insertion, in the order of the code |
| `TimerList.Scheduler.InsertIntoTimerList` | kernel/src/sk-scheduler.adb:254-272 | the list is the old one with the group at its place, the timeout is the deadline |
| `TimerList.Scheduler.DeactivateGroup` | kernel/src/sk-scheduler.adb:207-276 | the group is in the list afterwards, unchanged if it was there before, and its bit is cleared; no group is forgotten |
| `TimerList.Scheduler.UpdateTimerList` | kernel/src/sk-scheduler.adb:472-503 | exactly the expired groups leave the list and have their bits set; no group is forgotten |
| `TimerList.Scheduler.DeactivateAndRecheck` | kernel/src/sk-scheduler.adb:377-408 | an event that arrives from another CPU before or after the bit is cleared is not missed |
| `TimerList.Scheduler.FindNextActive` | kernel/src/sk-scheduler.adb:319-417 | whatever other CPUs do meanwhile no wake-up is missed and no group forgotten; without interference the result is the first active group after the current one in cyclic order, or none if there is none |
| `TimerList.Scheduler.IndicateActivity` | kernel/src/sk-scheduler.adb:426-463 | an event for an inactive subject on the same CPU changes nothing, any other sets the group's bit; no wake-up is missed and no group forgotten |
| `XsdPlugin.InsertInComplexType` | tools/libmuxml/schema_plugins/libmuxsdplugin.py:154-206 | the loop over the children of a complex type rewrites it, or fails, as the function whose effect on the language is proved |
| `XsdPlugin.RewriteIsIdempotent` | tools/libmuxml/schema_plugins/libmuxsdplugin.py:179-224 | a second pass over a rewritten type changes nothing, without any guard |
| `XsdPlugin.Schema.InsertChildren` | tools/libmuxml/schema_plugins/libmuxsdplugin.py:238-258 | all nodes are inserted in order ahead of or behind the old children; any other position is an error that changes nothing |
| `XsdPlugin.Schema.InsertUniversalStartingGroup` | tools/libmuxml/schema_plugins/libmuxsdplugin.py:133-151 | every complex type is rewritten and the group defined on top, or the first type that is not supported is reported |
| `XsdPlugin.Schema.InsertDocInUsg` | tools/libmuxml/schema_plugins/xsd_plugin_doc.py:86-104 | the doc element goes first into the first sequence of the group in document order; without one it is an error that changes nothing |
| `XsdPlugin.Schema.RunPlugin` | tools/libmuxml/schema_plugins/xsd_plugin_doc.py:116-144 | the three guarded steps on the document in place compute the function whose results are compared |
| `XsdMeaning.EmptyGroupKeepsContent` | tools/libmuxml/schema_plugins/libmuxsdplugin.py:154-224 | with the empty group the language of every complex type is unchanged: wrapped choice or group, sequence before attributes, sequence for annotations only, prepended reference |
| `XsdMeaning.EmptyGroupKeepsEffective` | tools/libmuxml/schema_plugins/libmuxsdplugin.py:139-142 | the same for the effective content along every chain of extensions, of which only the base type is rewritten |
| `XsdDocs.GroupIsDocs` | tools/libmuxml/schema_plugins/xsd_plugin_doc.py:92-104 | the completed group definition stands for exactly any number of doc elements |
| `XsdDocs.DocsKeepTheRest` | tools/libmuxml/schema_plugins/libmuxsdplugin.py:139-142 | along every chain every content stays allowed, and what is allowed differs from it in doc elements only |
| `XsdDocs.NothingElseIsAllowed` | tools/libmuxml/schema_plugins/xsd_plugin_doc.py:116-124 | where doc was not allowed before, erasing the doc elements of an allowed content gives one that was allowed |
| `XsdDocs.DocsThenTheRest` | tools/libmuxml/schema_plugins/libmuxsdplugin.py:134-141 | with the default occurrence the new content is exactly any number of doc elements followed by the old content, along every chain |
| `XsdDocs.DocsFirstExactlyWhenItOccurs` | tools/libmuxml/schema_plugins/libmuxsdplugin.py:189-191 | along every chain of extensions, doc elements may precede every old content if and only if the leading sequence of the base type must occur, or may occur empty, or the extensions allow no content at all |
| `XsdDocs.EffectiveWidens` | tools/libmuxml/schema_plugins/libmuxsdplugin.py:134-141 | whatever content models and chains consist of: if every group only gains doc elements, so does every type |
| `XsdSchema.EmptyGroupMeaning` | tools/libmuxml/schema_plugins/libmuxsdplugin.py:133-151 | on whole documents: readings of the result are the readings before with the group empty, chains carry over, effective content is equal |
| `XsdSchema.PluginMeaning` | tools/libmuxml/schema_plugins/xsd_plugin_doc.py:116-144 | on whole documents without the group: every reading of the plug-in's output reads the input, and under it each type's content only gains doc elements, in front if the leading sequence occurs once |
| `XsdSchema.ReadingExists` | tools/libmuxml/schema_plugins/xsd_plugin_doc.py:116-144 | every reading of the input gives one of the output, with the group as any number of doc elements, in which all old contents keep their meaning |
| `XsdSchema.ExtendedMeaning` | tools/libmuxml/schema_plugins/xsd_plugin_doc.py:131-144 | on documents that define the group already, as after another plug-in: all types stay, and each type's content only gains doc elements; in the group they come first if its sequence occurs once |
| `XsdSchema.ExtendedReadingExists` | tools/libmuxml/schema_plugins/xsd_plugin_doc.py:131-144 | for such a document, every reading of the input gives one of the output in which only the group stands for something else |
| `XsdSchema.OneReferenceInFront` | tools/libmuxml/schema_plugins/libmuxsdplugin.py:134-141 | along every chain of extensions the effective content holds exactly one reference to the group, at its very start |
| `XsdSchema.PluginIsIdempotent` | tools/libmuxml/schema_plugins/xsd_plugin_doc.py:131-144 | the plug-in run on its own output is the identity, for every document on which it succeeds |
| `XsdSchema.OptionalContentTakesNoDocs` | tools/libmuxml/schema_plugins/libmuxsdplugin.py:189-191 | a concrete type that allows the empty content but, after the rewriting, no doc element |
| `DepGraph.Graph.GetReachableNodes` | tools/plugins/documentation/doc_transfer.py:35-48 | exactly the nodes reachable over one or more edges, cycles included, although the loop stops when a frontier adds nothing |
| `DepGraph.CompileComponentToSubjectsMap` | tools/plugins/documentation/doc_transfer.py:51-89 | the map has an entry for exactly the components and libraries, which holds exactly the subjects that use one of that name |
| `PathKeys.MatchesExactlyIffClean` | tools/plugins/documentation/doc_transfer.py:124-155 | a key with a value substituted matches exactly the nodes with that tag and attribute value if and only if the value is clean |
| `PathKeys.WildcardBinds` | tools/plugins/documentation/doc_transfer.py:140-151 | a key with a parameter matches every node with the tag and the attribute and binds exactly its value |
| `PathKeys.SubstituteIsKey` | tools/plugins/documentation/doc_transfer.py:246-251 | replacing the text between the quotes turns a step with a parameter into the key for the value |
| `PathKeys.BindThenSubstitute` | tools/plugins/documentation/doc_transfer.py:124-155 | binding and substitution undo each other: the target step finds exactly the nodes with the bound value if and only if it is clean |
| `PathKeys.ValuesExclude` | tools/plugins/documentation/doc_transfer.py:290-294 | keys with different clean values never match the same node |
| `PathKeys.ResolvedParam` | tools/plugins/documentation/doc_transfer.py:199-202 | the form with the mapping to subjects is recognised and its parameter extracted |
| `PathKeys.PlainParam` | tools/plugins/documentation/doc_transfer.py:203-205 | the plain form of a parameter is recognised and its name extracted |
| `DocTrie.LeavesOfInsert` | tools/plugins/documentation/doc_transfer.py:172-186 | an insertion adds its document at its path behind those already there, and nothing anywhere else |
| `DocTrie.ApplyTargetExpansion` | tools/plugins/documentation/doc_transfer.py:297-312 | the recursive procedure with its loops computes the application of the trie, and fails only at a key that splitting cannot read |
| `DocTrie.ApplyIsAnnotate` | tools/plugins/documentation/doc_transfer.py:297-312 | where sibling keys exclude each other, one pass with the trie equals giving every node the documents whose path leads to it |
| `DocTrie.EveryTargetGetsItsDocs` | tools/plugins/documentation/doc_transfer.py:297-312 | every node keeps tag, attributes and children and gets exactly the documents whose path matches its route, in traversal order, ahead of its children |
| `DocTrie.ErasingRestores` | tools/plugins/documentation/doc_transfer.py:309-311 | erasing the inserted documents gives the original document back |
| `DocTrie.OnePassTransfers` | tools/plugins/documentation/doc_transfer.py:226-258 | building the trie and applying it once equals all insertions on their own, and erasing restores the document |
| `DocRules.PrintedKey` | tools/plugins/documentation/doc_transfer.py:124-133 | splitting a rule's key at slashes matches its first step and leaves the others |
| `DocRules.PrintedTarget` | tools/plugins/documentation/doc_transfer.py:234-251 | the strings of target steps are told apart, and substituted, as the structured form says |
| `DocRules.AddOutputInserts` | tools/plugins/documentation/doc_transfer.py:226-258 | descending level by level inserts the document at exactly the paths that the target stands for, and stops with the same error |
| `DocTransfer.Expansion.Traverse` | tools/plugins/documentation/doc_transfer.py:102-110 | the loops over children and rules, with actions that update one expansion, compute the function below |
| `DocTransfer.FillRulesHolds` | tools/plugins/documentation/doc_transfer.py:102-110 | the trie left by the traversal holds exactly the insertions of the rules in document order, or both stop with the same error |
| `DocTransfer.RulesNeverFail` | tools/plugins/documentation/doc_transfer.py:207-217 | with a map that covers all components the shipped rules never meet an unresolved parameter or a missing mapping |
| `DocTransfer.RunsInsertDocs` | tools/plugins/documentation/doc_transfer.py:353-400 | rules that end in doc insert doc elements only, and the shipped rules do |
| `DocPlaces.FittingIsExclusive` | tools/plugins/documentation/doc_transfer.py:302-307 | in a trie whose keys follow a layout of differently tagged places with clean values, at most one sibling key matches any node |
| `DocPlaces.FillRulesFits` | tools/plugins/documentation/doc_transfer.py:179-186 | the traversal with rules that keep to the layout builds such a trie, if the names that reach target paths are clean |
| `DocPlaces.TransferDocs` | tools/plugins/documentation/doc_transfer.py:423-427 | the whole transfer: if the names that reach target paths are clean, every element of the target gets exactly the documents whose keys lead to it, without them it is what it was, and no error occurs if all components have entries |
| `DocNames.ElementsGetTheirDocs` | tools/plugins/documentation/doc_transfer.py:297-312 | the result by name: with clean names every document is addressed by tags, attributes and values, and every element of the target gets exactly the documents addressed to elements called like it and those above it, in order, ahead of its children |
| `DocNames.UncleanNamesGoAstray` | tools/plugins/documentation/doc_transfer.py:124-155 | for every name that is not clean there is an element that bears it and does not get its documents, or one that does not and gets them, or the transfer stops |
| `DocOrder.OrderDoesNotShow` | tools/plugins/documentation/doc_transfer.py:213-221 | for any rules, in whatever order the sets of subjects are visited, the traversal stops with the same error or every element of every document gets the same documents in the same order |
| `DocOrder.TransferOrderDoesNotShow` | tools/plugins/documentation/doc_transfer.py:276-285 | so the result of the whole transfer, and whether the names in it are clean, do not depend on that order |
| `DocSource.CompiledMapSuffices` | tools/plugins/documentation/doc_transfer.py:276-285 | the map compiled from the same policy is one with which the rules never fail |
| `DocSource.AnyVisitTransfersAlike` | tools/plugins/documentation/doc_transfer.py:276-285 | with the compiled map of sets the transfer never stops, and all orders of visiting its sets give the same result |
| `Console.ScreenShowsTranscript` | common/debug/sk-console_vga.adb:199-262 | from any screen with the cursor in the scrolling region, after any writes, the region shows the last lines of the unbounded wrapped transcript, in the colours they were written in, with the cursor at its end |
| `Console.ScreenShowsAllWrites` | common/debug/sk-console_vga.adb:180-262 | after Init, with a region from the first row on, the region shows the end of everything ever written over blank rows, and the rows below stay blank |
| `Console.StartShows` | common/debug/sk-console_vga.adb:180-195 | every such screen, in particular the cleared one, is the start of a transcript |
| `Console.StepConfined` | common/debug/sk-console_vga.adb:247-262 | writing and scrolling change no row outside the margins and keep the cursor inside them |
| `Console.OpKeepsRegion` | common/debug/sk-console_vga.adb:63-149 | all cursor movements and deletions keep the cursor in the region; all but the deletion of the screen leave the rows outside untouched |
| `Console.TabStops` | common/debug/sk-console_vga.adb:199-211 | on a width that is a multiple of eight a tab ends at the next tab stop, or at the start of the next line, and is the documented four spaces if and only if the cursor is in the middle between two stops |
| `Console.Screen.Init` | common/debug/sk-console_vga.adb:180-195 | the screen is blank and the cursor at its start; the margins stay |
| `Console.Screen.Scroll` | common/debug/sk-console_vga.adb:247-262 | rows between the margins move up by one, the bottom one is blank, all others stay |
| `Console.Screen.StartLine` | common/debug/sk-console_vga.adb:215-225 | the rows and the cursor in place after a line end |
| `Console.Screen.Put` | common/debug/sk-console_vga.adb:229-243 | the rows and the cursor in place after a character |
| `Console.Screen.PutTab` | common/debug/sk-console_vga.adb:199-211 | the loop prints the number of spaces that the tab stands for |
| `Console.Screen.SetPosition` | common/debug/sk-console_vga.adb:274-297 | wherever the cursor was, it is in the region afterwards, in the given column |
| `Console.Screen.CursorDown` | common/debug/sk-console_vga.adb:76-85 | the cursor never goes below the bottom margin |
| `Console.Screen.CursorUp` | common/debug/sk-console_vga.adb:102-111 | the cursor never goes above the top margin |
| `Console.Screen.DeleteLineFromCursor` | common/debug/sk-console_vga.adb:115-125 | exactly the cells of the row from the cursor on are blank |
| `Console.Screen.DeleteScreenFromCursor` | common/debug/sk-console_vga.adb:129-149 | exactly the cells from the cursor on, in reading order, are blank |
| `Muenblock.Client.ReadWrite` | components/src/muenblock_client.adb:396-459 | the requests sent are the split of the transfer, and the result is the sector count if and only if as many answers as requests, counted modulo 32 bits, are good; otherwise zero, after the first bad one |
| `Muenblock.Client.DiscardSectors` | components/src/muenblock_client.adb:463-477 | zero exactly on success, the wrapped negative count otherwise |
| `Muenblock.RequestsTile` | components/src/muenblock_client.adb:423-439 | requests follow each other without gap, on the device and in the buffer, from the start of the transfer to its end |
| `Muenblock.RequestRange` | components/src/muenblock_client.adb:424-432 | request k has tag, offsets and a length of at most the maximum number of sectors, in closed form |
| `Muenblock.EveryByteOnce` | components/src/muenblock_client.ads:68-73 | every byte of the buffer range is in exactly one request and no other byte in any |
| `Muenblock.TagsDifferIff` | components/src/muenblock.ads:59-60 | the tags of a transfer are distinct if and only if it takes no more requests than there are tags |
| `Muenblock.SectorNumbersIff` | components/src/muenblock_client.adb:424-432 | with each request on its own, its device offset is the number of its first sector if and only if one request suffices or a sector has one byte |
| `Muenblock.ByteAddressesIff` | components/src/muenblock.ads:64-67 | read as byte addresses they are right if and only if the transfer starts at sector zero or a sector has one byte |
| `AhciServer.Server.ProcessRequest` | components/ahci_drv/src/server.adb:510-584 | a request joins those that wait if it is contiguous with them and there is room, otherwise they are finished first |
| `AhciServer.Server.FinishCurrentRequest` | components/ahci_drv/src/server.adb:293-406 | the requests that wait become at most one command and are all answered with its status |
| `AhciServer.ServiceIsGroups` | components/ahci_drv/src/server.adb:532-577 | however often the driver finds the channel empty in between, a transfer is served in groups of contiguous requests, which end there or when they are full |
| `AhciServer.EveryRequestAnswered` | components/ahci_drv/src/server.adb:389-403 | every request of a transfer is answered exactly once, in the order sent |
| `AhciServer.RightSectorsIff` | components/ahci_drv/src/server.adb:308-334 | the sectors moved are those asked for, each from or to its address, if and only if no group is larger than the device allows and there is one group only or sectors are bytes |
| `AhciServer.LongTransfersGoWrong` | components/ahci_drv/src/server.adb:103-112 | more requests than the driver combines, of sectors of more than a byte, never get the right sectors |
| `AhciServer.OwnLimitIff` | components/ahci_drv/src/ata.adb:271-306 | with the device's own limit as that of the client, transfers get the right sectors if and only if they take one request, or sectors are bytes and no requests are combined |
| `AhciServer.WrongSectorsReportedGood` | components/ahci_drv/src/server.adb:389-403 | if groups are within the limit but there is more than one, other sectors are moved and all answers are still good |
| `Mulog.AppendToParent` | tools/scripts/mulog.py:10-15 | the loop from the end finds the last line with the prefix, or none |
| `Mulog.MergeLog` | tools/scripts/mulog.py:18-32 | the loop over the stripped lines computes the merge, or stops at the first missing parent |
| `Mulog.MergesIffNoOrphans` | tools/scripts/mulog.py:10-15 | the exception is raised if and only if some continuation has no earlier line of its subject to continue |
| `Mulog.MergeProjects` | tools/scripts/mulog.py:26-32 | merging and projecting to one subject commute, for every interleaving of subjects |
| `Mulog.StreamSubject` | tools/scripts/mulog-subject.py:29-48 | the reading loop prints the model's output |
| `Mulog.StreamIsMerge` | tools/scripts/mulog-subject.py:34-48 | for a subject with plain lines, read with their line ends, the streaming tool prints the merge of the subject's lines without their prefixes, which is what the batch merge of the whole log holds for it unless another subject stops that |
| `AdaHex.IntToAdaHex` | tools/libmupy/muutils.py:22-39 | the printing loop yields the padded digits with their separators |
| `AdaHex.RoundTripIffPositive` | tools/libmupy/muutils.py:11-39 | parsing what was printed gives the number back if and only if it is positive |
| `AdaHex.PrintedIsCanonical` | tools/libmupy/muutils.py:29-39 | positive numbers are printed in full groups of four digits with single underscores between them |
| `AdaHex.CanonicalRoundTrip` | tools/libmupy/muutils.py:11-39 | printing the value of a literal in that form gives the literal back |
| `Uart.Transmitter.PutChar` | common/debug/sk-uart.adb:102-116 | with a transmitter that drains at any moments the FIFO never overflows, and what was sent and what waits are always the characters put, in order |
| `Layout.Component.AddElfMemory` | tools/scripts/solo5-muen-gencspec.py:75-147 | the loop over the segments adds their file and fill regions and returns the end of the last one |
| `Layout.RoundUpIsLeast` | tools/scripts/solo5-muen-gencspec.py:108-129 | subtracting the remainder by the negative page size rounds up to the least multiple of the page size that is enough |
| `Layout.SegmentTiled` | tools/scripts/solo5-muen-gencspec.py:105-143 | file and fill region of a segment together cover exactly its page-rounded memory extent |
| `Layout.EndIsHighest` | tools/scripts/solo5-muen-gencspec.py:81-81 | for ascending segments the returned end is the highest one |
| `Layout.LayoutOrdered` | tools/scripts/solo5-muen-gencspec.py:75-187 | for ascending segments and any number of devices no two regions overlap |
| `Layout.Component.AddChannel` | tools/scripts/solo5-muen-gencspec.py:173-187 | two adjacent regions at the channel address, which moves behind them |
| `Layout.Component.Convert` | tools/scripts/solo5-muen-gencspec.py:291-326 | all regions of a conversion, one behind the other, and the stack pointer at the top of RAM |

## Left out

Channels:

- MuchannelRegion.Region.Write: WC and WSC are unbounded; that they are 64 bits wide and would wrap after that many packets is not modelled.
- MuchannelRegion.Region.FetchNext: RC and RC + Elements are unbounded, likewise.
- MuchannelRegion.Region.Read: cells are copied in ascending order; RC is unbounded, likewise.
- ShmReader.RunsAreExplained: epochs are unique and atomic fields sequentially consistent, as the description assumes; weak memory is not modelled.
- Reserved header field, Drain, Reset and Has_Pending_Data of the Muchannel reader.

Kernel:

- MajorFrame.FramesAgree: minor frames and their barriers are not modelled; a running CPU reads the global variables any number of times.
- MajorFrameProgress.EveryWaitCompletes: that schedules are fair and major frames end is an assumption about the CPUs and their timers.
- TimerList.Scheduler.FindNextActive: whether the active subject of a group is active is an input that other CPUs change; the switch of active subjects within a group is left out.
- TimerList.Scheduler.IndicateActivity: whether the subject is the active one of its group is an input.
- TimerList.Scheduler.ReschedulePartition: whether the subject that sleeps has nothing else to do is an input; the instruction pointer is left out.
- The publication of scheduling information.

Schemas:

- ContentModel.Reads: groups are solutions of their defining equations, so that cyclic definitions are allowed; `all` and wildcards are an arbitrary language.
- XsdDocs.DocsFirstExactlyWhenItOccurs: for contents that had no doc elements of their own.
- XsdSchema.ExtendedMeaning: for documents with one definition of the group, which does not refer to itself.
- XsdPlugin.RewriteIsIdempotent: for schemas whose prefix of the XML Schema namespace is the one that the XML library gives to an element created without a parent. The comparison of start tags includes the prefix (libmuxsdplugin.py:72-73, 214-222), so that with another prefix a second pass would find the tags different and insert the reference again.
- Other namespace prefixes, comments, attributes, the printed form of nodes and the unique particle attribution rule.

Documentation transfer:

- DocTrie.ApplyTargetExpansion: trees and dictionaries are values that the procedures return changed, not objects changed in place.
- DocPlaces.TransferDocs: the text and the children of a doc element are carried along unchanged; command line and files are left out.
- DocSource.CompiledMapSuffices: an element without a name attribute counts as having an empty one.

Devices and tools:

- Console.Screen.Put: the hardware cursor, and printing with the cursor below the bottom margin in the last row, which leaves the screen.
- Muenblock.Client.ReadWrite: Receive is an arbitrary answer, so the timeout and the matching of answers to requests, which the code does not do, are left out; Max_Sectors of zero, which would send requests for ever, is excluded.
- Muenblock.EveryByteOnce: for transfers that do not wrap around, as the interface demands of its callers.
- AhciServer.RightSectorsIff: for a client that alone uses the device and was told its sector size, a power of two; reads and writes that lie on the device, not discards.
- Init, Get_Device_Info, Get_SMART and Sync of the block client, Reset and the other requests of the driver, its partitions' bounds and the commands of the AHCI port.
- Uart.Transmitter.PutChar: the transmitter takes all waiting characters within a given number of polls; otherwise the driver would wait for ever.
- Mulog.StreamIsMerge: for lines of the subject without NUL and without a carriage return ahead of the line end, which the tools treat differently.
- AdaHex.RoundTripIffPositive: negative numbers, and literals with anything but hexadecimal digits between the number signs.
- Layout.LayoutOrdered: region names, access rights, and the program entry point.
- Libraries for XML and ELF, port input and output, and command lines.
