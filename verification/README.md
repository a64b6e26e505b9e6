# Crash-Cap analysis core: models and proofs

Crash-Cap turns a Windows minidump into a canonical crash result. Its core works on *frozen* evidence: a run
fixes beforehand which artifact pair was selected for every module of the dump, and every later step may only
use what was selected. Three parts enforce this independently: the planner splits the physical stack frames
into source requests, the collector checks every reply against the request it answers, and the assembler
checks every symbol packet again before it builds frames, scores and the exact fingerprint. The main theorem
here is that the three agree, for every dump, selection, stack and reply.

The project models

- the frozen pipeline: `Planner`, `Transport`, `Collector`, `FrozenRun`, `Assembler`, joined by `Composition`
  and, from the bytes of the dump to the result, by `Pipeline`;
- the fetch loop for public images (`PublicPe`) and the readers of dumps, images and PDB files (`Minidump`,
  `PeImage`, `PdbSource`);
- canonical JSON as a printer and parser pair (`CanonicalJson`, `JsonText`, `StrictJson`, `Utf8`) and the
  resolution fingerprint and run key on top of it (`ResolutionFingerprint`);
- frames, scores and the exact fingerprint (`Frames`), and the legacy reply parser (`SymbolMerge`,
  `ReplyProvenance`);
- the gateway's miss registry and path patterns (`MissRegistry`, `PathPatterns`), the Compose `extends`
  resolver (`Extends`), and the uploader (`Multipart`).

Loops and updated objects are methods and classes proved against specification functions in the same file or
in the file they are named after (`AssembleLoops` for `Assembler`, `CollectReply` for `Collector`); what the
system promises is proved about those functions in the files named `Laws` and in `Composition`,
`Independence`, `RunIndependence`, `RunDeterminism`, `NameProvenance`, `Refusals`, `Collision` and `Pipeline`.

## Conventions

- A fallible call returns `Success` or `Failure`; the wording of error messages is not modelled, except where
  the code itself acts on it (failure reasons of transports, reasons of source outcomes). The dump reader
  keeps the distinction of unsupported and corrupt input.
- Closed vocabularies that arrive as text (selection states, stages, outcomes, failure classes) are datatypes
  with an `Other` constructor for texts outside the vocabulary.
- The URL parser, the stack walker, the reader of image identities, the clock, HTTP exchanges, lossy text
  decoders, the calendar and the place where evidence is saved are parameters: any function, unless a
  precondition says otherwise. SHA-256 does not occur; laws about digests are laws about what is digested.
- Machine integers are subset types, and every bound that the code checks is written out. Scores are computed
  over `real`.
- A list that the code sorts before use is modelled by its sorted form; a binary search in a sorted list is
  membership.

## Where code and documents differ, and what turned out false

- The planner reads an address without prefix as decimal, the assembler always as hexadecimal.
  `Layout.ReadingsAgree` says on which texts they agree. The dump reader prints addresses with prefix, so
  they agree on every verified run (`Pipeline.FrozenIsVerified`).
- The exact fingerprint joins its fields with line breaks, and a function name may contain them. The payload
  can be read in one way only iff it spells a single token without line breaks (`PayloadLaws.ReadsOneWay`);
  more tokens always read as fewer tokens with a longer name. `PayloadLaws.ProducedReadsOneWay` gives the
  condition for the readings that an assembly can produce, `FrameLaws.PayloadInjective` says that payloads
  whose fields have no line breaks never collide, and `Collision.DifferentStacksCollide` assembles two
  different stacks to one fingerprint.
- A registry file does not always reload to the set it was written from. It does iff nothing new was reported
  missing, or the file did not end within a line and no new name starts with white space
  (`MissLaws.ReloadAgrees`); `MissLaws.WhiteNameChanges` and `MissLaws.UnfinishedLineLoses` are the two
  failures.
- The planner does not look at repeated thread ids, unwind methods or frame numbers; the assembler refuses
  them. These are exactly the ways in which a fully collected run can still fail (`Composition.Compose`), and
  each of them occurs alone (`Refusals`).
- Every byte of a dump counts: bytes behind the last stream change nothing but the reported size
  (`MinidumpLaws.TrailingBytes`), which is enough to refuse the run (`Pipeline.LongerDumpRefused`).

## Model

| member | source | states |
|---|---|---|
| Pipeline.VerifyFrozen | core/src/frozen_context.rs:209-372 | accepts exactly when the frozen inspection equals the native one of the dump in every field, every selection validates against its captured module, every role is about the same module and identity and agrees with its in-app flag, and the public sources pass their own checks |
| Pipeline.ValidateSources | core/src/frozen_context.rs:340-372 | the loop accepts exactly strictly ascending ids outside the reserved prefix, plain credential-free HTTP(S) URLs with a host and no zero port, and ascending filter lists |
| Pipeline.FrozenSourcesPlan | core/src/frozen_symbolicator.rs:133-149 | given what the schema demands of them, type http and a non-empty id, public sources that pass the verification are never refused by the planner |
| Pipeline.CheckDeployment | core/src/frozen_cli.rs:179-181 | the deployment is usable iff content root and engine are credential-free HTTP(S) addresses |
| Pipeline.PlanRefusals | core/src/frozen_symbolicator.rs:120-192 | once files verify and the deployment is usable, planning is refused iff the stacks are of other threads, a module leaves 64 bits, modules overlap, or modules of one pair contradict each other |
| Pipeline.LongerDumpRefused | core/src/frozen_context.rs:239-258 | bytes added at the end of a dump refuse every run that was frozen for it |
| Pipeline.FrozenIsVerified | core/src/frozen_context.rs:222-322 | frozen files that pass verification give everything the composition needs; that module addresses are printed ones is derived from the dump reader, not assumed |
| Pipeline.RunFrozen | core/src/frozen_cli.rs:126-300 | the whole run from dump bytes: refused before anything is fetched or asked unless the frozen files verify and the deployment is usable; otherwise the fetches follow the outside world, and the run succeeds iff all partitions have results, thread ids are distinct, unwind methods explain their trust and the frames can be numbered, and then returns the assembled result |
| RunDeterminism.WholeRunDetermined | core/src/frozen_cli.rs:126-300 | determinism: dump, frozen files, walker, answers and clocks admit one list of fetches, one record of exchanges and one result |
| RunDeterminism.ProgressDetermined | core/src/frozen_cli.rs:228-282 | they determine how far the partition loop comes and what it collects |
| Pipeline.EngineStacksConclude | core/src/unwind.rs:259-280 | with stacks made by the engine itself, a run whose partitions all have results can only fail on a repeated thread id or on more frames than an index can number |
| Composition.Compose | core/src/frozen_cli.rs:228-300 | composition: for every dump, selection, stack and reply, results that planner and collector let through merge without a module in two partitions, pass the source-outcome checks of validation and every packet check of the assembler; assembly is then refused only for thread ids, unwind methods and frame numbers |
| Refusals.RepeatedThreadRefused | core/src/canonical_v11.rs:461-469 | a fully collected run whose dump lists a thread twice is refused, for that reason alone |
| Refusals.UnexplainedFrameRefused | core/src/canonical_v11.rs:572-601 | a fully collected run with a frame that does not say how it was found is refused, for that reason alone |
| Refusals.LongStackRefused | core/src/canonical_v11.rs:602-613 | a fully collected run with more frames than 32 bits can number is refused, for that reason alone |
| Composition.ModulesTraced | core/src/frozen_cli.rs:283-289 | no module occurs twice among the collected outcomes, and each comes from a partition that asked about it |
| Composition.MergedOutcomesOk | core/src/canonical_v11.rs:417-433 | the merged outcomes of every module, fetched images included, end no stage of a source twice, are valid, and leave blocked modules without request outcomes |
| Composition.FramesTraced | core/src/canonical_v11.rs:509-514 | the packets of all partitions lie in pairwise different frames, each tied to a reference of its partition and to a recorded success |
| Composition.PacketAccepted | core/src/canonical_v11.rs:470-507 | every packet that came through a partition names an existing frame, its own instruction and module, the frozen pair or a public source, and a correlated success |
| Composition.PacketSource | core/src/canonical_v11.rs:485-495 | the source of a packet is the pair that its module selected, or a listed public source where nothing was selected |
| Composition.PacketCorrelated | core/src/canonical_v11.rs:496-504 | the success that backs a packet survives the merge |
| Composition.SameExtents | core/src/canonical_v11.rs:445-460 | over printed addresses planner and assembler place every module alike, although they read addresses by different rules |
| Composition.ResultSound | core/src/frozen_cli.rs:229-281 | whatever became of a request, the result of a partition covers its modules in order with reportable outcomes and anchored, backed packets |
| FrozenRun.ServePartition | core/src/frozen_cli.rs:229-281 | one turn of the partition loop: out of time, transport failure, retryable failure of a public partition, or a collected reply, with the transport evidence of a run of the retry machine on the partition's own request |
| FrozenRun.ServePartitions | core/src/frozen_cli.rs:228-282 | the loop over the partitions stops at the first one without a result and otherwise collects one result per partition |
| FrozenRun.MergePartitions | core/src/frozen_cli.rs:283-289 | the merge fails exactly when a module comes from two partitions and otherwise holds the outcomes of each module |
| FrozenRun.AddPublicOutcomes | core/src/frozen_cli.rs:290-292 | outcomes of fetched images are put after those of the partitions, in any order of the modules |
| FrozenRun.CanonicalInputs | core/src/frozen_context.rs:80-104 | fails exactly for outcomes of modules that were not captured; every captured module gets its selection, role and outcomes |
| FrozenRun.Run | core/src/frozen_cli.rs:219-300 | succeeds iff there is a plan, every partition has a result, thread ids are distinct, unwind methods explain their trust and frames can be numbered; the merge and the validation never end the run |
| Planner.CheckPublicSources | core/src/frozen_symbolicator.rs:133-149 | accepts exactly lists of named, non-reserved, credential-free HTTP sources without a repeated id |
| Planner.KeyShape | core/src/frozen_symbolicator.rs:162-176 | the key of a module tells private pairs from public modules, and only unique or none selections have one |
| Planner.JoinGroup | core/src/frozen_symbolicator.rs:162-192 | joining fails exactly for an unsafe content root or a module that contradicts the first of its group; otherwise the group gains exactly this module |
| Planner.GroupModules | core/src/frozen_symbolicator.rs:150-192 | the loop over the modules accepts exactly valid selections with readable ranges and agreeing groups, and leaves groups, range table and blocked modules as specified |
| Planner.AssignFrame | core/src/frozen_symbolicator.rs:200-218 | a frame adds one reference and one stacktrace to the group of its module, or nothing |
| Planner.AssignFrames | core/src/frozen_symbolicator.rs:198-220 | after the loop every group holds exactly the references of all frames before, in stack order |
| Planner.CollectPartitions | core/src/frozen_symbolicator.rs:221-224 | groups without references are dropped, the rest comes in ascending key order |
| Planner.MakePlan | core/src/frozen_symbolicator.rs:120-225 | planning succeeds exactly for plannable inputs and returns their plan |
| PlanLaws.ExactCover | core/src/frozen_symbolicator.rs:198-224 | every frame in a selected or publicly servable module has exactly one reference in exactly one partition, with its own instruction and module; frames of blocked or unknown modules have none |
| PlanLaws.PlanUnique | core/src/frozen_symbolicator.rs:120-225 | the inputs determine the plan: what the planner promises leaves no choice |
| PlanLaws.PartitionRefs | core/src/frozen_symbolicator.rs:198-220 | a reference is in a partition iff it names a frame whose instruction lies in a module with the key of the partition |
| PlanLaws.ModulesApart | core/src/frozen_symbolicator.rs:177-192 | no module is asked about in two partitions |
| PlanLaws.PartitionContent | core/src/frozen_symbolicator.rs:162-192 | a private partition holds only modules that selected its one pair; a public partition holds a single module |
| PlanLaws.PartitionWellFormed | core/src/frozen_symbolicator.rs:177-220 | stacktraces stay parallel to references, requested modules to captured ones, and source ids to the sources of the request |
| PlanLaws.RefsDistinct | core/src/frozen_symbolicator.rs:198-220 | within a partition no frame is referred to twice |
| Layout.ReadingsAgree | core/src/frozen_symbolicator.rs:687-699 | the planner's and the assembler's readings of an address text agree iff it is `0x` and hexadecimal digits, or a bare decimal below ten |
| Layout.ReadingsDisagree | core/src/canonical_v11.rs:447-448 | the text `10` is ten for the planner and sixteen for the assembler |
| Layout.PrintedAddress | core/src/minidump.rs:729-731 | an address printed by the dump reader reads back under both readings |
| Layout.NeighboursDecide | core/src/canonical_v11.rs:456-460 | comparing neighbours of the sorted range table decides whether any two modules overlap |
| Layout.LookupUnique | core/src/canonical.rs:905-911 | without overlaps the sorted table, a first-match scan and any other scan find the same module |
| CollectReply.CollectResponse | core/src/frozen_symbolicator.rs:417-685 | the loops of `collect` compute the specified verdict on an arbitrary reply, with the same refusals |
| CollectReply.ConsultCandidates | core/src/frozen_symbolicator.rs:485-557 | the candidate loop refuses exactly what the specification refuses and tabulates statuses by source and stage |
| CollectReply.ClassifyDownloads | core/src/frozen_symbolicator.rs:558-581 | every key of the status table is visited once and nothing else: each tabulated source and stage has its outcome, per source the PDB before the PE, as specified |
| CollectReply.CollectModule | core/src/frozen_symbolicator.rs:450-619 | one returned module: identity, architecture and range checks, downloads, owner and outcomes as specified |
| CollectReply.CollectTrace | core/src/frozen_symbolicator.rs:621-683 | one returned trace: provenance of every record, no mixed statuses, last record physical and the others inlined into it |
| Collector.MakeUnavailable | core/src/frozen_symbolicator.rs:94-118 | without a reply every module of the partition gets one symbolicate outcome per source, in source order, and no symbols |
| Collector.Consult | core/src/frozen_symbolicator.rs:491-556 | a candidate counts only from a source of the partition, and only a PDB download can own the module |
| CollectorLaws.JudgedModule | core/src/frozen_symbolicator.rs:450-619 | whatever an accepted module entry says, its outcomes are valid, about sources of the partition, one per stage, and an owner is backed by a recorded success |
| CollectorLaws.CandidateOrderIrrelevant | core/src/frozen_symbolicator.rs:489-617 | neither the order of a module's candidates nor their repetition changes what is recorded about the module |
| CollectorLaws.PacketsAnswer | core/src/frozen_symbolicator.rs:620-683 | packets answer references of the partition in order, each at most once, on behalf of the owner of the reference's module |
| CollectorLaws.CollectedSound | core/src/frozen_symbolicator.rs:417-685 | every accepted reply, however it was written, yields a result the merge may rely on |
| CollectorLaws.UnavailableSound | core/src/frozen_symbolicator.rs:94-118 | so does the absence of a reply |
| Transport.Execute | core/src/frozen_symbolicator.rs:265-409 | every run posts at most three times, records every exchange, and ends as its last reply, the deadline and the post budget say; it terminates because pauses use up remaining time |
| Transport.RunDetermined | core/src/frozen_symbolicator.rs:265-409 | replies and clock determine what is sent, what is recorded and how the run ends |
| Transport.WhatIsSent | core/src/frozen_symbolicator.rs:296-315 | all posts carry the same body, a poll names exactly the id of the reply just before it, and a repost follows a poll answered with 404 |
| Transport.SuccessIsCompletion | core/src/frozen_symbolicator.rs:366-377 | a run ends without failure iff its last reply is a 2xx with a completed JSON body, which is what it returns |
| Transport.PollLegacy | core/src/symbolicator.rs:246-271 | the poll loop of the legacy client |
| Transport.SymbolicateLegacy | core/src/symbolicator.rs:202-280 | the legacy post and poll loops compute the specified end and number of attempts |
| Transport.LegacyRun | core/src/symbolicator.rs:202-280 | the legacy client makes at most twenty-seven attempts, and a result is its last reply, never a pending one |
| PublicPe.Unwind | core/src/frozen_public_pe.rs:63-201 | the fetch loop makes exactly the tries that its history describes, stops only when nothing is wanted or a budget is used up, and the report it holds is always the unwinding of its current images; a failing walk ends the run |
| PublicPe.FetchesDetermined | core/src/frozen_public_pe.rs:76-200 | answers and clock determine which modules are tried and what is gained |
| PublicPe.TriedOnce | core/src/frozen_public_pe.rs:76-102 | at most sixteen modules are tried, none twice |
| PublicPe.BytesBounded | core/src/frozen_public_pe.rs:130-142 | images gained total at most 64 MiB, and at most one byte more is read |
| PublicPe.OnlyVerifiedAdded | core/src/frozen_public_pe.rs:163-176 | given images are never replaced; an added one is for a complete none selection on x86_64 with a debug id, and carries exactly the captured identity |
| PublicPe.ReadAtMost | core/src/frozen_public_pe.rs:130-142 | a try reads at most one byte beyond its limit, and what it gains is what it read, within the limit |
| PublicPe.OutcomesMerge | core/src/frozen_public_pe.rs:185-199 | what the loop reports about fetched images satisfies the demands of the merge |
| Assembler.CheckOutcomes | core/src/canonical_v11.rs:417-433 | accepts exactly valid outcomes that end no stage of a source twice and, for blocked modules, are all blocked |
| Assembler.ValidateInputs | core/src/canonical_v11.rs:397-436 | accepts exactly modules whose selection validates, whose role and in-app flag agree, whose artifact ids are sorted, and whose outcomes pass |
| AssembleLoops.BuildRanges | core/src/canonical_v11.rs:445-456 | the range table is built exactly when every address reads as hexadecimal and stays within 64 bits |
| AssembleLoops.CheckPackets | core/src/canonical_v11.rs:470-515 | the packet loop accepts exactly packet lists in which every packet passes and no two name the same frame |
| AssembleLoops.PushRecords | core/src/canonical_v11.rs:602-628 | a physical frame and its inline records are appended one by one with their provenance, or refused when an index would leave 32 bits |
| AssembleLoops.BuildThread | core/src/canonical_v11.rs:569-635 | frames and provenance of a thread, refused exactly when a method does not explain its trust or the frames do not fit |
| AssembleLoops.BuildThreads | core/src/canonical_v11.rs:566-637 | the loop over the threads |
| AssembleLoops.ZipThreads | core/src/canonical_v11.rs:689-707 | the final zip of frames and provenance loses nothing |
| AssembleLoops.DistinctThreadIds | core/src/canonical_v11.rs:463-469 | comparing the number of distinct ids with the number of threads decides whether ids repeat |
| AssembleLoops.AssembleChecked | core/src/canonical_v11.rs:438-735 | assembly succeeds exactly for assemblable evidence and returns the specified result |
| AssemblerLaws.InlineErasure | core/src/canonical_v11.rs:566-637 | in every assembled thread frames are numbered from zero, each carries instruction, module, method and trust of its physical frame, and dropping inline records gives back the raw stack in order |
| AssemblerLaws.StackShape | core/src/canonical_v11.rs:566-637 | the same for every prefix of a stack |
| AssemblerLaws.EngineFramesOk | core/src/unwind.rs:259-280 | the assembler never refuses trust and method names that the engine derives from one trust value |
| Independence.NonInterference | core/src/canonical_v11.rs:588-621 | unwind reports that differ only in raw function, file, line, module, resume address or inline flag assemble alike or not at all |
| RunDeterminism.SameWalksSameRun | core/src/frozen_cli.rs:126-300 | whole-run non-interference: walkers that find the same frames with the same trust and method, whatever they name them, lead to the same fetches, the same exchanges and the same result |
| RunIndependence.WholeRunIndependent | core/src/frozen_cli.rs:126-300 | what a verified run may do with the one walker it may do with the other: fetches, record and result carry over |
| RunIndependence.PlanSame | core/src/frozen_symbolicator.rs:120-225 | such stacks have the same plan, requests included |
| RunIndependence.CourseSame | core/src/frozen_cli.rs:228-300 | and the record of a run with the one is the record of the run with the other |
| RunIndependence.ConclusionSame | core/src/frozen_cli.rs:219-300 | and the runs end alike |
| Independence.PacketOrderIrrelevant | core/src/canonical_v11.rs:470-515 | permuting the packet list changes neither success nor result |
| ResultLaws.NamesComeFromPackets | core/src/canonical_v11.rs:594-621 | every function name in a result was supplied by an accepted packet for that very physical frame |
| NameProvenance.RunNamesAreHeard | core/src/frozen_cli.rs:126-300 | end to end: every function name in the result of a run is the function or symbol text of an accepted record in the trace of the reference to that very frame, in the completed 2xx reply to the last attempt recorded for a partition's own request |
| NameProvenance.NamesAreHeard | core/src/frozen_cli.rs:219-300 | the same for a run with given stacks |
| NameProvenance.CollectedTold | core/src/frozen_symbolicator.rs:620-683 | a name in a packet of an accepted reply was told by a record of the trace that the packet answers |
| NameProvenance.ServedHeard | core/src/frozen_symbolicator.rs:366-377 | a transport that ends without failure returns the body of the 2xx reply to the last attempt that it records |
| ResultLaws.InlinesDoNotCount | core/src/canonical.rs:678-811 | packet lists that differ only in inline records give equal scores, warnings and exact fingerprints |
| ResultLaws.ExactRestsOnReliableFrame | core/src/canonical.rs:749-811 | an exact fingerprint spells the frames selected from the first thread with the crashing id, and one of those selected frames is a raw frame whose method is context, call frame info or frame pointer |
| ResultLaws.ExactNeedsTrust | core/src/canonical.rs:749-811 | the same on canonical frames: the payload spells the selected frames of that thread, and a selected one is neither scanned nor of unknown trust |
| Frames.SelectFrames | core/src/canonical.rs:766-789 | the scan with a seen set and a limit of five selects the first five eligible frames with distinct addresses |
| Frames.FreshIndexesAre | core/src/canonical.rs:766-789 | the selection list holds all fresh frames, in stack order, and no others |
| FrameLaws.SelectionIgnoresTail | core/src/canonical.rs:766-789 | frames more than one past the fifth selected never matter |
| FrameLaws.SelectedFrames | core/src/canonical.rs:766-789 | selected frames are at most five, eligible, and have pairwise distinct addresses |
| FrameLaws.ScoresInRange | core/src/canonical.rs:678-747 | all quality scores and the weighted score lie between zero and one |
| FrameLaws.PayloadInjective | core/src/canonical.rs:794-811 | with fields free of line breaks, two fingerprint payloads are equal iff workspace, code, access type, fault debug id and the whole token list are equal |
| PayloadLaws.ReadsOneWay | core/src/canonical.rs:794-811 | a payload has exactly one reading iff it spells a single token and no field contains a line break |
| PayloadLaws.SharedPayload | core/src/canonical.rs:794-811 | two readings with line breaks only in names share a payload iff they agree on workspace, code, access type, fault id, first debug id, last bucket, and the text between the last two |
| PayloadLaws.ProducedReadsOneWay | core/src/canonical.rs:794-811 | among readings with line breaks only in names, a payload has exactly one reading iff it spells a single token whose name holds no line of a bucket followed by another line |
| PayloadLaws.OneLineReadingsDiffer | core/src/canonical.rs:794-811 | among readings without any line break in a field every payload has one reading, with any number of tokens |
| Collision.PlainFingerprint | core/src/canonical_v11.rs:438-735 | for a crash whose frames all lie in one matched module with plain names, the exact fingerprint spells every frame, from its packet to its token |
| Collision.DifferentStacksCollide | core/src/canonical.rs:749-811 | two acceptable runs over one report share an exact fingerprint although one stack has a single frame and the other two: the reply named the single frame with line breaks, which normalization keeps |
| Evidence.CapturedFixpoint | core/src/canonical_v11.rs:59-78 | a captured identity captures to itself |
| Evidence.CapturedDebugIdShape | core/src/canonical_v11.rs:62-73 | a captured debug id is 32 lower-case digits and an age that fits 32 bits, in shortest form |
| CanonicalJson.EncodeCanonical | core/src/frozen_context.rs:435-478 | encoding succeeds exactly for ASCII keys and safe integers without floats, and yields the UTF-8 of the canonical text |
| CanonicalJson.Encode | core/src/frozen_context.rs:436-474 | the recursive encoder appends exactly the canonical text of the value |
| CanonicalJson.EncodeArray | core/src/frozen_context.rs:453-462 | items in order, separated by commas |
| CanonicalJson.EncodeMembers | core/src/frozen_context.rs:443-450 | members in ascending key order, separated by commas |
| StrictJson.StrictRead | core/src/frozen_context.rs:480-487 | reading enforces size, syntax, unique names, absence of floats, and canonical encodability |
| StrictJson.VisitSeq | core/src/frozen_context.rs:519-525 | the array visitor collects all items or fails with the first failing one |
| StrictJson.VisitMap | core/src/frozen_context.rs:526-536 | the object visitor refuses a name it has already seen |
| StrictJson.RoundTrip | core/src/frozen_context.rs:435-487 | reading undoes encoding for every encodable value within the limits on depth and size |
| StrictJson.CanonicalInjective | core/src/frozen_context.rs:435-478 | canonical bytes are equal iff the values are |
| StrictJson.InsertionOrderIrrelevant | core/src/frozen_context.rs:441-450 | the order in which members were written, at every depth at once, changes neither acceptance nor value, hence not the canonical bytes |
| StrictJson.VisitorRefusals | core/src/frozen_context.rs:489-540 | a document is refused iff at some depth an object repeats a name or a number is a float |
| StrictJson.ReadAccepts | core/src/frozen_context.rs:480-487 | reading accepts exactly well-formed documents within the limits whose value is canonically encodable |
| JsonText.DocumentParses | core/src/frozen_context.rs:480-485 | a printed document parses back, as a whole, to itself (RFC 8259) |
| JsonText.StringParses | core/src/frozen_context.rs:447-471 | an escaped string parses back to its text and leaves the rest |
| Utf8.RoundTrip | core/src/frozen_context.rs:435-487 | the bytes of a text decode to the text (RFC 3629) |
| Text.SortStrings | core/src/frozen_context.rs:441-442 | sorting gives the one ascending enumeration of a key set |
| ResolutionFingerprint.ResolutionPreimage | core/src/frozen_context.rs:374-404 | the projection and sorting loops build the specified preimage |
| ResolutionFingerprint.PreimageEquality | core/src/frozen_context.rs:374-404 | preimages of manifests with distinct module indexes are equal iff Dump hash, inspector and selection versions and the eight projected fields per module agree, whatever the module order |
| ResolutionFingerprint.RunKeyEquality | core/src/frozen_context.rs:406-417 | run keys have equal preimages iff occurrence, fingerprint, context, demand generation and retry attempt agree |
| SymbolMerge.MergeSymbol | core/src/symbolicator.rs:710-740 | taking fields out and writing them back makes the new record primary and appends old and new one as inline records |
| SymbolMerge.ExpandMerged | core/src/canonical.rs:487-515 | merging records of one key and expanding again shows the last record, followed by all with consecutive repetitions collapsed and the last one dropped |
| SymbolMerge.MergedFrames | core/src/canonical.rs:471-517 | the same for the canonical frames made of them |
| SymbolMerge.ExpandInlines | core/src/canonical.rs:487-502 | the duplicate filter over inline records |
| SymbolMerge.CanonicalFrames | core/src/canonical.rs:436-518 | a physical frame shows the symbol found for it and its inline frames if its module may show symbols; otherwise it shows none and the symbol is counted as suppressed |
| SymbolMerge.FindSymbol | core/src/canonical.rs:566-583 | the lookup gives the symbol of the module's own key, else that of the first key in order with this address and file name |
| SymbolMerge.FoundThere | core/src/canonical.rs:566-583 | a found symbol always belongs to this very address, under a module with this file name |
| SymbolMerge.ParseResult | core/src/symbolicator.rs:336-450 | the loops over modules, traces and frames keep version and listed statuses, fold exactly the accepted frames and count the others |
| SymbolMerge.CheckFrame | core/src/symbolicator.rs:365-447 | the checks on one frame: address, thread, index, distance, provenance and module name, in the order in which they reject it |
| ReplyProvenance.MatchProvenance | core/src/symbolicator.rs:460-543 | the loops over path fields and paths accept exactly frames whose paths all mean one listed module that is the requested image, or, without a list, frames whose paths have the requested file name |
| ReplyProvenance.NamesNeverSuffice | core/src/symbolicator.rs:545-656 | against a reply that lists modules, none with the debug id of the requested one, no frame is accepted, whatever paths and addresses it gives |
| ReplyProvenance.PathlessFrames | core/src/symbolicator.rs:521-543 | a frame without path is accepted iff exactly one listed module lies around its addresses and is the requested image; it never guesses |
| ReplyProvenance.RenamedFolder | core/src/symbolicator.rs:545-597 | a path whose file name only one listed module has is accepted iff that module is the requested image, whatever its folders |
| ReplyProvenance.IdsIgnoreForm | core/src/symbolicator.rs:694-700 | ids are equal up to letter case and separators |
| SymbolMerge.Conservation | core/src/symbolicator.rs:336-450 | every reply frame in a trace with a frame list is either counted as rejected or stands in the merged symbols; the keys are exactly those of the accepted frames of the reply, each accepted for the very frame it names and keyed by that frame's own address and module name |
| SymbolMerge.KeysMergeApart | core/src/symbolicator.rs:710-740 | whatever comes between them, the records of a key are merged as if they came alone |
| Minidump.InspectBytes | core/src/minidump.rs:193-312 | for every byte string the reader returns the specified report, all of its fields and warnings, or refuses the input as unsupported or corrupt; all reads are within bounds |
| Minidump.ParseDirectories | core/src/minidump.rs:365-392 | the directory loop |
| Minidump.ParseThreads | core/src/minidump.rs:428-478 | the thread loop, for plain and extended records, with stacks and contexts |
| Minidump.ParseRegisters | core/src/minidump.rs:567-598 | the register loop keeps all seventeen registers or none |
| Minidump.ParseException | core/src/minidump.rs:480-515 | the exception record with at most fifteen parameters, the fault address of access violations only, and its context |
| Minidump.ParseModules | core/src/minidump.rs:600-656 | the module loop over the retained records |
| MinidumpLaws.EveryReport | core/src/minidump.rs:193-312 | every report lists the declared number of modules but at most 4096, warns exactly when modules were dropped, states the size of the dump, and each module is captured under the ids it is reported with |
| MinidumpLaws.ModuleWellspoken | core/src/minidump.rs:628-654 | the code id is captured in lower case, the debug id as it is, and the image base is a printed address |
| MinidumpLaws.CodeIdInjective | core/src/minidump.rs:646 | a code id tells time stamp and image size |
| MinidumpLaws.DebugIdInjective | artifact-identity/src/lib.rs:439-450 | a debug id tells GUID and age |
| MinidumpLaws.TrailingBytes | core/src/minidump.rs:296-303 | bytes after the end of a readable dump change the reported size, by their number, and nothing else |
| PeImage.ParseDebugDirectory | artifact-identity/src/lib.rs:191-249 | a directory beyond the budget is refused; otherwise the first entry that tells an RSDS identity or cannot be read decides, and there is no identity when no entry does |
| PeImage.DecidedOnce | artifact-identity/src/lib.rs:206-249 | at most one entry decides, and with it the outcome |
| PeImage.ReadersAgree | artifact-identity/src/lib.rs:219-246 | over the same CodeView record the image reader and the dump reader report the same id and path; the image reader refuses more only when the path exceeds its budget |
| PdbSource.View | artifact-identity/src/lib.rs:378-413 | a view succeeds exactly within the memory budget and the file, and is a fresh buffer with exactly the requested slices |
| PdbSource.ReadExact | artifact-identity/src/lib.rs:407-409 | reading fills exactly its part of the buffer |
| PdbSource.GatheredAt | artifact-identity/src/lib.rs:396-410 | a position of the view holds the byte of the slice that covers it |
| MissRegistry.MissLog.RecordCompletedResponse | deploy/symbolicator/gateway.py:96-142 | a response adds exactly its unknown missing identities to the set and appends their entries to the file, behind whatever its last line break leaves, and torn wherever the write fails |
| MissRegistry.MissLog.CollectCandidates | deploy/symbolicator/gateway.py:96-119 | the candidates are the missing identities in order of first mention |
| MissRegistry.MissLog.Load | deploy/symbolicator/gateway.py:64-87 | loading adds exactly the identities of the lines of the public source |
| MissRegistry.MissLog.constructor | deploy/symbolicator/gateway.py:56-62 | a new registry knows what seed and file hold, an unfinished last line included |
| MissRegistry.MissLog.Contains | deploy/symbolicator/gateway.py:89-94 | a module is contained iff it has an identity that is known |
| MissLaws.EntryReloads | deploy/symbolicator/gateway.py:28-42 | a logged identity comes back as itself without white space at the start of its file name |
| MissLaws.RunLaws | deploy/symbolicator/gateway.py:96-142 | over every run of calls, with writes torn anywhere: what is known is what was known and what was attempted, no identity is attempted twice or was known, finished lines stay, and the file says at most what it said and one entry for each attempt |
| MissLaws.AttemptedAre | deploy/symbolicator/gateway.py:96-142 | what a run attempts to append is exactly what its payloads report missing and the registry did not know at the start |
| MissLaws.NothingInvented | deploy/symbolicator/gateway.py:64-142 | whatever is torn, reopening never knows an identity that was neither known nor reported missing |
| MissLaws.ReloadAgrees | deploy/symbolicator/gateway.py:56-142 | after a run without tears, reopening seed and file gives the same set iff for every identity that a payload reports missing and the registry did not know the file did not end within a line and the name does not start with white space |
| MissLaws.WhiteNameChanges | deploy/symbolicator/gateway.py:28-42 | a missing file whose name starts with white space comes back under another name |
| MissLaws.UnfinishedLineLoses | deploy/symbolicator/gateway.py:125-130 | behind an unfinished last line the new entry and the old one are both lost |
| PathPatterns.LiteralMatches | deploy/symbolicator/gateway.py:45-50 | a literal pattern matches one text only: the path with forward slashes |
| PathPatterns.MicrosoftPathPatterns | deploy/symbolicator/gateway.py:145-169 | either nothing is filtered, exactly for lack of modules or of an unknown module's path, or the patterns are exactly those of the unknown modules |
| Extends.Resolver.LayOver | scripts/phase1/deploy_check.py:414-420 | own settings over the base's, dictionaries joined |
| Extends.Resolver.One | scripts/phase1/deploy_check.py:401-422 | memoised resolution of a service equals plain recursion, failure included |
| Extends.Resolver.ResolveAll | scripts/phase1/deploy_check.py:396-426 | in any order of services: fails iff some service reaches an extends cycle, otherwise resolves every defined service as plain recursion does |
| Extends.PlainFailsOnCycles | scripts/phase1/deploy_check.py:404-413 | plain recursion fails iff the service reaches a cycle |
| Multipart.UploadParts | crashcap-ci/src/publisher.rs:118-146 | what is sent tiles the file from its start, all of it on success; success iff count, numbers and every answer fit; no offset or length leaves 64 bits |
| Multipart.EachByteOnce | crashcap-ci/src/publisher.rs:128-145 | every byte of a tiled file lies in exactly one range |
| Multipart.Upload | crashcap-ci/src/publisher.rs:55-77 | a receipt is written before the first file and after each one and counts its own rows; a failing file does not end the batch, a failing write does, and nothing is touched before the first write |
| Multipart.CountsAddUp | crashcap-ci/src/publisher.rs:63-74 | succeeded and failed add up to the rows written |

## Left out

- Pipeline.RunFrozen: the raw object prefix, the execution descriptor, staging and identifying the selected pairs, the schema check of the canonical JSON after assembly, and the files of a run are not modelled; any of them can still end the run.
- Pipeline.VerifyFrozen: digests, engine pins, time facts and embedded schemas are not compared; they decide whether a run starts, not what it may use. That source ids are not empty is the schema's demand, checked here because the schema is not modelled; a filter list that is no list of texts is refused here and excluded by the schema there.
- Pipeline.FrozenSourcesPlan: that every source has type `http` and a non-empty id is a hypothesis; the schema of the run demands both.
- Assembler.ValidateInputs: identities, engine version, Dump facts, capture profile and timestamps are not checked, only modules, sources and outcomes.
- FrozenRun.CanonicalInputs: identities, Dump facts and the resolution reference are copied there and do not occur here.
- AssembleLoops.AssembleChecked: the engine, process, Dump and crash fields of the result are copies of inputs and are not modelled; titles and messages are not either.
- FrameLaws.ScoresInRange: scores are exact real numbers; the rounding of 64-bit floating point is not modelled.
- Composition.Compose: takes the frozen inspection as verified; staging and identifying the selected pairs (`verify_pairs`) is not modelled, the staged images are an input.
- Transport.Execute: the address of the engine is not checked and replies are classified by status, size and JSON, not by bytes; a request body is an abstract value.
- Transport.SymbolicateLegacy: requests, scopes and pauses of the legacy client are not modelled, only its replies and the decisions made on them.
- SymbolMerge.ParseResult: who reads the listed module statuses (`module_debug_status`) is not modelled.
- StrictJson.StrictRead: the recursion limit of the JSON library is a parameter; `-0` and integers beyond 64 bits read as floats, which are refused.
- Minidump.InspectBytes: the printing of the time stamp is a parameter; error messages are not modelled.
- PeImage.ParseDebugDirectory: headers, section table and the mapping of addresses to file offsets are not modelled; the offset of the directory is an input.
- PdbSource.View: allocation failure is not modelled.
- MissRegistry.MissLog.RecordCompletedResponse: the file is UTF-8, and a line stands for what the JSON parser makes of it; the lock makes each call one step; case folding and character classes are parameters.
- PathPatterns.MicrosoftPathPatterns: a floating-point zero as path counts as present; the case-insensitive matching of patterns is not modelled.
- Extends.Resolver.One: values are immutable here, so deep copies and aliasing are not modelled.
- Multipart.UploadParts: HTTP, headers and the polling for verification are not modelled; an answer is a parameter per part.
- The role inference for modules without frozen role and the legacy match report are not part of this model.
- Stack walking, the PDB parser, schema text, command lines, storage, the frontend, migrations and calibration scripts are not part of this model.
- `core/src/artifact.rs`, the capacity gate and the rest of the deployment check are flat checks without loops or state of their own.
