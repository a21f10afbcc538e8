# Verified models of QXmpp's algorithmic core

QXmpp is a C++ library for XMPP. Most of its base library is stanza records; this project models the parts that
are algorithms, and proves what they promise:

- **Parallel hashing** (`HashAlgorithms`, `HashMachine`, `HashRuns`, `HashOutcome`, `HashGenerator`): one reader job and one hash job
  per algorithm work on two buffers; the job that decrements the counter to zero swaps the buffers. The thread pool is
  a nondeterministic scheduler: a run is any sequence of enabled events, each a step of one job, and an event carries
  the size of a read or the answer to "is it cancelled?". A digest is the free term "algorithm applied to these bytes".
  The class `HashGenerator` performs the same steps in place and is tied to the transition system method by method.
  What a call cannot decide for itself is an input, `Environment`: the failing pass of the fast path, and a `Pool` that
  proposes each next step with its read size, failure or cancellation. Results are stated as functions of it.
- **Session descriptions** (`Text`, `Hex`, `SdpParameters`, `JingleCandidate`, `Sdp`, `SdpReading`, `SdpRoundTrip`): the line-based
  parser and the printer for a Jingle content (RFC 4566 sections 5.14 and 6, RFC 5245 section 15.1, RFC 4572 section 5).
- **Fallback markers** (`Fallback`): removing and extracting marked ranges of a text (XEP-0428) and reading a reply's
  quotation (XEP-0461).
- **Public and sensitive message parts** (`SceMessage`, `SceReading`, `SceStanza`, `SceRoundTrip`, `SceParts`): one
  serializer and one parser that write and read a message whole or in two parts (XEP-0420). What is read is also stated
  about the list of elements alone. XML is a list of tagged elements with attributes.
- **Element tree** (`ElementHeap`, `ElementTree`, `ElementMirror`, `ElementRuns`): `QXmppElement` as a small memory manager with handles,
  parent links, child lists and counters on an explicit heap whose addresses are never reused.
- **Entity capabilities** (`EntityCaps`, `EntityCapsResults`, `EntityCapsXep`): the canonical string of XEP-0115 section
  5.1, compared with a specification of its own, stated about the information as it is written to XML.
- **Smaller algorithms**: result-set paging as a client and a server (`ResultSetPaging`, XEP-0059), the OMEMO envelope
  multimap (`OmemoElement`), archive dates as relative seconds (`ArchiveChat`), content ids (`ContentId`, XEP-0231).
  `Sorting` and `KeyOrder` state what an unstable sort may return; `Wrappers` holds shared types.

Code that updates objects or buffers in place is a class or a method with loops, proved equal to a function of its
inputs or of the old state; the properties are lemmas about those functions.

## Where the code falls short of the plain claim

Several promises hold only under a condition. Each condition below is proved to be exact.

- Hashing with no algorithms starts no job after the first round and never reports a result: runs end with one result
  if and only if there is an algorithm (`EveryRunEndsWithOneResult`).
- The fast path hashes the whole device, the generator what lies behind the device's position; the two agree if and only
  if the position is 0 (`SizeThresholdNeverChangesTheAnswer`).
- The 8-bit number parser compares with the signed maximum, so 128 to 255 channels are read back as 0; and the lines of
  a payload apply to every payload of its id, so payloads that share an id are restored only if they are equal
  (`SdpRoundTripIff`, predicates `RestorablePayload` and `SameIdsAgree`).
- The candidate comparison is a strict weak order on a list if and only if the list has no two differently ranked
  candidates of one type beside a candidate of a third type (`CandidateOrderIsWeakIff`); on other lists the sort in
  `toSdp` has no defined meaning.
- Removing nested fallback ranges makes covered text reappear, because each range overwrites the copy index
  (`NestedRangesAreUnsafe`); the text outside the union is returned if and only if the sorted ranges are `SafeFrom`.
- Extracting fallback text copies ranges unchecked; it stays inside the text if and only if a reference marks the whole
  text or every range is a slice of it (`ReadFallbackText`, predicate `IsReadable`).
- A child that outlives its parent keeps its parent link; an operation uses a deleted node if and only if it follows
  such a link (`FaultsIffFollowsDangling`), and that state is reachable (`OutlivingChildrenDangle`).
- Appending an element beneath itself makes a cycle, and only that does (`StepKeepsAcyclicIff`); after all handles are
  gone the heap is empty if and only if there is no cycle (`NoLeakIffAcyclic`), and a leak is reachable
  (`SelfAppendLeaks`).
- A form field without a value, such as an empty text, gets one separator more than XEP-0115 prescribes, and a form
  without a hidden FORM_TYPE field is not ignored; for well-formed information the string is one the specification
  allows if and only if neither occurs (`CapsStringIsXepStringIff`, `MissingValueFails`).
- Jingle message initiation and call invites are written with the sensitive part but read with the public part only, so
  they become unknown extensions when the parts are read separately (`SplittingIsLosslessIff`).
- Against a server that leaves out the count, the paging client requests the first page forever (`PagingEndsIff`).
- An OMEMO element is read back with each recipient's envelopes reversed, so a search changes its answer if and only if
  the first and the last envelope of a device differ (`SearchSurvivesIff`).
- Archive dates survive if and only if all gaps are whole seconds that fit in 32 bits (`DatesAreExactIff`).

## Model

| member | source | states |
|---|---|---|
| HashAlgorithms.SecureAlgorithmsAreSupported | src/base/QXmppHashing.cpp:78-137 | every algorithm the strength filter lets through converts to a backend algorithm, so the supported-algorithm assertion cannot fail |
| HashAlgorithms.BackendConversionRoundTrip | src/base/QXmppHashing.cpp:30-114 | converting to the backend's enumeration and back is the identity wherever it is defined |
| HashAlgorithms.PriorityOrder | src/base/QXmppHashing.cpp:116-174 | priorities never tie, and every secure algorithm ranks above every insecure one |
| HashAlgorithms.SecurityIsModernity | src/base/QXmppHashing.cpp:116-174 | secure are exactly SHA-2, SHA-3 and BLAKE2; among them SHA-3 and BLAKE2 come before SHA-2, then longer digests first, then BLAKE2 before SHA-3 |
| HashAlgorithms.ConversionsKeepTheKind | src/base/QXmppHashing.cpp:30-114 | the conversions pair exactly the algorithms of equal family and digest size |
| HashAlgorithms.PriorityIsRank | src/base/QXmppHashing.cpp:145-174 | the priority of an algorithm is its place in the ranking, weakest first |
| HashMachine.InitKeepsInv | src/base/QXmppHashing.cpp:293-321 | the state after construction satisfies the invariant, for any non-zero buffer capacities |
| HashMachine.StepKeepsInv | src/base/QXmppHashing.cpp:323-436 | every step of the reader or of a hash job keeps the invariant: counter, buffers, device ownership, bytes consumed, result |
| HashMachine.FeedingConsumes | src/base/QXmppHashing.cpp:427-436 | feeding any chunk of the process buffer extends what that processor consumed by exactly the next bytes of the device |
| HashMachine.FinishReportsExpected | src/base/QXmppHashing.cpp:386-395 | when reading has finished and no job is left, the reported list is every algorithm over all bytes from the start position |
| HashMachine.SwapKeepsData | src/base/QXmppHashing.cpp:345-367 | swapping the buffers neither skips nor repeats a byte for any processor |
| HashRuns.RunKeepsInv | src/base/QXmppHashing.cpp:293-436 | the invariant holds after every run |
| HashRuns.ReportedHashesAreExact | src/base/QXmppHashing.cpp:323-436 | in every interleaving and for every chunking of reads, reported hashes cover exactly the device's bytes, in algorithm order |
| HashRuns.HashedBytesAreAPrefix | src/base/QXmppHashing.cpp:409-436 | at any moment each hash job has consumed a prefix of the bytes read so far, in order |
| HashRuns.CounterIsOutstandingJobs | src/base/QXmppHashing.cpp:351-378 | the running-jobs counter equals the outstanding jobs, and at most one result is ever reported |
| HashRuns.DeviceIsNeverTouchedAfterMove | src/base/QXmppHashing.cpp:323-425 | the device is dereferenced, or a result made, only while the generator still owns it, also when a read error meets running hash jobs |
| HashRuns.BuffersAreNeverShared | src/base/QXmppHashing.cpp:348-378 | the process buffer changes only in the swap by the last job, the read buffer only by the reader or that swap, and then no other job is outstanding |
| HashRuns.StepDecreasesMeasure | src/base/QXmppHashing.cpp:323-436 | every step of a run on a device that delivers bytes until its end decreases a natural-number measure |
| HashRuns.RunsAreBounded | src/base/QXmppHashing.cpp:323-436 | no such run is longer than the measure of its first state |
| HashRuns.OutstandingJobsCanStep | src/base/QXmppHashing.cpp:409-436 | no reachable state with an outstanding job is stuck: some job has a step that neither fails nor is cancelled |
| HashRuns.QuiescentMeansReported | src/base/QXmppHashing.cpp:323-395 | a run with an algorithm that has come to rest has deleted the generator and reported exactly one result |
| HashRuns.NoAlgorithmsStall | src/base/QXmppHashing.cpp:352-367 | without algorithms a run ends with nothing reported and nothing enabled |
| HashRuns.EveryRunEndsWithOneResult | src/base/QXmppHashing.cpp:293-395 | runs are bounded, and all of them end with exactly one result if and only if there is at least one algorithm |
| HashOutcomes.OutcomeIsDetermined | src/base/QXmppHashing.cpp:323-425 | a run at rest has reported the read error if a read failed, otherwise the cancellation if the question was asked and answered yes, otherwise the hashes of all bytes |
| HashOutcomes.CalmRunsSucceed | src/base/QXmppHashing.cpp:293-436 | a run at rest in which no read failed and no answer was "cancelled" has reported exactly the expected hashes |
| HashOutcomes.CancelHasCause | src/base/QXmppHashing.cpp:339-343 | a cancellation goes back to a job that was told so |
| HashOutcomes.PoolOutcome | src/base/QXmppHashing.cpp:293-436 | whatever the pool does, the generator comes to rest with its outcome, which is no read error if no read fails and no cancellation if nobody cancels |
| HashOutcomes.EveryRunIsScheduled | src/base/QXmppHashing.cpp:293-436 | every complete run is the run of a pool that proposes its steps, so statements about all pools cover all interleavings |
| HashGenerators.HashGenerator.constructor | src/base/QXmppHashing.cpp:293-321 | the new object is the initial state for the capacities chosen from the device's size |
| HashGenerators.HashGenerator.StartNextIteration | src/base/QXmppHashing.cpp:323-368 | error, end, cancellation and next round, in that order, tied to the transition |
| HashGenerators.HashGenerator.ReportJobFinished | src/base/QXmppHashing.cpp:370-378 | one decrement; the last job starts the next iteration |
| HashGenerators.HashGenerator.ReportBufferReadError | src/base/QXmppHashing.cpp:380-384 | records the error and reports it, moving the device |
| HashGenerators.HashGenerator.Finish | src/base/QXmppHashing.cpp:386-395 | reports one hash per processor, in order |
| HashGenerators.HashGenerator.Perform | src/base/QXmppHashing.cpp:409-436 | each step of either job changes the object as the transition system says |
| HashGenerators.HashGenerator.Run | src/base/QXmppHashing.cpp:293-436 | run by any pool, the object stops having reported exactly the outcome of that pool's run |
| HashGenerators.CalculateHashesSync | src/base/QXmppHashing.cpp:196-213 | the fast path gives every algorithm over the whole device, or the read error of the first failing pass |
| HashGenerators.HashingOutcomeIs | src/base/QXmppHashing.cpp:256-291 | hashes are those of the bytes the chosen path reads; without failure and cancellation there are hashes; a read error or cancellation has its cause in the environment, and the fast path is never cancelled |
| HashGenerators.SizesOfPathsAndBuffers | src/base/QXmppHashing.cpp:25-27 | the fast path takes devices of at most 32 KiB for all algorithms together; buffers hold 512 KiB, or the whole device up to 1 MiB |
| HashGenerators.CalculateHashes | src/base/QXmppHashing.cpp:256-291 | not readable exactly for such devices, else the outcome of the chosen path; without failure and cancellation the hash list, and on a device at position 0 the same list on both paths |
| HashGenerators.SizeThresholdNeverChangesTheAnswer | src/base/QXmppHashing.cpp:281-290 | a completed run without failure or cancellation has reported the fast path's outcome if and only if the device started at position 0 |
| HashGenerators.EraseInvalid | src/base/QXmppHashing.cpp:456-460 | keeps exactly the hashes that are not empty and of a SHA-2, SHA-3 or BLAKE2 algorithm |
| HashGenerators.LastIsStrongest | src/base/QXmppHashing.cpp:466-470 | the last of the kept hashes, sorted in any way, is usable, and no usable hash has a preferred algorithm |
| HashGenerators.VerifyHashes | src/base/QXmppHashing.cpp:454-498 | NoStrongHashes exactly when every hash is empty or of another family than SHA-2, SHA-3 and BLAKE2; otherwise one with the most preferred algorithm is used, and the answer is Verified or NotMatching exactly when hashing completes and its digest does or does not match, cancelled or an error exactly when hashing is |
| Hex.HexRoundTrip | src/base/QXmppJingleData.cpp:129-147 | reading hex digits of either case gives the bytes back |
| Hex.FormatFingerprint | src/base/QXmppJingleData.cpp:129-140 | the loop prints colon-separated upper-case byte pairs |
| Hex.FingerprintRoundTrip | src/base/QXmppJingleData.cpp:129-147 | parsing a formatted fingerprint gives the digest back, for every byte string |
| Hex.FingerprintCharacters | src/base/QXmppJingleData.cpp:129-140 | a fingerprint consists of hex digits and colons and is empty only for an empty digest |
| Hex.FingerprintAt | src/base/QXmppJingleData.cpp:129-140 | three characters a byte: its two upper-case digits, and a colon before the next byte |
| Hex.FingerprintIsHex | src/base/QXmppJingleData.cpp:142-147 | a fingerprint is read as the bytes of its hex digits, whatever stands between them |
| Hex.HexDigitIff | src/base/QXmppJingleData.cpp:146 | a digit's value is its place among the sixteen, in either case, and no other character has that value |
| Text.NumberRoundTrip | src/base/QXmppJingleData.cpp:165-179 | a printed decimal number is read back |
| Text.NumberInBlanks | src/base/QXmppJingleData.cpp:166-174 | blanks, an optional sign, digits, blanks: the number |
| Text.NumbersAreDigits | src/base/QXmppJingleData.cpp:166-174 | no other text is a number |
| Text.NumberIsCanonical | src/base/QXmppJingleData.cpp:192-199 | a printed number has no superfluous zero, and a sign only if it is negative |
| Text.ConversionsOfText | src/base/QXmppJingleData.cpp:831-847 | the 32-bit and 8-bit conversions give the number where it fits, the 8-bit one up to 127 only, and otherwise nothing or 0 |
| Text.SplitJoin | src/base/QXmppJingleData.cpp:160 | splitting undoes joining for parts without the separator |
| Text.JoinSplit | src/base/QXmppJingleData.cpp:776 | joining undoes splitting |
| JingleCandidates.CandidateParseSdp | src/base/QXmppJingleData.cpp:154-186 | the attribute loop accepts and yields exactly what the specification function does |
| JingleCandidates.CandidateRoundTrip | src/base/QXmppJingleData.cpp:154-199 | a candidate is restored by printing and parsing if and only if it is printable: no blanks in foundation, protocol and address, lower-case protocol, no id, no network |
| JingleCandidates.ParsedIsPrintable | src/base/QXmppJingleData.cpp:154-186 | whatever the parser accepts can be printed and parsed again |
| JingleCandidates.CandidateIsRead | src/base/QXmppJingleData.cpp:154-186 | six words give the fixed fields; the pairs behind them are accepted exactly if each is a generation or a known type, the last of each counts, and a single word left over is ignored |
| JingleCandidates.TypeNames | src/base/QXmppJingleData.cpp:173-178 | the four type names, and no other word, are types |
| JingleCandidates.LowerCaseIs | src/base/QXmppJingleData.cpp:167 | the protocol is lowered letter by letter |
| JingleCandidates.CandidateOrderIsPartial | src/base/QXmppJingleData.cpp:889-896 | the comparison is irreflexive, asymmetric and transitive |
| JingleCandidates.CandidateOrderIsWeakIff | src/base/QXmppJingleData.cpp:889-896 | it is a strict weak order on a list if and only if no clash occurs in the list |
| JingleCandidates.OneOtherTypeIsSortable | src/base/QXmppJingleData.cpp:889-904 | lists with at most one type besides server-reflexive can be sorted |
| JingleCandidates.DefaultCandidate | src/base/QXmppJingleData.cpp:903-911 | the chosen candidate is an RTP candidate of highest priority among its type, server-reflexive if there is one; none only without RTP candidates |
| SdpParameters.ParamsRoundTrip | src/base/QXmppJingleData.cpp:805-821 | a parameter map survives printing and parsing if and only if no key or value holds a delimiter and no key but the first starts with a blank |
| SdpParameters.LastPieceCounts | src/base/QXmppJingleData.cpp:810-820 | the parameters are a map whose value for a key is that of the last piece key=value; other pieces are skipped |
| SdpParameters.PiecesEndAtSemicolons | src/base/QXmppJingleData.cpp:810-811 | a piece ends at a semicolon, and the blanks behind it belong to no piece |
| SdpParameters.InsertIsUpdate | src/base/QXmppJingleData.cpp:815 | setting a key changes no other and keeps the map ordered |
| SdpReading.AttributeIsSplit | src/base/QXmppJingleData.cpp:780-783 | an attribute line is taken apart at its first colon |
| SdpReading.TextsAreRead | src/base/QXmppJingleData.cpp:849-854 | user, password and setup are the text behind the colon |
| SdpReading.FingerprintIsRead | src/base/QXmppJingleData.cpp:792-797 | hash name and hex bytes of the next word; without a blank nothing |
| SdpReading.SsrcIsRead | src/base/QXmppJingleData.cpp:855-862 | the first word as a 64-bit number cut to 32 bits, or 0 |
| SdpReading.CandidateLineIsRead | src/base/QXmppJingleData.cpp:785-791 | the candidate is added and the ICE transport chosen, or the line is refused |
| SdpReading.RtpmapIsRead | src/base/QXmppJingleData.cpp:824-848 | name, rate and channels of exactly the payload types of that id; an id that is no number says nothing |
| SdpReading.OtherRtpmapsSayNothing | src/base/QXmppJingleData.cpp:826-829 | another count of blanks says nothing |
| SdpReading.FmtpIsRead | src/base/QXmppJingleData.cpp:798-823 | the parameters of exactly the payload types of that id are replaced, for telephone events by their one entry; without a blank the line is refused |
| SdpReading.MediaLineIsRead | src/base/QXmppJingleData.cpp:864-882 | the medium, and a payload type with one channel for every number from the fourth word on; fewer than three words are refused |
| SdpReading.OthersSayNothing | src/base/QXmppJingleData.cpp:779-864 | attributes of other names and lines of other kinds change nothing |
| SdpReading.LineEndsDoNotMatter | src/base/QXmppJingleData.cpp:776-778 | a carriage return before the line feed changes nothing |
| SdpReading.RefusedLineEndsTheParse | src/base/QXmppJingleData.cpp:773-887 | the first refused line ends the parse with what the lines before it said |
| SdpReading.PayloadsAreReplacedOnSuccess | src/base/QXmppJingleData.cpp:885 | a refused description changes no payload type, an accepted one replaces them all |
| SdpReading.TransportKeys | src/base/QXmppJingleData.cpp:948-963 | a line per candidate, and user, password, fingerprint and setup lines exactly where they have something to say |
| SdpReading.PayloadKeys | src/base/QXmppJingleData.cpp:918-942 | an rtpmap line with channels only above one, and an fmtp line exactly where there are parameters |
| Sdp.JingleContent.UpdateRtpmap | src/base/QXmppJingleData.cpp:836-847 | the loop updates every payload of that id and no other |
| Sdp.JingleContent.UpdateFmtp | src/base/QXmppJingleData.cpp:804-823 | the nested loops set the parameters of every payload of that id and of no other |
| Sdp.JingleContent.MediaPayloads | src/base/QXmppJingleData.cpp:871-881 | one fresh payload per number, other words skipped |
| Sdp.JingleContent.ParseAttribute | src/base/QXmppJingleData.cpp:780-861 | one attribute line changes the object as the specification says; a rejected line changes nothing |
| Sdp.JingleContent.ParseSdp | src/base/QXmppJingleData.cpp:773-887 | the line loop, including early rejection, equals the specification parser |
| Sdp.JingleContent.PrintPayload | src/base/QXmppJingleData.cpp:918-942 | the rtpmap line and, if there are parameters, the fmtp line of one payload |
| Sdp.JingleContent.PrintTransport | src/base/QXmppJingleData.cpp:948-963 | the transport lines, in order, optional ones only when set |
| Sdp.JingleContent.ChooseDefault | src/base/QXmppJingleData.cpp:900-911 | address and port of the default candidate, or the any-address and port 0 |
| Sdp.JingleContent.ToSdp | src/base/QXmppJingleData.cpp:898-966 | the printed text is the description for the address and port of the default candidate; where media and address hold no blank, its second line reads, word by word, IN, IP6 exactly with a colon in the address and else IP4, and that address, and the port is the second word of the first line |
| Sdp.AddressIsNamed | src/base/QXmppJingleData.cpp:149-152 | a reader of the first two lines finds the address, its kind and the port |
| SdpRoundTrip.Reparse | src/base/QXmppJingleData.cpp:773-966 | what parsing a printed content into a fresh one yields, field by field |
| SdpRoundTrip.ParsedIsLineSafe | src/base/QXmppJingleData.cpp:773-887 | no text whatever makes the parser produce a field with a character that would end it early |
| SdpRoundTrip.PayloadRoundTrip | src/base/QXmppJingleData.cpp:835-848 | a payload is read back unchanged if and only if it has 1 to 127 channels and restorable parameters |
| SdpRoundTrip.SdpRoundTripIff | src/base/QXmppJingleData.cpp:773-966 | printing and parsing into a fresh content restores it if and only if it is restorable |
| SdpRoundTrip.PayloadsReadBack | src/base/QXmppJingleData.cpp:804-847 | what the payload lines make of a payload list is that list if and only if equal ids mean equal payloads and each payload is restorable |
| Fallback.CollectOfMarker | src/base/QXmppMessage.cpp:1356-1364 | the references of one marker to the element, with the early exit for a reference without range |
| Fallback.CollectRanges | src/base/QXmppMessage.cpp:1348-1365 | the ranges of all markers of the wanted namespaces, or the early exit |
| Fallback.RelevantIff | src/base/QXmppMessage.cpp:1348-1365 | the references that count are those to the element in a marker of a wanted namespace |
| Fallback.RemoveRanges | src/base/QXmppMessage.cpp:1371-1390 | what the copy loop returns for ranges in a given order |
| Fallback.HonouredRange | src/base/QXmppMessage.cpp:1373-1386 | one range is cut out exactly when it starts in the text and ends in it behind its first character; otherwise nothing is |
| Fallback.ReadFallbackRemovedText | src/base/QXmppMessage.cpp:1346-1393 | read on the body or on the subject as asked: empty if a reference marks everything; otherwise the kept text for some sorted order, and exactly the text outside the union if every order is safe |
| Fallback.SafeOrderRemovesTheUnion | src/base/QXmppMessage.cpp:1371-1390 | in a safe order the loop returns exactly the characters outside the union of the in-bounds ranges, in order |
| Fallback.RemovedTextIsOutsideIff | src/base/QXmppMessage.cpp:1367-1390 | it does so for all texts of a length if and only if the sorted ranges are safe for that length |
| Fallback.OrderedEndsAreSafe | src/base/QXmppMessage.cpp:1373-1386 | ranges that are not reversed and whose ends do not decrease are safe |
| Fallback.StartOrderIsAlwaysSafe | src/base/QXmppMessage.cpp:1367-1390 | if among the honoured ranges starting first implies ending first, every sorted order is safe |
| Fallback.MarkerOrderDoesNotMatter | src/base/QXmppMessage.cpp:1346-1393 | then the removed text is the same for any order of the markers and for repeated ones |
| Fallback.NestedRangesAreUnsafe | src/base/QXmppMessage.cpp:1385 | a nested range makes text reappear that the outer range covers |
| Fallback.CopyRanges | src/base/QXmppMessage.cpp:1429-1433 | defined exactly for ranges inside the text; then the marked slices, concatenated in order |
| Fallback.ReadFallbackText | src/base/QXmppMessage.cpp:1403-1434 | defined exactly if a reference marks everything or all ranges are slices of the body or subject asked for; then that whole text, or the slices sorted by start |
| Fallback.RemovedAndMarkedPartition | src/base/QXmppMessage.cpp:1346-1434 | for disjoint, non-empty ranges in the text, removed and marked text have lengths that add up and interleave to the text |
| Fallback.ReadReplyQuoteFromBody | src/base/QXmppMessage.cpp:1551-1564 | defined exactly when the reply fallback text of the body is; then that text with the quotation mark taken off each line |
| Fallback.QuotedLinesAreRestored | src/base/QXmppMessage.cpp:1551-1564 | a quotation whose lines are all quoted is read back as the original lines |
| Fallback.QuotedLinesWithFinalBreak | src/base/QXmppMessage.cpp:1551-1564 | the same for a quotation that ends with a line break |
| Fallback.PlainLinesAreKept | src/base/QXmppMessage.cpp:1551-1564 | lines that are not quoted come back unchanged |
| SceStanza.QXmppMessage.ParseAll | src/base/QXmppMessage.cpp:1627-1641 | the loop over child elements with its list of unknown ones equals the specification parser, and what it leaves is the reading of the list described next |
| SceReading.ReadingIsParsing | src/base/QXmppMessage.cpp:1627-1898 | every field is told by the elements of its kind alone: the last one for single values, all in order for lists, any for flags, unknown elements kept in order, errors and addresses skipped; the message read is the only one so described |
| SceReading.OneElement | src/base/QXmppMessage.cpp:1657-1898 | one element changes the fields of its kind and no other |
| SceReading.DelayBeatsLegacy | src/base/QXmppMessage.cpp:1734-1806 | the time of the last delay element, if readable, counts before and after any legacy elements |
| SceReading.FirstLegacyCounts | src/base/QXmppMessage.cpp:1734-1749 | without delay elements and without an earlier time, the first legacy element counts if it is readable |
| SceStanza.QXmppMessage.SerializeExtensions | src/base/QXmppMessage.cpp:1911-2118 | the output for each mode: fallback body, public, sensitive, fallback markers |
| SceStanza.QXmppMessage.WritePublic | src/base/QXmppMessage.cpp:1914-1967 | the public elements, written section by section |
| SceStanza.QXmppMessage.WriteSensitive | src/base/QXmppMessage.cpp:1969-2110 | the sensitive elements, the call elements among them |
| SceMessage.ExtensionsAreIgnored | src/base/QXmppMessage.cpp:1657-1898 | reading one element neither looks at nor changes the list of unknown elements |
| SceMessage.FreshIsWrittenAsNothing | src/base/QXmppMessage.cpp:1911-2118 | nothing is written for what is not set, in any mode |
| SceMessage.CoreNamespace | src/base/QXmppMessage.cpp:1969-1986 | subject, body and thread carry the namespace of the stanza |
| SceRoundTrip.ReadPublicEls | src/base/QXmppMessage.cpp:1659-1718 | the written public elements restore the public fields and touch nothing else, in either mode that reads them |
| SceParts.ReadSensitiveEls | src/base/QXmppMessage.cpp:1719-1888 | the written sensitive elements restore the sensitive fields; call elements become known or unknown depending on the mode |
| SceParts.WholeRoundTrip | src/base/QXmppMessage.cpp:1627-2118 | a message written whole is read back, up to fields that are not written because the element they qualify is absent |
| SceParts.PublicPartRoundTrip | src/base/QXmppMessage.cpp:1657-1718 | reading the public part fills the public fields, the fallback body and the markers, and nothing else |
| SceParts.SensitivePartRoundTrip | src/base/QXmppMessage.cpp:1719-1898 | reading the sensitive part completes an object without sensitive fields |
| SceParts.TwoPartsGive | src/base/QXmppMessage.cpp:1657-2118 | reading the two parts gives the fields of the whole, with the fallback body kept, markers twice and call elements unknown |
| SceParts.SplittingIsLosslessIff | src/base/QXmppMessage.cpp:2074 | with the public markers dropped in between, two parts and whole agree if and only if there is no Jingle message initiation and no call invite |
| SceParts.WholeIsPublicThenSensitive | src/base/QXmppMessage.cpp:1911-2118 | the whole output is the public output without fallback body and markers, followed by the sensitive output |
| SceParts.PublicPartHidesTheRest | src/base/QXmppMessage.cpp:1914-1967 | the public output does not depend on any sensitive field |
| ElementHeap.ReleaseKeepsInv | src/base/QXmppElement.cpp:69-76 | dropping a reference, with all deletions it causes, keeps the heap invariant with one reference less |
| ElementHeap.DeleteKeepsInv | src/base/QXmppElement.cpp:69-76 | deleting a node turns the references its child list held into loose ones |
| ElementHeap.ElementStore.DecrementCounter | src/base/QXmppElement.cpp:115-120 | decrements, and deletes at zero, exactly as the release function says |
| ElementHeap.ElementStore.DeleteNode | src/base/QXmppElement.cpp:69-76 | the destructor's loop over the children |
| ElementHeap.ElementStore.BuildNode | src/base/QXmppElement.cpp:35-67 | the recursive constructor builds the nodes of a DOM element, children linked in order |
| ElementHeap.ElementStore.ParseElement | src/base/QXmppElement.cpp:110-113 | a handle to the nodes built from a DOM element |
| ElementHeap.ElementStore.CopyElement | src/base/QXmppElement.cpp:95-99 | a copy is one more handle and one more reference |
| ElementHeap.ElementStore.AssignElement | src/base/QXmppElement.cpp:125-136 | takes the new reference before dropping the old one; self-assignment changes nothing |
| ElementHeap.ElementStore.DestroyElement | src/base/QXmppElement.cpp:115-120 | drops the handle's reference |
| ElementHeap.ElementStore.AppendTo | src/base/QXmppElement.cpp:190-203 | moves the child, or adds it with one more reference; nothing if it already is a child |
| ElementHeap.ElementStore.RemoveFrom | src/base/QXmppElement.cpp:248-257 | unlinks the child with one reference less; nothing if it is not a child |
| ElementHeap.ElementStore.FirstChildOf | src/base/QXmppElement.cpp:209-217 | a handle to the first child of the name, or to a new element |
| ElementHeap.ElementStore.NextSiblingOf | src/base/QXmppElement.cpp:223-235 | the same among the siblings after the element |
| ElementTree.BuildKeepsInv | src/base/QXmppElement.cpp:35-67 | building from a DOM element keeps the invariant and leaves all other nodes as they are |
| ElementMirror.BuildMirrors | src/base/QXmppElement.cpp:35-67 | the node built shows the name, text, attributes and, recursively and in order, the children of its DOM element; earlier nodes are unchanged |
| ElementMirror.ParsedMirrorsDom | src/base/QXmppElement.cpp:110-113 | so does the element object made from it |
| ElementMirror.FirstChildIsFirst | src/base/QXmppElement.cpp:209-217 | the child found is the first of that name, any child for an empty name; without one the handle is to a new nameless element |
| ElementMirror.NextSiblingIsNext | src/base/QXmppElement.cpp:223-235 | the sibling found is the first of that name after the element |
| ElementMirror.RemovingKeepsOrder | src/base/QXmppElement.cpp:248-257 | a removed child leaves the others in their order |
| ElementTree.AppendKeepsInv | src/base/QXmppElement.cpp:190-203 | appending keeps the invariant unless it follows a dangling parent link |
| ElementTree.RemoveKeepsInv | src/base/QXmppElement.cpp:248-257 | removing keeps the invariant |
| ElementTree.StepKeepsInv | src/base/QXmppElement.cpp:87-257 | every operation that follows no dangling parent link keeps the invariant |
| ElementRuns.RunKeepsInv | src/base/QXmppElement.cpp:69-257 | so does every run of them |
| ElementRuns.CountersAreExact | src/base/QXmppElement.cpp:69-257 | after every run each live node's counter is its handles plus one if a live node lists it, and positive |
| ElementRuns.NodesAreDeletedOnce | src/base/QXmppElement.cpp:69-136 | after every run no handle dangles, no deleted node was used, and every node is live or was deleted once |
| ElementRuns.FaultsIffFollowsDangling | src/base/QXmppElement.cpp:190-235 | an operation uses a deleted node if and only if it follows the stale parent link of an outliving child |
| ElementRuns.OutlivingChildrenDangle | src/base/QXmppElement.cpp:69-76 | such a stale link is reachable: destroy a parent whose child is still in use |
| ElementRuns.SelfAppendLeaks | src/base/QXmppElement.cpp:190-203 | a leak is reachable: an element appended to itself outlives its last handle |
| ElementRuns.ReleaseKeepsSurvivors | src/base/QXmppElement.cpp:69-76 | a release changes nothing but counters of the nodes that stay |
| ElementRuns.StepKeepsAcyclicIff | src/base/QXmppElement.cpp:190-203 | an operation makes a cycle if and only if it appends an element beneath itself |
| ElementRuns.LiveNodesAreTheReachableOnes | src/base/QXmppElement.cpp:69-257 | after every run without such an append the live nodes are exactly those reachable from a handle |
| ElementRuns.NoLeakIffAcyclic | src/base/QXmppElement.cpp:69-120 | once all handles are destroyed the heap is empty if and only if there is no cycle |
| EntityCaps.IdentityOrderIsWeak | src/base/QXmppDiscoveryIq.cpp:20-24 | the tuple comparison is a strict weak order, so the sort is defined |
| EntityCaps.FeaturesAgree | src/base/QXmppDiscoveryIq.cpp:146-149 | sorted features without duplicates depend only on the set of features |
| EntityCapsResults.CapsStringIsOrderIndependent | src/base/QXmppDiscoveryIq.cpp:134-186 | the string is the same for every order of identities, features, forms, fields and values and for repeated features, given distinct form types and field keys |
| EntityCapsXep.CapsStringIsXepStringIff | src/base/QXmppDiscoveryIq.cpp:134-185 | whatever the sorts do, the string built is one XEP-0115 allows (section 5.1; untyped forms ignored as in 5.4) if and only if every form is written with a type and every other field with a value |
| EntityCapsXep.FieldTextVersusXep | src/base/QXmppDiscoveryIq.cpp:170-182 | a field's text is the specified one, with one separator more if the field is written without a value |
| EntityCapsXep.MissingValueFails | src/base/QXmppDiscoveryIq.cpp:172-180 | a field with an empty text, no value or an empty list is printed with one separator too many |
| EntityCapsXep.FormTypeIsTheType | src/base/QXmppDiscoveryIq.cpp:162 | the type printed is the value the form's hidden FORM_TYPE field is written with, and nothing if there is none |
| EntityCapsXep.OrdersAgree | src/base/QXmppDiscoveryIq.cpp:20-24 | the tuple comparison is the order by category, then type, then language, then name |
| EntityCapsXep.CodeFeatures | src/base/QXmppDiscoveryIq.cpp:146-153 | the features printed are every feature once, in strictly increasing order |
| EntityCapsXep.IdentityTextIsTheParts | src/base/QXmppDiscoveryIq.cpp:143 | an identity is printed as category, type, language and name, in that order, joined by slashes and ended by the separator |
| EntityCapsResults.OnlyOneFormsText | src/base/QXmppDiscoveryIq.cpp:155-183 | whatever the unstable sorts do, only one text can be built |
| EntityCapsResults.AppendField | src/base/QXmppDiscoveryIq.cpp:170-182 | what one field appends; the form type field appends nothing |
| EntityCapsResults.AppendFeatures | src/base/QXmppDiscoveryIq.cpp:146-153 | the features loop appends the canonical features text |
| EntityCapsResults.CalculateEntityCapabilitiesString | src/base/QXmppDiscoveryIq.cpp:134-183 | the nested loops build a text the sorts allow, and the canonical string when keys are distinct |
| ResultSetPaging.XmppClient.ClientConnected | examples/example_7_archiveHandling/example_7_archiveHandling.cpp:60-69 | asks for no items: whatever the archive, the answer carries nothing but its count |
| ResultSetPaging.XmppClient.ArchiveListReceived | examples/example_7_archiveHandling/example_7_archiveHandling.cpp:71-112 | state and next request after an answer, branch by branch: no request exactly for an answer without items or one without result-set data, and every item of a later answer is seen |
| ResultSetPaging.RunSession | examples/example_7_archiveHandling/example_7_archiveHandling.cpp:60-112 | connected to a server that reports its count, the client object sees every item in the promised order and stops after ceil(n/p) + 2 requests |
| ResultSetPaging.PagingVisitsTheArchive | examples/example_7_archiveHandling/example_7_archiveHandling.cpp:60-112 | against a server that reports its count, the client sees the archive, in order forwards and page by page from the end backwards, with ceil(n/p) + 2 requests |
| ResultSetPaging.PagingStopsExactly | examples/example_7_archiveHandling/example_7_archiveHandling.cpp:71-112 | a request is pending before that many answers and none from then on |
| ResultSetPaging.EveryItemIsSeenOnce | examples/example_7_archiveHandling/example_7_archiveHandling.cpp:90-106 | every item is seen exactly once, in either direction |
| ResultSetPaging.WithoutCountNothingIsSeen | examples/example_7_archiveHandling/example_7_archiveHandling.cpp:73-84 | without a reported count the first page is requested again after every answer and nothing is seen |
| ResultSetPaging.PagingEndsIff | examples/example_7_archiveHandling/example_7_archiveHandling.cpp:71-112 | paging comes to an end if and only if the server reports its count |
| OmemoElements.QXmppOmemoElement.AddEnvelope | src/base/QXmppOmemoDataBase.cpp:218-221 | the envelope goes before the others of its bare recipient |
| OmemoElements.BareJidOfFull | src/base/QXmppUtils.cpp:195-202 | a full JID gives exactly what precedes its first slash |
| OmemoElements.AddedForFullJid | src/base/QXmppOmemoDataBase.cpp:218-221 | an envelope added for a full JID is what a search under the bare JID finds for its device, and no other search changes |
| OmemoElements.EnvelopeIsRead | src/base/QXmppOmemoDataBase.cpp:100-110 | "true" and "1" mark key exchange and nothing else does; the device is the number in the text, or 0 |
| OmemoElements.EnvelopeIsWritten | src/base/QXmppOmemoDataBase.cpp:112-120 | the key exchange mark is written only where it is used, and the device number reads back |
| OmemoElements.QXmppOmemoElement.SearchEnvelope | src/base/QXmppOmemoDataBase.cpp:194-206 | the first envelope of the recipient for that device, if any |
| OmemoElements.QXmppOmemoElement.Parse | src/base/QXmppOmemoDataBase.cpp:223-240 | the nested loops add every key in document order |
| OmemoElements.QXmppOmemoElement.UniqueKeys | src/base/QXmppOmemoDataBase.cpp:251 | each recipient once, sorted |
| OmemoElements.QXmppOmemoElement.ToXml | src/base/QXmppOmemoDataBase.cpp:242-269 | sender, recipients in sorted order with all their envelopes, payload |
| OmemoElements.ElementRoundTrip | src/base/QXmppOmemoDataBase.cpp:218-269 | a written element is read back with each recipient's envelopes reversed and the same multiset |
| OmemoElements.TwoRoundTripsAreIdentity | src/base/QXmppOmemoDataBase.cpp:218-269 | two round trips give the element back |
| OmemoElements.SearchSurvivesIff | src/base/QXmppOmemoDataBase.cpp:194-269 | a search answers the same after a round trip if and only if the first and the last envelope for the device are equal |
| OmemoElements.UniqueDevicesSurvive | src/base/QXmppOmemoDataBase.cpp:194-269 | with at most one envelope per recipient and device a round trip changes no search |
| OmemoElements.SecondEnvelopeIsLost | src/base/QXmppOmemoDataBase.cpp:194-221 | a second, different envelope for a device is found before the round trip and hidden after it |
| ArchiveChats.QXmppArchiveChat.Parse | src/base/QXmppArchiveIq.cpp:65-85 | the accumulating loop appends the messages the specification gives to those already held |
| ArchiveChats.QXmppArchiveChat.Write | src/base/QXmppArchiveIq.cpp:87-113 | each message carries the whole seconds since the one before |
| ArchiveChats.ChatRoundTrip | src/base/QXmppArchiveIq.cpp:65-113 | a written chat is read back with every field, and with the dates RestoredDate gives |
| ArchiveChats.DatesAreExactIff | src/base/QXmppArchiveIq.cpp:65-113 | all dates are restored if and only if every gap is a whole number of seconds that fits in 32 bits |
| ArchiveChats.DriftIsBounded | src/base/QXmppArchiveIq.cpp:73-109 | the i-th date is off by at most 999 i milliseconds, and never late when dates do not decrease |
| ArchiveChats.OrderIsKept | src/base/QXmppArchiveIq.cpp:73-109 | non-decreasing dates are restored in non-decreasing order |
| ArchiveChats.RestoredIsStable | src/base/QXmppArchiveIq.cpp:65-113 | a second round trip changes nothing more |
| ArchiveChats.DriftBoundIsTight | src/base/QXmppArchiveIq.cpp:104 | the bound is reached |
| ContentIds.ContentIdRoundTripIff | src/base/QXmppBitsOfBinary.cpp:360-426 | an id is read back from its text if and only if it is valid or is the empty id |
| ContentIds.CidUrlRoundTripIff | src/base/QXmppBitsOfBinary.cpp:339-438 | the same for cid URLs, which are recognised as such |
| ContentIds.FormsAreNotConfused | src/base/QXmppBitsOfBinary.cpp:339-364 | neither form is read as the other |
| ContentIds.ContentIdsAreUnique | src/base/QXmppBitsOfBinary.cpp:416-426 | different valid ids have different texts |
| ContentIds.NameIsFound | src/base/QXmppBitsOfBinary.cpp:277-374 | looking an algorithm up by its name finds that algorithm |
| ContentIds.FoundBearsTheName | src/base/QXmppBitsOfBinary.cpp:366-374 | an algorithm found bears the name, and none is missed |
| ContentIds.NamesTellFamilyAndBits | src/base/QXmppBitsOfBinary.cpp:277-295 | a newer algorithm's name is its family, a hyphen and its digest's bits; the oldest three are spelled out |
| ContentIds.LengthsAreBits | src/base/QXmppBitsOfBinary.cpp:277-295 | a digest has as many bytes as its bits fill |
| ContentIds.TextOfId | src/base/QXmppBitsOfBinary.cpp:416-438 | name, plus sign, lower-case hex digits of each byte, "@bob.xmpp.org"; in a URL after "cid:" |
| ContentIds.ReadIdIff | src/base/QXmppBitsOfBinary.cpp:360-383 | such a text is read as the algorithm of the name and the bytes of the digits, and as the empty id for an unknown name |
| ContentIds.OthersAreEmpty | src/base/QXmppBitsOfBinary.cpp:360-383 | any other text is the empty id |

## Left out

- Digest algorithms: a hash is a free term, so the SHA-1 digest of the capability string and collisions are not modelled.
- The C++ memory model, QThreadPool, QFuture and deferred object deletion: steps are atomic and any outstanding job may step next; queueing a job is part of the step that starts it, since a scheduler may delay any queued job.
- QIODevice beyond: a read returns some bytes or an error, the end is reached when all bytes have been read, seeking works.
- HashGenerators.CalculateHashes: a sequential device with no algorithms is excluded, because that run reports nothing.
- Devices whose size is not the number of their bytes.
- QHostAddress: addresses are their canonical text; a connection line's address is not read back.
- Letter case beyond A to Z, and text encodings: texts are sequences of characters.
- Payload fields that session descriptions do not carry: packet times, feedback, header extensions.
- Fallback.ReadFallbackText: for ranges outside the text, or reversed, the model says only that the result is undefined.
- EntityCapsXep.CapsStringIsXepStringIff: forms with several FORM_TYPE values are not covered, because XEP-0115 section 5.4 calls them ill-formed and gives no string; a field's value is taken to have the shape of its type when it is written to XML.
- XML text, namespaces of prefixes and attribute order: elements are values; XHTML is opaque because it is written raw.
- Message elements with a format of their own (file shares, trust messages, Jingle elements and so on): opaque contents that are always read back; elements that fail to parse are not modelled.
- SceParts.WholeRoundTrip: reading and writing times are parameters; dates are assumed to survive writing and reading in the format used, so the milliseconds that the legacy delay format drops are excluded.
- SceMessage: a time that is set but invalid and yet not null, and extensions, errors and addresses, which other functions write.
- The source text and namespace attribute a DOM-built element keeps, and reuse of freed addresses.
- In the destructor the model takes the node off the heap before its children are released; the source frees it afterwards. No step in between reads it.
- Archive chats: result-set replies inside a chat and date text; a date is a number of milliseconds.
- Base64 text of OMEMO keys and payloads; parsing it is assumed to undo printing.
- Plain getters and setters, one-branch stanza classes, data-form and enumeration tables, promises and tasks, logging, audio, vCard files, networking and colour generation: they would add only easy members.
