# A verified model of the mail bridge

Dafny proofs about the hard parts of a Go bridge between a mail client protocol
and IMAP: the filters that judge raw server bytes before a decoder sees them,
the batches of writes that must not be repeated, and the bounded algorithms that
shape what a reader is shown. Run `dafny verify dfyconfig.toml`.

## What is modelled

**The structure quarantine** (`Fetch*`, `Control*`, `Quarantine*`,
`StructureQuarantine`, `StructureSession`). A byte-at-a-time recogniser for
FETCH and control responses (sections 4.3, 7 and 9 of RFC 3501) that keeps
nesting in a counter. Both grammars are written as syntax trees with a printer;
the machine admits exactly the printed texts that fit, and a whole line or well
formed FETCH that it refuses ends it with the code of the reason. Its early
bounds check is a lower bound on every completion, so it refuses nothing that
would have fit. Over every run, one critical section of the reader's mutex at a
time, only whole approved frames are returned. The class `Quarantine` has the
reader's fields and methods, each proved to be the machine's step.

**The fixture's printer** (`BodyStructure`, `StructureReading`,
`StructureRelease`, `StructureBounds`). Every valid BODYSTRUCTURE descriptor
renders to that grammar and reads back as what was described, and the FETCH line
around it passes the quarantine byte for byte when the descriptor is small
enough.

**The SEARCH observer** (`Search*` without `SearchPages` and `SearchWindows`).
An incremental scanner of lines and literals. It is independent of how the
network chunks the stream, has no complaint exactly on acceptable streams, and
its sort-and-compare check equals pairwise range intersection. Whatever a server
prints while a search runs, search responses and all others, is read back
exactly. `ReadBudgetConn` is the connection that meters and observes.

**The write protocol** (`Mail*`, `MoveEffect`, `DispatchGuard`,
`MoveDestination`, `FoldedNames`, `Triage*`). Client, connection guard and stateful server run
as one machine against an adversary that chooses, for every UID, what other
connections do, how the command ends, what the client library writes, and
whether a lost command was applied. At-most-once dispatch and the truth of every
reported outcome hold over all batches and all runs of requests; an applied
message is where the request said, and only a mailbox of the generation asked
for is written to. `Adapter`, `DispatchGuardConn` and `Fixture` are the classes
changed in place.

**Bounded algorithms** (`Thread*`, `SearchPages`, `SearchWindows`,
`AttachmentProjection`, `EntityPaths`, `BodyWalk`, `Label*`, `ThreadFields`,
`Utf8`, `Utf8Cuts`, `OutputShrink`, `BoundedCopy`). Threads and their cycles,
descending search windows, two tree walks and their difference, label views,
header extraction, text cuts, shrinking a result and a bounded copy.

## Premises and findings

- The guard can be both used and tripped (`DispatchGuard.UsedAndTripped`): the
  MOVE line was sent, and the client still reports that nothing was.
  `TripMeansNothingSentIff` gives the exact condition, that a write follows the
  MOVE line inside one dispatch.
- The write protocol is proved under three premises about what it cannot see.
  The client library writes nothing after the MOVE line of a dispatch
  (`OneLine`). A failure that is no server answer is never reported as one of
  the two definite refusals, an unsupported or a refused command
  (`HonestAttempt`). A UID that the probe reports present was present in the
  mailbox when the probe was answered (`HonestTurn`).
- Resolving an attribute can answer the empty name, which the caller takes for
  no target. `TriageSafety.BlankIff` says for exactly which listings. That UID
  gets a result without UID, outcome or code, nothing is dispatched for it, and
  the batch goes on with the next UID (`TriageSafety.BlankGoesOn`).
- A fetch moves the session's stage and begins its dispatch in two critical
  sections. A close between them does not stop the dispatch
  (`StructureSession.LateDispatchIff`). An abort closes the session and ends its
  reader in two as well; once the reader is ended, a late dispatch has no effect
  (`StructureSession.AbortIsFinal`).
- Given one classification of every entity, the two attachment walks disagree in
  two flags and in nothing else (`BodyWalk.BodyListsTheSame`). The body walk
  also flags a part limit that is filled exactly, and only the projection flags
  an embedded message/global. The body walk can further fail on what a structure
  never shows: a missing or overlong boundary, a part that cannot be read, an
  encoding or a charset that cannot be decoded (bridge/mime.go:355-409).
- A halving or a cut loses at most three octets more than asked, which is the
  longest UTF-8 character less one.
- Upper-casing and case folding act on the non-ASCII letters that fold to ASCII
  ones (U+0131, U+017F, U+212A) as the source's library does.

## Model

| member | source | states |
|---|---|---|
| FetchScan.ScanByte | bridge/structure_quarantine.go:400-651 | one octet keeps the scanner's state valid, never loses a token, and brings the least completion at most one octet, and at most one closing token, nearer |
| FetchScan.RunConcat | bridge/structure_quarantine.go:229-240 | scanning a then b is scanning a + b: how the source chunks a list does not matter |
| FetchScan.NeedIsLowerBound | bridge/structure_quarantine.go:643-690 | in every lexical state the octets and closing tokens that the early check computes are a lower bound on every text that completes the list |
| FetchGrammar.RunElems | bridge/structure_quarantine.go:481-651 | the counter machine reads the rest of any printed element list, nested to any depth the limit allows, to its own closing parenthesis, counting its tokens |
| FetchGrammar.ExtractElems | bridge/structure_quarantine.go:481-651 | conversely, a list the machine completes from inside a structure is a printed, well formed element list followed by what the outer machine completes |
| FetchFrame.PrintedIsRead | bridge/structure_quarantine.go:400-651 | every attribute list of the grammar, with UID, FLAGS and BODYSTRUCTURE each at most once, is read to its end and leaves exactly the summary of its attributes |
| FetchFrame.ReadIsPrinted | bridge/structure_quarantine.go:400-651 | every text the machine completes is the print of a well formed attribute list with that summary |
| FetchFrame.ReadIffPrinted | bridge/structure_quarantine.go:400-651 | the depth-counter machine completes exactly the texts of the recursive grammar |
| QuarantineSafety.SafeStep | bridge/structure_quarantine.go:155-398 | every step keeps the release invariant: what was or can be returned is exactly the released frames, each approved, one structure at most, every budget kept |
| QuarantineSafety.SafePlay | bridge/structure_quarantine.go:155-398 | so does every run of steps |
| QuarantineSafety.ReleaseSafety | bridge/structure_quarantine.go:155-398 | over every run, any chunking and any interleaving of reads, dispatch, aborts and failures: the bytes returned and ready are the whole approved frames in order, FLAGS-only frames missing; each is a control line or the structure FETCH of the selected UID; no budget is ever exceeded |
| QuarantineExact.FeedList | bridge/structure_quarantine.go:270-295 | a list the scanner completes is read to its end when frame, session, tokens and work fit, and refused for bounds otherwise: looking ahead never refuses a frame that would have fit |
| QuarantineExact.FeedAccounts | bridge/structure_quarantine.go:270-295 | an input octet is kept, in the frame or in an admitted frame, or it ends the reader without admitting anything |
| QuarantineExact.FetchOutcome | bridge/structure_quarantine.go:270-298 | a well formed FETCH at a boundary is admitted exactly when it fits the budgets and its attributes and the dispatch allow its kind |
| QuarantineExact.FetchAdmittedIff | bridge/structure_quarantine.go:270-298 | every safe, running reader at a boundary admits exactly the FETCH responses of the grammar that fit, of the kind their attributes, UID and the dispatch allow; both directions |
| QuarantineExact.ControlAdmittedIff | bridge/structure_quarantine.go:321-385 | it admits exactly the control responses that the grammar prints, on one line, within their budgets; both directions |
| ControlGrammar.ControlLineIff | bridge/structure_quarantine.go:755-827 | the line tests accept exactly what the grammar prints: continuations, tagged and untagged status with a closed response code, counts of every 32-bit size (EXPUNGE above zero), capability and flag lists, and search answers with flat arguments |
| ControlGrammar.UpperIsSpelled | bridge/structure_quarantine.go:777-810 | a name is a word exactly when it writes each letter as a capital, as a small letter or, for S and I, as the non-ASCII letter that upper-cases to it |
| ControlGrammar.NumberIff | bridge/structure_quarantine.go:741-751 | a number is read exactly from its shortest decimal spelling, in 32 bits, zero only where it is allowed |
| ControlGrammar.FlatIff | bridge/structure_quarantine.go:840-862 | the arguments of a search answer are flat exactly when they are printable pieces and complete quoted strings without braces |
| QuarantineRefusals.LineOutcome | bridge/structure_quarantine.go:321-385 | a line that is no FETCH ends the reader for its bounds exactly when it does not fit, as a protocol error exactly when it fits and is no control response, and is admitted otherwise |
| QuarantineRefusals.FetchRefusal | bridge/structure_quarantine.go:270-298 | a well formed FETCH ends the reader for its bounds exactly when it does not fit, and as a protocol error exactly when it fits and its attributes and the dispatch allow no kind for it |
| QuarantineLifetime.FramesAreTheInput | bridge/structure_quarantine.go:199-298 | over every run the admitted frames and the frame in progress are the source input itself; after an end the admitted frames are a prefix of it |
| QuarantineLifetime.EndedForever | bridge/structure_quarantine.go:187-194 | a terminal error is sticky: nothing later changes it, admits a frame or adds a byte to be returned |
| QuarantineLifetime.EndSaysWhy | bridge/structure_quarantine.go:173-194 | whatever code a run ends with, one event ended it and the code says which: a cancelation or a deadline of caller or source, or a source that failed just when all its octets stood in whole admitted frames; every other end is a refusal |
| QuarantineLifetime.ReadsReturnAll | bridge/structure_quarantine.go:199-213 | reads with room enough return every approved byte there is, in order, whether or not the reader has ended, and change nothing else |
| QuarantineLifetime.DispatchedOnce | bridge/structure_quarantine.go:155-169 | a running reader was dispatched exactly as often as its state says, so never twice |
| QuarantineLifetime.StructureOnlyAfterDispatch | bridge/structure_quarantine.go:155-169 | no structure is released before the dispatch, and at most one in any run |
| StructureQuarantine.Quarantine.constructor | bridge/structure_quarantine.go:145-149 | a new reader is the initial machine for its selected UID |
| StructureQuarantine.NewStructureQuarantine | bridge/structure_quarantine.go:140-150 | a reader is made exactly when there is a source and a nonzero UID |
| StructureQuarantine.Quarantine.BeginDispatch | bridge/structure_quarantine.go:155-169 | the dispatch step of the machine; a second one ends the reader with a refusal |
| StructureQuarantine.Quarantine.AbortWith | bridge/structure_quarantine.go:173-194 | the abort step of the machine: an earlier end stands |
| StructureQuarantine.Quarantine.Read | bridge/structure_quarantine.go:199-245 | bytes before an error and never both; the reader passes through exactly the events of the source and the other callers during the call, and asks the source for nothing while it has bytes or an end |
| StructureQuarantine.Quarantine.DeliverLocked | bridge/structure_quarantine.go:235-240 | a delivered chunk is fed octet by octet until one ends the reader |
| StructureQuarantine.Quarantine.TakeLocked | bridge/structure_quarantine.go:205-213 | moves the beginning of the approved bytes to the caller |
| StructureQuarantine.Quarantine.SourceFailedLocked | bridge/structure_quarantine.go:250-261 | a source failure ends the reader with the category of that failure |
| StructureQuarantine.Quarantine.RefuseLocked | bridge/structure_quarantine.go:265-268 | the terminal error is set and the raw frame dropped |
| StructureQuarantine.Quarantine.FeedLocked | bridge/structure_quarantine.go:270-295 | one octet of source input is one Feed step of the machine, errors included |
| StructureQuarantine.Quarantine.GrowFrameLocked | bridge/structure_quarantine.go:300-308 | the frame's capacity always holds one more octet and never passes 65536 |
| StructureQuarantine.Quarantine.StartResponseLocked | bridge/structure_quarantine.go:310-316 | a new response starts with an empty frame and is counted once |
| StructureQuarantine.Quarantine.LineByteLocked | bridge/structure_quarantine.go:321-354 | one octet of a flat line, with its CRLF discipline, its room and its third space, is the machine's step |
| StructureQuarantine.Quarantine.ThirdSpaceLocked | bridge/structure_quarantine.go:332-344 | the third space decides between a FETCH and a line |
| StructureQuarantine.Quarantine.CompleteLineLocked | bridge/structure_quarantine.go:372-380 | a complete line is released whole when it is a control line, else refused |
| StructureQuarantine.Quarantine.ReleaseLocked | bridge/structure_quarantine.go:382-385 | the whole frame joins the approved bytes and the reader is between responses |
| StructureQuarantine.Quarantine.StartFetchLocked | bridge/structure_quarantine.go:387-398 | a FETCH starts at the grammar's start state with nothing seen |
| StructureQuarantine.Quarantine.FetchByteLocked | bridge/structure_quarantine.go:400-476 | one octet in any of the eleven lexical states changes the fields as the scanner's step says, under the token and work caps, and classifies a finished frame |
| StructureQuarantine.Quarantine.ItemsByteLocked | bridge/structure_quarantine.go:481-546 | one octet between tokens: spacing, list openings, closings and token starts as the grammar separates them |
| StructureQuarantine.Quarantine.LiteralSizeByteLocked | bridge/structure_quarantine.go:548-563 | a literal size of at most ten digits stays a 32-bit value |
| StructureQuarantine.Quarantine.EndAtomLocked | bridge/structure_quarantine.go:568-586 | an atom is judged where it has a meaning: item name, UID or flag |
| StructureQuarantine.Quarantine.NameLocked | bridge/structure_quarantine.go:590-609 | each of the three item names is admitted once |
| StructureQuarantine.Quarantine.OpenLocked | bridge/structure_quarantine.go:611-622 | an opened list is one level deeper, within the nesting limit, and one token |
| StructureQuarantine.Quarantine.CloseLocked | bridge/structure_quarantine.go:624-639 | a closed list returns to its parent, its item or the end of the frame |
| StructureQuarantine.Quarantine.TokenLocked | bridge/structure_quarantine.go:643-651 | one token and one unit of work, or a bounds refusal exactly at either cap |
| StructureQuarantine.Quarantine.FetchFeasibleLocked | bridge/structure_quarantine.go:656-690 | the early check answers exactly whether the least completion fits all budgets |
| StructureQuarantine.Quarantine.CompleteFetchLocked | bridge/structure_quarantine.go:695-710 | a framed FETCH is released, swallowed or refused by its attributes, its UID and the dispatch |
| StructureSession.ReaderPlays | bridge/structure_session.go:245-315 | a session's reader goes through exactly the events of the session's calls |
| StructureSession.OneDispatch | bridge/structure_session.go:276-290 | over every sequence of critical sections, a fetch and an abort having two each, one dispatch at most, and none unless one is asked for or may still be |
| StructureSession.DispatchIff | bridge/structure_session.go:245-301 | a dispatch comes exactly when login, examination and fetch follow one another before anything closes the session, and the fetch then goes on |
| StructureSession.LateDispatchIff | bridge/structure_session.go:276-301 | after a close a dispatch comes exactly when the fetch had moved the stage before the close and then goes on |
| StructureSession.AbortIsFinal | bridge/structure_session.go:305-315 | once the second section of an abort has ended the reader nothing is admitted and no byte is added, even when a dispatch comes late |
| StructureSession.EndingStays | bridge/structure_session.go:305-315 | an abort that closed the session ends its reader exactly when its second section follows, whatever comes in between |
| StructureSession.SessionSafety | bridge/structure_session.go:245-342 | over every run of a session: a dispatch exactly when its calls come in order before any close, no more structures released than dispatches, and only whole released frames returned |
| StructureSession.DedicatedSession.Advance | bridge/structure_session.go:319-329 | moves from one stage to the next, or is a protocol error that leaves the stage alone |
| StructureSession.DedicatedSession.Finish | bridge/structure_session.go:332-342 | closes, and says whether this call was the one that did |
| StructureSession.DedicatedSession.Section | bridge/structure_session.go:245-342 | each critical section of every call, and each step of the source and the decoder, changes the session as the model says |
| StructureSession.DedicatedSession.FetchOnce | bridge/structure_session.go:276-290 | begins the one dispatch, only from the selected stage, with any other sections and steps between its two |
| StructureSession.DedicatedSession.AbortSession | bridge/structure_session.go:305-315 | closes the session and then ends its reader, unless it had ended, with any other sections and steps between the two |
| BodyStructure.ValidateBodyPart | internal/testkit/bodystructure.go:111-142 | accepts exactly the valid trees whose nodes, with those counted before, fit the node limit, and counts every node |
| BodyStructure.Builder.RenderBodyPart | internal/testkit/bodystructure.go:229-265 | appends the rendered tree and nothing else |
| BodyStructure.Builder.RenderBodyParams | internal/testkit/bodystructure.go:267-283 | appends the rendered parameter list |
| BodyStructure.Builder.RenderBodyDisposition | internal/testkit/bodystructure.go:285-296 | appends the rendered disposition |
| BodyStructure.Builder.RenderBodyString | internal/testkit/bodystructure.go:300-311 | appends printable text quoted and any other as a literal |
| StructureRelease.BodyPrints | internal/testkit/bodystructure.go:229-311 | the rendered text of a tree is the print of a syntax tree of the FETCH grammar |
| StructureReading.RenderReads | internal/testkit/bodystructure.go:229-311 | what is printed for a valid descriptor, read back field by field as section 7.4.2 of RFC 3501 orders them, is that descriptor: every field in its place, any octets in a string, parts in order, and nothing of what follows |
| StructureRelease.BodyWf | internal/testkit/bodystructure.go:111-226 | for a valid tree that syntax tree is well formed and within the nesting limit |
| StructureRelease.LinePrints | internal/testkit/bodystructure.go:404-459 | a whole FETCH line is the print of a head and an attribute list |
| StructureRelease.LineWf | internal/testkit/bodystructure.go:404-459 | the attribute list of a line is well formed, names its UID and has exactly the requested items |
| StructureRelease.WriteStructureFetch | internal/testkit/bodystructure.go:407-459 | the fixture writes that line, item by item |
| StructureRelease.StructureLineIsReleased | internal/testkit/bodystructure.go:404-459 | for every valid tree the line with the structure is released byte for byte, as the one structure FETCH, given the selected UID, an active dispatch and budgets that suffice |
| StructureRelease.FlagsLineIsConsumed | bridge/structure_quarantine.go:695-710 | the line with FLAGS and no structure vanishes whole and the reader goes on |
| StructureBounds.BodyCount | internal/testkit/bodystructure.go:229-311 | the tokens of a rendered tree, counted off its descriptor, are exactly those of its syntax tree |
| StructureBounds.RenderBound | internal/testkit/bodystructure.go:229-311 | the text of a valid tree is bounded by its nodes, its parameters and the octets of its strings |
| StructureBounds.FreshReleaseIff | internal/testkit/bodystructure.go:404-459 | a fresh reader after its dispatch releases the line of a valid tree exactly when the line is no longer than a frame and its tokens, counted off the descriptor, are within their cap |
| StructureBounds.SmallTreeIsReleased | internal/testkit/bodystructure.go:404-459 | every valid tree with few and short enough nodes, parameters and strings, a condition on the descriptor alone, comes out byte for byte from a fresh reader |
| SearchWire.ESearchAtom | bridge/imapclient.go:1685-1691 | the scan for the end of the leading atom cuts where the specification does |
| SearchWire.TrailingImapLiteral | bridge/imapclient.go:1796-1831 | the scan of a line finds the literal, or the broken opening, that ends it, quoted text skipped |
| SearchFraming.LiteralForms | bridge/imapclient.go:1796-1831 | a line ends in a literal of its declared size in each form of a declaration: with a plus sign or without, before one space or at the end |
| SearchHeads.HeadClassified | bridge/imapclient.go:1508-1594 | the class of a printed head, of a continuation, status, known data name in any case, numbered or not, or unknown name, is the one it was printed for |
| SearchHeads.ClassifiedIff | bridge/imapclient.go:1508-1594 | the lines the observer can classify are exactly the heads with a known name and a response code that closes; both directions |
| SearchWire.OverlapIsRepeat | bridge/imapclient.go:1739-1772 | intervals intersect pairwise exactly when some number lies in two of them |
| SearchSets.NeighboursDecide | bridge/imapclient.go:1764-1769 | in any order by start, comparing neighbours finds every overlap |
| SearchSets.OverlapPermutes | bridge/imapclient.go:1764-1769 | reordering intervals neither makes nor removes an overlap |
| SearchSets.SequenceSetOverlaps | bridge/imapclient.go:1739-1772 | a set that parses shows the observer exactly its intervals, and overlaps exactly when two of them intersect; one that does not parse shows nothing |
| SearchSets.ExpandHolds | bridge/imapclient.go:1130-1163 | the expansion holds exactly the numbers the ranges contain |
| SearchSets.BoundedSearchUids | bridge/imapclient.go:1130-1163 | a decoded set is expanded exactly when every range is nonzero and in the window, no number repeats and all fit the limit; then in order |
| SearchESearch.ESearchValue | bridge/imapclient.go:1696-1725 | the scan of one return value, nested parentheses and quotes included, cuts where the specification does |
| SearchESearch.FindCorrelatorEnd | bridge/imapclient.go:1777-1790 | the scan finds the end of the search correlator |
| SearchESearch.WalkIs | bridge/imapclient.go:1640-1682 | the walk accepts exactly the clean lines, and on those shows the observer every interval of every ALL set |
| SearchESearch.ESearchAllOverlaps | bridge/imapclient.go:1640-1682 | the pair by pair loop computes that walk |
| SearchConsumed.CleanLineIff | bridge/imapclient.go:1640-1725 | an ESEARCH line is accepted exactly when, but for white space around it, it is a correlator, a marker and name-value pairs with nothing left over, each value an atom or closed at its end and nowhere before, and no ALL set among them is malformed or names a number twice |
| SearchObserver.ChunkIndependence | bridge/imapclient.go:1426-1502 | observing a then b is observing a + b, for every split: in literals, between CR and LF, across rejoined ESEARCH lines |
| SearchObserver.ChunkingIsInvisible | bridge/imapclient.go:1398-1502 | any chunking ends in the state that one read of the whole stream leaves |
| SearchSoundness.AcceptedIff | bridge/imapclient.go:1426-1502 | after any chunking the observer has no complaint exactly when the stream is acceptable, and then knows every number named |
| SearchSoundness.AcceptedNames | bridge/imapclient.go:1343-1355 | on an accepted stream all numbers of all SEARCH lines are distinct, nonzero and in the window, and no ESEARCH ALL set names a number twice or leaves the window |
| SearchSoundness.LiteralIsOpaque | bridge/imapclient.go:1426-1502 | the octets of a literal never influence the observation |
| SearchPrinter.EventReads | bridge/imapclient.go:1590-1614 | the text of a printed SEARCH line reads as exactly its numbers, with or without a modification sequence behind them, in each form |
| SearchWords.ReadsAsNumbersIff | bridge/imapclient.go:1590-1628 | a SEARCH line reads as numbers exactly when it is decimal words of 32 bits apart from each other with one modification sequence or none behind them, and its numbers are those of the words |
| SearchWords.GroupIff | bridge/imapclient.go:1619-1628 | a group is accepted exactly when it is a printed modification sequence |
| SearchReturns.PairsRead | bridge/imapclient.go:1662-1725 | the walk splits the printed return values, quoted, nested or set, exactly where they were joined |
| SearchReturns.ExtendedReads | bridge/imapclient.go:1640-1725 | whatever an ESEARCH response prints, correlator, marker and return values, the walk accepts it exactly when no ALL set names a number twice, and shows exactly the printed ALL intervals |
| SearchStream.ResponseRead | bridge/imapclient.go:1426-1502 | a response with literals is read as one logical line, every literal an empty string, and reading goes on after it |
| SearchOthers.OtherRead | bridge/imapclient.go:1426-1502 | any other response is read to its end: status text whatever it holds, data with whatever literals stand in it |
| SearchStream.PrintedResponsesAreObserved | bridge/imapclient.go:1398-1831 | whatever responses a server prints, search and other, tagged completions and data with literals among them, and however they are cut: the observer complains exactly when a SEARCH number repeats, an ALL set names one twice, either is zero or leaves the window, a status leaves its response code open, or data has no known name; else it knows exactly the SEARCH numbers |
| SearchConnection.ReadBudgetConn.BeginSearch | bridge/imapclient.go:1313-1329 | a search starts with its byte budget and a forgotten observation |
| SearchConnection.ReadBudgetConn.CheckSearchWindow | bridge/imapclient.go:1333-1338 | only the window of the observation changes |
| SearchConnection.ReadBudgetConn.SearchRangeLocked | bridge/imapclient.go:1343-1355 | a reversed or zero range is incomplete, one beyond the window out of it |
| SearchConnection.ReadBudgetConn.EndSearch | bridge/imapclient.go:1357-1385 | reports the observation made, then forgets it and returns to the idle budget |
| SearchConnection.ReadBudgetConn.End | bridge/imapclient.go:1387-1396 | reports whether the budget was exceeded and returns to the idle budget |
| SearchConnection.ReadBudgetConn.Read | bridge/imapclient.go:1398-1424 | refused exactly at a spent budget; else it never delivers more than the budget left, deducts what it delivers and shows it to a running search |
| SearchConnection.ReadBudgetConn.ObserveSearchResponseLocked | bridge/imapclient.go:1426-1502 | the in-place line and literal loop computes the observation of its input |
| SearchConnection.ReadBudgetConn.ObserveSearchUidsLocked | bridge/imapclient.go:1590-1614 | the fields of a SEARCH line are noted up to its MODSEQ group, repeats and malformed ones flagged |
| MailStore.MoveConserves | internal/testkit/stateful.go:923-950 | source and destination stay valid with ascending UIDs, flags and bodies over both are the same multiset, the source loses exactly the named UIDs and every received UID is new |
| MailStore.ExpungesReplay | internal/testkit/stateful.go:934-957 | applying the EXPUNGE lines one by one to the old list gives exactly the new source |
| MailStore.SetSeenIs | internal/testkit/stateful.go:268-295 | the message then answers as asked, every other flag keeps its place, and storing again changes nothing |
| MailStore.CopyUidPairs | internal/testkit/stateful.go:942-956 | both columns of COPYUID ascend, the first is exactly the named UIDs, and each pair names one message before and after the move |
| MailServer.MoveKeeps | internal/testkit/stateful.go:899-960 | UID MOVE keeps the store valid, reuses no UID, conserves every message, changes nothing unless it completes, and then leaves none of the named UIDs |
| MailServer.StoreKeeps | internal/testkit/stateful.go:844-894 | UID STORE touches only the flags of the named messages of the selected mailbox, and nothing unless it completes |
| MailServer.RunKeeps | internal/testkit/stateful.go:844-960 | over every run of both commands the store stays valid and reuses no UID; over moves alone every message survives |
| MailServer.GoneForever | internal/testkit/stateful.go:899-960 | a UID that has left a mailbox never names a message of it again |
| MoveEffect.MoveOkIff | internal/testkit/stateful.go:899-930 | UID MOVE completes exactly when moves are enabled, a mailbox is selected for writing, another mailbox of the target's name may be selected and its UIDs do not run out; it is malformed exactly without the extension or a selection |
| MoveEffect.MoveExact | internal/testkit/stateful.go:923-957 | a completed UID MOVE appends exactly the named messages, in order, with flags and bodies, under the UIDs from UIDNEXT on, to the mailbox of the target's name, leaves the others in the source, and changes no third mailbox |
| MoveEffect.OneMoved | internal/testkit/stateful.go:923-957 | moving one UID that is there makes its message the last of the destination and takes it, and it alone, out of the source |
| MoveEffect.StoreOkIff | internal/testkit/stateful.go:844-894 | UID STORE completes exactly on a mailbox selected for writing that is still there |
| MailFixture.Fixture.MoveMessages | internal/testkit/stateful.go:934-950 | the loop moves exactly the named messages to the destination's end and collects their EXPUNGE numbers and COPYUID pairs |
| MailFixture.Fixture.StatefulMove | internal/testkit/stateful.go:899-960 | the fixture's UID MOVE is that command, refusals included |
| MailFixture.Fixture.StatefulStore | internal/testkit/stateful.go:844-894 | the fixture's UID STORE is that command |
| DispatchGuard.NativeLineIff | bridge/imapclient.go:1885-1899 | the guard accepts exactly one printed UID MOVE line with the armed prefix: tag, UID, mailbox, CRLF and no other break |
| DispatchGuard.LineNamesItsUid | bridge/imapclient.go:1885-1899 | a line accepted for one UID is accepted for no other |
| DispatchGuard.ArmedForwardsOneMove | bridge/imapclient.go:1867-1881 | whatever is written while armed, at most one write, the first, reaches the transport, and it is a MOVE line of the armed UID; the guard trips exactly when there was another write |
| DispatchGuard.TripMeansNothingSentIff | bridge/imapclient.go:1867-1881 | a trip means that nothing was sent exactly when no write follows a forwarded MOVE line |
| DispatchGuard.UsedAndTripped | bridge/imapclient.go:1867-1881 | two writes that leave the guard both used and tripped |
| DispatchGuard.DispatchGuardConn.Arm | bridge/imapclient.go:1850-1856 | armed afresh for one UID |
| DispatchGuard.DispatchGuardConn.Disarm | bridge/imapclient.go:1859-1865 | reports the trip and stands down |
| DispatchGuard.DispatchGuardConn.Write | bridge/imapclient.go:1867-1881 | a write is the guard's step and is forwarded when the step says so |
| FoldedNames.FoldIsSpelled | bridge/move.go:301-329 | a name folds to a word exactly when it writes it letter by letter, each as a capital, as a small letter, or as the non-ASCII letter that folds to it |
| MoveDestination.NamedTargetIff | bridge/move.go:247-272 | a name resolves exactly to the one listed mailbox of that name that is a permitted target |
| MoveDestination.AttributeTargetIff | bridge/move.go:280-296 | an attribute resolves exactly to its only holder, listed under a name listed once, no aggregate view and a permitted target |
| MoveDestination.TargetOfIff | bridge/move.go:247-272 | a listed mailbox is a permitted target exactly when none of its attributes forbids it and it is INBOX, lies under Folders/, or stands at the root with a system attribute; the name sent is its own, or INBOX in capitals |
| MoveDestination.ResolveIff | bridge/move.go:23-74 | a request resolves exactly to the one permitted listed mailbox that it means, by its name or as the only holder of its attribute, and never to its own source by an attribute |
| MoveDestination.RequestedOnce | bridge/move.go:247-296 | a request means at most one listed mailbox |
| MoveDestination.TargetIsSafe | bridge/move.go:23-74 | no resolved target is the source or lies under Labels/ |
| MoveDestination.EmptyTargetIff | bridge/move.go:280-296 | the resolver returns the empty name, which the batch reads as no target, exactly for such a listing |
| MoveDestination.EmptyTargetExample | bridge/move.go:280-296 | a listing for which it does |
| MoveDestination.ResolveMoveDestination | bridge/move.go:247-272 | the loop finds the sole mailbox of that name |
| MoveDestination.ResolveAttributeDestination | bridge/move.go:280-296 | the loop finds the sole holder |
| TriageSafety.DispatchIs | bridge/imapclient.go:346-374 | one dispatch writes at most one command; success means it was applied, unsupported that nothing was sent, a command failure that it did not complete |
| TriageSafety.MoveUidSound | bridge/move.go:172-204 | the result of one UID is true of the mailboxes, under every fault |
| TriageSafety.MoveBatchSound | bridge/move.go:91-131 | for every batch and fault schedule: each UID is dispatched at most once and in input order, every result is true, nothing is attempted after an unknown and its session is dropped, and a whole-request error means no mailbox changed |
| TriageSafety.AppliedIsGone | bridge/move.go:91-131 | every UID reported applied has left the source for good by the end of the batch |
| TriageArrival.AppliedIff | bridge/move.go:172-235 | a move is reported applied exactly when its UID was found, the listing holds one mailbox that the request means, the one MOVE line was written, and the server carried it out and said so |
| TriageArrival.OutcomeIs | bridge/move.go:172-242 | every other outcome and code of a turn, by the probe, the listing, what was withheld or written, and the server's answer |
| TriageArrival.AppliedArrives | bridge/move.go:172-204 | a move reported applied took the messages of that UID from the selected mailbox to the one listed mailbox that the request means, and did nothing else |
| TriageArrival.BatchReports | bridge/move.go:91-131 | the batch takes its turns in order up to the first that stops it, reports each as it ended and every later UID as refused or not attempted, and fails as a whole exactly when its last turn was not attempted and nothing was applied before |
| TriageArrival.BatchDelivers | bridge/move.go:91-131 | every UID reported applied by a batch was moved by one of its commands to the one listed mailbox that the request means |
| TriageArrival.EveryTurnApplies | bridge/move.go:91-131 | when every turn completes every UID is applied |
| TriageSafety.BlankIff | bridge/move.go:172-235 | a result without a UID arises exactly when a present UID's listing holds the attribute in one mailbox without a name, listed once, with a system attribute and none refused |
| TriageSafety.StoreSeenSound | bridge/seen.go:134-164 | the result of one flag change is true of the mailboxes, and an uncertain one stops the batch |
| TriageSafety.SeenBatchSound | bridge/seen.go:30-59 | the same for every Seen batch, which has no whole-request error of its own |
| TriageSafety.AppliedIsStored | bridge/seen.go:30-59 | every UID reported applied had the flag as asked when its command completed |
| TriageSeen.SeenOutcomeIs | bridge/seen.go:134-164 | a flag change is applied exactly when its UID was found, the command was written, the mailbox was there and the completion was read; a missing UID and a tagged refusal are definite, anything else is unknown |
| TriageSeen.SeenReports | bridge/seen.go:30-59 | the Seen batch takes its turns in order up to the first uncertain one and leaves every later UID |
| TriageRequests.RepeatsIff | bridge/seen.go:61-81 | the check of a request's UIDs finds a repeat exactly when two are equal |
| TriageRequests.HandleSound | bridge/seen.go:30-59 | every whole request, with its validation, session and batch, is sound: a whole-request error means no mailbox changed, and an aborted session carries nothing |
| TriageGenerations.OpenedIff | bridge/seen.go:86-129 | the source is opened exactly on the session whose last selection reported the generation asked for, and refused as stale when it reported another |
| TriageGenerations.FailedOpening | bridge/seen.go:86-114 | an opening that leaves the connection in doubt keeps no session; one that found another generation keeps the one it used |
| TriageGenerations.GenerationIsChecked | bridge/seen.go:86-114 | over the two attempts of a request: when the last selection reported another UIDVALIDITY nothing is written, the mailboxes stay as they were and the error is the stale one; and every command of a request was written on a session whose last selection reported exactly the UIDVALIDITY asked for |
| TriageGenerations.RefusalIff | bridge/seen.go:61-81 | exactly the well formed requests go on: bounded names, a generation, one to fifty distinct nonzero UIDs, one exact destination |
| TriageGenerations.MoveRequestApplies | bridge/move.go:91-131 | a well formed move whose source reports its generation applies to every UID when every turn completes |
| TriageGenerations.SeenRequestApplies | bridge/seen.go:30-59 | so does a well formed flag change |
| TriageGenerations.MoveIsUnsupported | bridge/move.go:23-110 | a move onto its own source, or on a server without MOVE, is refused for every UID and sends nothing |
| TriageRequests.EffectsAreReported | bridge/move.go:91-131 | a command that changed a mailbox belongs to a UID reported applied or unknown |
| TriageRequests.AbortedStaysUnused | bridge/bridge.go:172-207 | over every run of requests no command is written on an aborted session or after the close |
| TriageRequests.UnknownEndsItsSession | bridge/bridge.go:172-179 | over every run of requests, a session left with an unknown outcome is never written on again |
| TriageAdapter.Adapter.Discard | bridge/bridge.go:172-179 | aborts and forgets the session, only if it is the retained one |
| TriageAdapter.Adapter.Close | bridge/bridge.go:183-207 | forgets the session and stays closed |
| TriageAdapter.Adapter.SessionForOperation | bridge/bridge.go:120-137 | computes the session of an operation in place |
| TriageAdapter.Adapter.SelectTriageSource | bridge/seen.go:116-129 | selects the source on that session |
| TriageAdapter.Adapter.OpenTriageSource | bridge/seen.go:86-114 | compares the generation and replaces a dead session once |
| TriageAdapter.Adapter.WriteThrough | bridge/imapclient.go:361-374 | the library's writes through the armed guard reach the wire as the guard lets them |
| TriageAdapter.Adapter.MoveOnWire | internal/testkit/faults.go:163-184 | one MOVE on the wire against the fixture, which applies it unless the fault strikes first |
| TriageAdapter.Adapter.MoveOne | bridge/move.go:172-242 | one UID of a move, with its effects on client, log and mailboxes, is the protocol's turn |
| TriageAdapter.Adapter.StoreOne | bridge/seen.go:134-164 | one UID of a Seen change is the protocol's turn |
| TriageAdapter.Adapter.PendingResults | bridge/move.go:133-140 | every UID pending, in input order |
| TriageAdapter.Adapter.RefuseRemaining | bridge/move.go:164-168 | every result from an index on becomes the unsupported refusal, those before it stay |
| TriageAdapter.Adapter.MoveLoop | bridge/move.go:91-131 | the in-place loop computes the batch that is proved sound |
| TriageAdapter.Adapter.SeenLoop | bridge/seen.go:30-59 | the in-place loop computes the Seen batch that is proved sound |
| TriageAdapter.Adapter.Move | bridge/move.go:23-131 | a whole move request is the request that is proved sound |
| TriageAdapter.Adapter.SetSeen | bridge/seen.go:30-59 | a whole Seen request is the request that is proved sound |
| ThreadLinks.ClosesIff | bridge/threads.go:66-73 | with all lower links broken as before, the walk from the candidate parent meets a node exactly when the node is the highest index of a candidate cycle |
| ThreadLinks.WouldCycle | bridge/threads.go:229-239 | on acyclic links the walk ends and answers exactly whether it meets the child |
| ThreadLinks.BreakCycles | bridge/threads.go:61-73 | the loop leaves acyclic links, cut exactly at the highest node of each candidate cycle, and flags exactly when there was one |
| ThreadLinks.CycleLosesOne | bridge/threads.go:66-73 | each cycle loses exactly one link, all its other nodes keep theirs |
| ThreadLinks.LosesLinkIff | bridge/threads.go:66-73 | a node loses its link exactly when it lies on a candidate cycle and has its highest index |
| ThreadLinks.CutKeepsAcyclic | bridge/threads.go:78-82 | cutting a link makes no cycle |
| ThreadDepth.CutIsShallow | bridge/threads.go:75-83 | depth cutting leaves a forest no deeper than the limit, in which a link is the old one or none and earlier nodes keep link and depth |
| ThreadDepth.CutNothingIff | bridge/threads.go:75-83 | nothing is cut exactly when no node was too deep |
| ThreadDepth.CutDepths | bridge/threads.go:75-83 | every recorded depth is the number of parent steps in the final forest and within the limit; the flag says exactly whether some node was too deep |
| ThreadDepth.ResolveThreadDepth | bridge/threads.go:241-252 | the memoised walk gives the number of parent steps |
| ThreadOrder.BeforeTotal | bridge/threads.go:164-178 | of two different inputs one precedes the other |
| ThreadOrder.BeforeAntisymmetric | bridge/threads.go:164-178 | and never both |
| ThreadOrder.BeforeTransitive | bridge/threads.go:164-178 | the order is transitive |
| ThreadOrder.SortedIs | bridge/threads.go:152-154 | sorting keeps exactly the elements, in ascending order |
| ThreadOrder.ChoiceIsPrefix | bridge/threads.go:136-162 | an ascending choice that leaves out only later elements is the beginning of the whole in order |
| ThreadSelection.RootIsLatest | bridge/threads.go:109-121 | no element of a heap is later than its first |
| ThreadSelection.Push | bridge/threads.go:123-125 | adds one element and keeps a heap of exactly those elements |
| ThreadSelection.Swap | bridge/threads.go:119-121 | exchanges two places and keeps the elements |
| ThreadSelection.Up | bridge/threads.go:136-162 | raising one element restores the heap and keeps its elements |
| ThreadSelection.Down | bridge/threads.go:136-162 | lowering the first element restores the heap and keeps its elements |
| ThreadSelection.ReplaceFirst | bridge/threads.go:136-162 | replaces exactly the latest element |
| ThreadSelection.ChoiceIsEarliest | bridge/threads.go:136-162 | a heap that holds the best so far gives the earliest messages in order |
| ThreadSelection.EarliestThreadMessages | bridge/threads.go:136-162 | the bounded heap selection equals sorting everything and taking the first limit |
| ThreadEarliest.EarliestIff | bridge/threads.go:136-178 | the earliest messages are exactly the choice of places in the input, as many as the limit allows, whose times never decrease, ties by key and then identifier in dictionary order of octets and then by place, such that nothing left out belongs before anything chosen |
| ThreadBuild.StableThreadKey | bridge/threads.go:180-197 | the suffix loop ends with the first free key of its base, never an empty one |
| ThreadBuild.ParentFor | bridge/threads.go:199-227 | the scan takes the last reference known, or the in-reply-to, and flags exactly an overlong list |
| ThreadBuild.ParentIs | bridge/threads.go:199-227 | the parent is the first message that carries the last reference known, looking back over at most the limit; only a message without references reads what it replies to; what is missing is the last reference, or what is replied to |
| ThreadBuild.KeyKept | bridge/threads.go:180-197 | a message whose own key is free keeps it, else goes by its identifier or a fixed word, and a taken key gets the least free number from two up |
| ThreadBuild.KeyMessages | bridge/threads.go:48-59 | keys every message in turn and indexes the first message of each identifier |
| ThreadBuild.BuildThread | bridge/threads.go:39-102 | the thread is the earliest messages, keyed, linked by the broken and cut candidate links, with exact flags |
| ThreadBuild.NodesAreEarliest | bridge/threads.go:39-102 | the nodes are the earliest messages of the input in their order, each under the key it was given |
| ThreadBuild.ParentIsOneLevelUp | bridge/threads.go:85-99 | every parent key names exactly one node, one level up; a node without one is at depth zero |
| SearchPages.WindowsTile | bridge/search.go:153-160 | every UID below UIDNEXT lies in exactly one window and no other number in any |
| SearchPages.WindowsAdjoin | bridge/search.go:153-160 | windows go from UIDNEXT - 1 down to 1, none too wide, each right below the one before, with no wrap |
| SearchPages.SelectHighestUids | bridge/search.go:218-241 | a malformed answer is refused whole, else the highest UIDs in strictly descending order, as many as the budget |
| SearchPages.ValidateFetchedUids | bridge/imapclient.go:735-761 | accepts exactly one result for each requested UID |
| SearchWindows.AppendItems | bridge/search.go:180-203 | the running byte count is the size of the encoded array; success exactly when all encode and the array fits |
| SearchWindows.MetadataInOrder | bridge/search.go:174-178 | accepted metadata, highest first, is in the order requested |
| SearchWindows.SearchWindow | bridge/search.go:154-205 | one window extends the highest matches found so far, and says exactly when it left some out |
| SearchWindows.SearchMailPage | bridge/search.go:133-213 | the page is strictly descending and within its count and byte bounds; under honest answers it holds the highest matches, and truncated is set exactly when some window stayed unsearched or a match is missing |
| AttachmentProjection.TakeAllIs | bridge/attachment_projection.go:57-128 | visiting in order lists the first qualified entities among the first entities visited, and sets each flag just when something was left out |
| EntityPaths.EntityWalked | bridge/attachment_projection.go:57-98 | the visits are those of exactly the places in the tree that have only unlisted containers within the depth limit above them, in the order of their places |
| AttachmentProjection.ProjectAttachmentStructure | bridge/attachment_projection.go:40-52 | the in-place recursive walk computes that projection of the whole structure |
| AttachmentProjection.UnflaggedIsComplete | bridge/attachment_projection.go:40-52 | with no flag set the list is that under any wider limits: nothing was left out |
| AttachmentProjection.Projector.VisitEntity | bridge/attachment_projection.go:57-98 | visiting an entity is taking its depth-first visits in order, up to the entity that stops the walk |
| AttachmentProjection.Projector.AppendAttachment | bridge/attachment_projection.go:103-128 | a full list is flagged, else the entry joins it with its own flag |
| BodyWalk.BodyIs | bridge/mime.go:322-430 | the body walk is the same visits in order, with its own stop at the part limit |
| BodyWalk.BodyListsTheSame | bridge/mime.go:322-453 | where no entity is too deep the body walk fails exactly when the projection does, lists the same attachments, and its flags differ only as stated: an exactly filled part limit, and message/global for the depth |
| BodyWalk.Collector.ParseEntity | bridge/mime.go:322-430 | the in-place recursive collector computes that walk |
| BodyWalk.Collector.AppendAttachment | bridge/mime.go:432-453 | a full list is flagged, else the entry joins it |
| LabelViews.PerformKeeps | internal/testkit/labels.go:432-610 | every command keeps the labels valid and changes only what it may |
| LabelViews.RunKeepsLabels | internal/testkit/labels.go:432-610 | in every state of every run: one folder for each message forever, distinct messages and ascending UIDs below UIDNEXT in every view, shared flags unchanged and no UID given to a second message |
| LabelViews.LostWasMarked | internal/testkit/labels.go:547-610 | a member that a run removes from a view had been marked in that same view |
| LabelEffect.CopyIs | internal/testkit/labels.go:432-543 | a copy completes exactly from a folder selected for writing into a selectable label view with room; then the message its UID names is put into that view once, under its UIDNEXT, unless it is there, and nothing else changes |
| LabelEffect.MarkIs | internal/testkit/labels.go:432-584 | the mark completes exactly in a label view selected for writing, and touches the member of that UID alone |
| LabelEffect.ExpungeIs | internal/testkit/labels.go:432-610 | UID EXPUNGE completes exactly there with UIDPLUS, and removes the marked member of that UID alone |
| LabelFixture.NewLabelStore | internal/testkit/labels.go:135-226 | a store is built exactly from acceptable seeds, and is then valid |
| LabelFixture.CheckMembers | internal/testkit/labels.go:135-226 | accepts exactly the members with nonzero ascending UIDs and distinct known messages |
| LabelFixture.Fixture.LabelUid | internal/testkit/labels.go:432-481 | a UID command changes the views as the state machine says |
| LabelFixture.Fixture.LabelCopy | internal/testkit/labels.go:500-543 | COPY adds the message to one label view, once, under its next UID |
| LabelFixture.Fixture.LabelStoreDeleted | internal/testkit/labels.go:547-584 | STORE marks one member of one view |
| LabelFixture.Fixture.LabelExpunge | internal/testkit/labels.go:588-610 | EXPUNGE removes one marked member of one view |
| LabelFixture.Fixture.MemberByUid | internal/testkit/labels.go:242-250 | the first member of that UID |
| LabelFixture.Fixture.MemberByMessage | internal/testkit/labels.go:252-260 | the first member of that message |
| ThreadFields.BlockPreserves | bridge/thread_fields.go:22-54 | the extraction of a complete block is itself a complete block of exactly the four first fields, folded lines byte for byte, and extracting again changes nothing |
| ThreadFields.FieldTaken | bridge/thread_fields.go:22-54 | each field taken is the first of its name with all the lines that continue it, and is missing exactly when no line has the name |
| ThreadFields.BlockFits | bridge/thread_fields.go:22-54 | it is never longer than its input |
| ThreadFields.ParsePrinted | bridge/imapclient.go:957-973 | printed lines and their blank line are read back, whatever follows |
| ThreadFields.ThreadFieldSlot | bridge/thread_fields.go:60-73 | a field's slot is that of the name it has, in any ASCII case, else none |
| ThreadFields.ThreadFieldBlock | bridge/thread_fields.go:22-54 | the one-pass scan with four slots computes that extraction |
| ThreadFields.HeaderTerminatorEnd | bridge/imapclient.go:957-973 | finds an end exactly in a complete block, just past its first blank line |
| Utf8Cuts.CutIff | internal/mcpserver/handlers.go:102-116 | a beginning of valid text is valid exactly when it ends on a character boundary |
| Utf8Cuts.BoundaryNear | internal/mcpserver/handlers.go:102-116 | no boundary is more than three octets back |
| Utf8.RepairedIs | bridge/mime.go:549-560 | a repair is valid text, and valid text is left alone |
| Utf8.RunReplaced | bridge/mime.go:549-560 | behind valid text each whole run of octets that belong to no character becomes one replacement character |
| Utf8.ValidIff | internal/mcpserver/handlers.go:102-116 | text is valid exactly when it is the encoding of Unicode scalar values |
| Utf8Cuts.TruncateUtf8 | bridge/mime.go:549-560 | text within the limit is repaired, longer text cut to its longest valid beginning within the limit, flagged exactly when cut |
| Utf8Cuts.CutToBoundary | internal/mcpserver/handlers.go:102-116 | stepping back to a character start gives, on valid text, the longest valid beginning, at most three octets short |
| Utf8Cuts.CuttersAgree | bridge/mime.go:549-560 | two longest valid beginnings are equal, so the two cutters agree on valid text |
| Utf8Cuts.BothCuts | internal/mcpserver/handlers.go:102-116 | both run on one text give the same cut |
| Utf8Cuts.BoundedSender | internal/mcpserver/handlers.go:102-116 | a malformed sender is left out, a long one cut to its longest valid beginning, a short one kept |
| Utf8Cuts.HalveRunes | internal/mcpserver/output.go:72-83 | a strictly shorter beginning; of valid text the longest valid one within half, at most three octets short |
| OutputShrink.ShrinkForOutput | internal/mcpserver/output.go:85-156 | for each of the six results a step halves the first thing left to give up, keeps beginnings and at least one node of a thread, and is refused exactly when nothing is left |
| OutputShrink.EncodeBounded | internal/mcpserver/output.go:38-69 | the shrink loop ends for every result; nothing that fits is shrunk, what does not fit is exhausted, and fallback, error or bare flag follow from sizes and kind |
| BoundedCopy.CopyBounded | internal/drivefs/bounded_copy.go:72-123 | success means the whole source was written, the limit error that it was longer and the limit was written, every other error the event that caused it; a read that keeps to its room never passes limit + 1, and no end came later than its cause |
| BoundedCopy.BoundedTransactionalCopy | internal/drivefs/bounded_copy.go:53-68 | an absent source or a limit that is not positive is invalid, an expired context stops before the first read, else the copy's own claims |

## Left out

- TCP, TLS, STARTTLS, certificates, credentials, subprocesses, Drive publication and other operating system calls.
- IMAP decoding by the client library, MIME media types, charsets, HTML, base64 and JSON: given values or functions that the model takes as parameters.
- Message identifiers, which rest on a keyed hash; `encode` stands for a message's encoding and `size` for a result's.
- Error texts; an error is its code.
- Clocks, deadlines and goroutine scheduling: nondeterministic outcomes, waits that end with what other callers did meanwhile, and steps that are each one critical section.
- The gate that admits one operation at a time, and waiting for it: operations follow one another.
- StructureQuarantine.Quarantine.Read: the source and the other callers are a finite script of deliveries; a read that exhausts it is reported as blocked.
- SearchConnection.ReadBudgetConn.Read: the network's delivery is one step, so a budget changed by another goroutine during the underlying read is not modelled.
- Mailboxes, messages, views and descriptor nodes are held by value, so aliasing between them is not modelled; classes hold them in fields that methods replace.
- StructureSession.DedicatedSession.AbortSession: closing the transport and the client, after the reader has ended, is not modelled.
- QuarantineRefusals.FetchRefusal: which of the two codes a FETCH of no well formed list ends with is not said; it ends the reader without being admitted.
- SearchStream.PrintedResponsesAreObserved: data whose text leaves a quoted string open or holds a brace of its own, and search responses with a number before their name or a name not in capitals, are not among the responses printed; `SearchHeads.ClassifiedIff` and `SearchSoundness.AcceptedIff` hold of every line.
- BodyStructure.ValidateBodyPart: descriptors are trees of nodes, so the refusals of an absent node and of one that contains itself cannot arise.
- StructureRelease.WriteStructureFetch: the parsed request is given; the parser of the fixture's request line and UID sets, and its canned faults, are not modelled.
- MailFixture.Fixture.StatefulStore: the arguments arrive parsed and the response lines are not modelled.
- MailFixture.Fixture.StatefulMove: UID sets arrive as parsed ranges; the fixture's tokenizer, LIST patterns, STATUS, SEARCH and FETCH answers, its seeds and its administrative mutations are not modelled.
- TriageSafety.MoveBatchSound: other connections may move and remove messages, store flags, deliver mail, remove mailboxes and change attributes between steps, but do not create a mailbox, so that no removed name comes back with its UIDs used again.
- TriageSafety.AppliedIsStored: the flag is as asked when the command completes; another connection may change it later.
- TriageAdapter.Adapter.Close: the logout on the retained session is not modelled; it changes no mailbox.
- The retry of a read operation on a fresh session: reads change nothing, and the write path has its own reopening, which is modelled.
- BodyWalk.BodyListsTheSame: errors that only the body shows (boundaries, reading a part, decoding its text) are not part of the classification both walks share.
- BodyWalk.BodyIs: an entity comes classified, and its text is not collected.
- AttachmentProjection.TakeAllIs: an entity comes classified; that one of its fields was shortened is part of the classification.
- SearchWindows.SearchMailPage: argument lengths are not checked, and an item that fails to encode and a page that grows too large are one failure.
- LabelFixture.NewLabelStore: the checks of message identifiers, mailbox names and flag atoms, and the default UIDVALIDITY, are not modelled.
- LabelFixture.Fixture.LabelUid: a command arrives parsed; SELECT, LIST, STATUS and the fixture's text answers are not modelled.
- OutputShrink.EncodeBounded: `size` and `fallback` stand for the encoder, whose own errors are not modelled.
- The stripping of reply prefixes from a subject, bounded header counts and the reading of message identifiers from a header.
- BodyWalk.Collector.ParseEntity: errors of boundaries, part reading and decoding are not modelled.
- BoundedCopy.BoundedTransactionalCopy: the transaction around the copy is not modelled.
- BoundedCopy.CopyBounded: what a failed or short write leaves in the file is not modelled; the transaction around it discards it.
