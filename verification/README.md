# The palimpsests audit chain, modelled and proved

The repository keeps tamper-evident logs. This project models the code that decides whether such a log
can be trusted, and proves what that code promises:

- `Bytes`, `Codec`, `Profile`: byte strings, little-endian fields, TLV lists, the 156-byte record header
  and the record container.
- `Merkle`, `Consistency`, `Frontier`: the tree root by pairing layers and by recursive splitting,
  inclusion proofs, consistency proofs with their bit-shifting verifier, and the incremental frontier.
- `Chain`, `ChainReport`: the header-only chain verifier, its anchor diagnosis, and what every list of its
  result holds.
- `Writer`, `WriterObject`: the writer, once as functions from state and disk to new state and disk
  operations, once as the object whose fields and files are updated in place. Every method of the object
  is proved against its function, including the order of the operations it puts to the file system.
- `WriterInv`, `WriterCut`, `WriterResume`, `WriterManifest`, `WriterRuns`: what one emit, one cut, one crash
  at any byte, one resume and one deletion keep, and the invariant of every run mixing them.
- `WriterLaws`, `WriterSizes`, `WriterPolicy`, `WriterNames`, `WriterRecords`: what follows for the chain, the
  root, the spans, the segment sizes, when a policy cuts, what a segment is called, what a writer refuses and
  what each record carries.
- `Reader`, `ReaderFields`, `ReaderObject`, `ReaderSegments`, `ReaderRuns`: the reader's walk, the fields it
  shows, its in-place reads against the full decode, its binary-searched origin index against the linear
  walk, its reference check, its checks on segment continuations, and what these find in the segments of any
  run of the writer.
- `Log`, `LogRuns`: the SQL audit log as a hash chain that several processes extend, with an anchor outside
  it, and when that anchor moves.
- `Jcs`, `Reporter`, `TimeHealth`: canonical JSON and capsule identity, the LiteLLM call/result pairing,
  the drift series and the step catalog.

SHA-256 is a parameter `sha`, any function from byte strings to 32-byte digests. No such function is
injective, so a theorem that needs collision-freeness asks for it only on the finite set of strings that
were hashed (`NoCollision`), and likewise that none of them hashes to the zero digest (`NeverZero`).

A crash may fall between any two disk operations and inside an append or a temporary write at any byte.
`WriterRuns.Sys` carries three components the system does not have (`story`, `tail`, `since`): they record
which records are durable and how they are cut, and the invariant says what they mean on disk. A writer
of a run has a rotation policy or none; none is allowed while the chain has no segments manifest.

## What turned out different from what the documentation says

- "Exactly one file accepts a resume" does not hold. Only the last listed closed segment is compared with
  its successor; an older closed segment still on disk is accepted, and writing there would fork the chain
  (`WriterLaws.OldSegmentAccepts` is a run of two records that reaches this). `WriterResume.OneFileAccepts`
  gives the exact condition.
- A crash inside the first record of a chain leaves a file that neither a new writer nor a resume accepts
  (`WriterLaws.TornGenesisIsStuck` is the run), and a later record torn inside a body that holds the record
  magic looks like damage to a resume (`WriterLaws.TornMagicIsStuck` is a run). `WriterLaws.GoesOnIff` says,
  for every state a run can reach, exactly when the live file can be begun or resumed: those two cases are
  the only ones in which it cannot.
- Rotation thresholds do not carry across a crash exactly. A crash after a record that reaches the threshold
  and before the successor has its name leaves a full segment, the resume undoes the cut, and the next
  record makes one too many (`WriterSizes.UndoneCutGrows` is a run). `WriterSizes.SegmentsAreExact`
  counts: one record more for each such crash, the quota exactly iff there was none.
  `WriterSizes.SegmentsAreFull` says the same of a threshold in bytes.
- A refused resume does not always leave the file as it was: the torn bytes are dropped before the manifest
  is read. `WriterObject.OpenExisting` says exactly when: a refusal of a file that is empty, or that the scan
  or the torn-tail rule turns away, changes nothing, and every other refusal has dropped the bytes after the
  last complete record. `WriterLaws.RefusalShortens` is a run that ends in such a refusal.
- The kind probe of a cold reader reads only the first item of a body, so it answers where the full decode
  would not, exactly when the rest of the body, or the header, does not parse (`Reader.ProbeIsKind`). The
  origin index is built from it and can then report a model load the linear walk never sees
  (`ReaderObject.IndexMisreads`). It is right exactly when no event opens with a model unload, or with a
  model load its header has no digest for, in a body that does not parse (`ReaderObject.IndexIsExact`). Of a single
  query, the answer is right exactly when the record it is taken from is not of that kind, or the record
  really in force shows the same state (`ReaderObject.AnswerIsRight`).
- The step catalog drops what a slew had absorbed so far at every step and regression, which is why the
  bound on unaccounted drift grows with their number (`TimeHealth.CatalogBoundsDrift`).

## Model

| member | source | states |
|---|---|---|
| Merkle.PairingKeepsMth | docs/specs/pala-1/palaudit_ref.py:220-238 | one pairing pass with promotion keeps the recursive tree hash, for every number of leaves |
| Merkle.RootOfThree | docs/specs/pala-1/palaudit_ref.py:212-238 | the root of three leaves spelled out: the prefix bytes, the sides and the promotion |
| Merkle.MerkleRoot | docs/specs/pala-1/gen_consistency_vectors.py:41-48 | the layer loop returns the root defined by splitting at the largest power of two below n |
| Merkle.LargestPowerBelow | docs/specs/pala-1/gen_consistency_vectors.py:41-48 | the doubling loop finds the one power of two below n that is at least n/2 |
| Merkle.EqualRootsEqualLeaves | docs/specs/pala-1/palaudit_ref.py:212-238 | without a collision among the strings hashed, equal roots mean equal leaf lists |
| Merkle.MerkleProof | docs/specs/pala-1/palaudit_ref.py:241-258 | the proof built layer by layer is the recursive path of the index |
| Merkle.VerifyProof | docs/specs/pala-1/palaudit_ref.py:261-265 | the verifier's loop compares the fold of the path with the root |
| Merkle.AcceptsExactlyMembers | docs/specs/pala-1/palaudit_ref.py:241-265 | a proof is accepted against a tree's root iff the leaf is in the list and the path is that of one of its positions; against the empty tree's, never |
| Merkle.ProofIsShort | docs/specs/pala-1/palaudit_ref.py:241-258 | a proof over n leaves has at most ceil(log2 n) steps |
| Consistency.ProofIsAccepted | docs/specs/pala-1/gen_consistency_vectors.py:51-67 | the path of every 0 < m <= n rebuilds both roots and is accepted |
| Consistency.PathIsShort | docs/specs/pala-1/gen_consistency_vectors.py:51-61 | that path has at most ceil(log2 n) + 1 nodes |
| Consistency.AcceptedMeansPrefix | src/palimpsests/audit/pala/merkle.py:128-162 | an accepted path against the roots of two lists forces the first to be a prefix of the second |
| Consistency.VerifyConsistency | src/palimpsests/audit/pala/merkle.py:128-162 | the verifier that shifts fn and sn accepts exactly the paths the recursive definition accepts |
| Consistency.OddIsIndexed | src/palimpsests/audit/pala/merkle.py:140-161 | stripping the shared low bits of the two indices leaves exactly the operations of the recursive path |
| Frontier.AppendHolds | src/palimpsests/audit/pala/frontier.py:66-77 | merging equal heights keeps the peaks the roots of perfect subtrees over everything appended |
| Frontier.RootOfFrontier | src/palimpsests/audit/pala/frontier.py:79-92 | folding the peaks right to left gives the tree root over every hash appended |
| Frontier.MerkleFrontier.AppendHash | src/palimpsests/audit/pala/frontier.py:66-77 | the loop that pops and joins peaks computes the append, and refuses exactly what is not 32 bytes |
| Frontier.MerkleFrontier.ComputeRoot | src/palimpsests/audit/pala/frontier.py:79-92 | the object's root is the tree root of whatever hashes its peaks stand for |
| Frontier.StoredLayout | src/palimpsests/audit/pala/frontier.py:94-100 | the stored form is the count in eight bytes, least significant first, then each root in the order of the peaks |
| Frontier.FrontierRoundTrips | src/palimpsests/audit/pala/frontier.py:94-120 | the stored form of a frontier reads back as that frontier |
| Frontier.AcceptedFrontierIsExact | src/palimpsests/audit/pala/frontier.py:103-120 | whatever reads back is stored as exactly the bytes it came from |
| Codec.ParseEncoded | docs/specs/pala-1/palaudit_ref.py:112-129 | an encoded TLV list parses to that list |
| Codec.EncodeParsed | docs/specs/pala-1/palaudit_ref.py:112-129 | bytes that parse are the encoding of what they parse to |
| Codec.DecodeTlvs | src/palimpsests/audit/pala/codec.py:118-137 | the offset loop accepts and returns exactly what the recursive parse does |
| Codec.DecodeEncoded | src/palimpsests/audit/pala/codec.py:283-363 | every header whose values fit its fields decodes from its encoding |
| Codec.EncodeDecoded | src/palimpsests/audit/pala/codec.py:283-363 | a header that decodes is the encoding of what it decodes to, byte for byte |
| Codec.WalkContainer | src/palimpsests/audit/pala/codec.py:386-412 | a container followed by bytes at which no record starts is walked to exactly its records and those bytes |
| Codec.CutContainer | src/palimpsests/audit/reader.py:818-847 | a container cut at any byte leaves exactly the records that end by the cut, and a remainder that is empty iff the cut is between records |
| Chain.VerifyChain | docs/specs/pala-1/palaudit_ref.py:331-434 | the loop over headers collects exactly what the header-by-header pass and its conclusion define |
| ChainReport.ReportIsExact | docs/specs/pala-1/palaudit_ref.py:331-434 | over every list of headers: breaks are the seqs, in order, of the headers whose prev_hash is not the hash of the one before, then the place of the first unreadable one; gaps those whose seq does not follow; uninterpretable those of another version or unknown type; violations each broken MUST under its name and key, header by header; count, head, completeness and lag are those of the headers walked |
| Chain.CleanIsGood | docs/specs/pala-1/palaudit_ref.py:331-414 | the pass reports nothing iff every header is sound at its position and linked to the one before, and then it has hashed them all |
| Chain.VerdictIsGoodChain | docs/specs/pala-1/palaudit_ref.py:331-434 | chain_ok iff the headers form a good chain, and then count and head are theirs |
| Chain.HeadPinsHistory | docs/specs/pala-1/palaudit_ref.py:331-414 | two good chains with the same head are the same headers |
| Chain.AnchorDiagnosis | docs/specs/pala-1/palaudit_ref.py:415-434 | complete iff this is the anchored history; lag k iff dropping exactly the last k records gives it |
| Chain.TruncationIsSeen | docs/specs/pala-1/palaudit_ref.py:415-434 | a truncated history is never complete and never given a lag |
| WriterInv.MaterializedIsEager | src/palimpsests/audit/pala_writer.py:1279-1295 | a deferred frontier, built late from the file and the pending hashes, is the eager one |
| WriterInv.CommitKeeps | src/palimpsests/audit/pala_writer.py:845-862 | a committed record leaves every field, the frontier included, in agreement with the history one record longer |
| WriterInv.StampIsRec | src/palimpsests/audit/pala_writer.py:815-843 | the next record is well-formed, numbered, linked to the head and meets the format's requirements |
| WriterCut.EmitKeeps | src/palimpsests/audit/pala_writer.py:777-813 | an accepted emit, cut or not, leaves disk, manifest and writer in agreement on the story with its record |
| WriterCut.EmitCrash | src/palimpsests/audit/pala_writer.py:1337-1408 | a crash after any operation and any byte of an emit leaves the story before the record, with it and the cut half done, or with the cut done |
| WriterCut.CutIsGood | src/palimpsests/audit/pala_writer.py:1337-1408 | a whole cut closes the live segment under an entry that describes it exactly and opens a successor holding its continuation |
| WriterCut.CutRecordDeclares | src/palimpsests/audit/pala_writer.py:1410-1460 | the staged continuation declares the predecessor's head, the next ordinal and the root over everything before it |
| WriterCut.NextNameIsLater | src/palimpsests/audit/pala_writer.py:1481-1504 | the next segment's name is free and its index is past every index the chain has used |
| WriterResume.LiveResumes | src/palimpsests/audit/pala_writer.py:639-773 | whatever a crash left, the live file resumes to one explicit state, half a cut folded back, unless its torn bytes hold the record magic again |
| WriterResume.ResumeKeeps | src/palimpsests/audit/pala_writer.py:542-601 | after an accepted resume disk, manifest and writer agree again on the same history |
| WriterResume.ResumeCrash | src/palimpsests/audit/pala_writer.py:542-601 | a crash inside a resume leaves what it found or what it wanted |
| WriterResume.ClosedVerdict | src/palimpsests/audit/pala_writer.py:542-601 | a closed segment refuses a resume iff it is the last one of a finished cut |
| WriterResume.OneFileAccepts | src/palimpsests/audit/pala_writer.py:542-773 | exactly one segment file accepts a resume iff the torn bytes hold no further magic and no other closed segment than the last of a finished cut is on disk |
| WriterResume.AcceptedKeepsRecords | src/palimpsests/audit/pala_writer.py:667-752 | on every byte string, an accepted resume keeps exactly the complete records, drops the rest and continues the last one's number and hash; the adopted segment, torn bytes, identity, policy and clock are what file and caller say |
| WriterResume.ClosedLosesTail | src/palimpsests/audit/pala_writer.py:710-773 | whatever bytes that start no record and hold no further magic follow the last segment of a finished cut, its resume is refused, and only after they are dropped |
| WriterResume.RecoverOnly | src/palimpsests/audit/pala_writer.py:710-728 | without leave to recover, a resume is the one with it on a file that ends with a record, and refused on any other |
| WriterManifest.StartingMeans | src/palimpsests/audit/pala_writer.py:263-314 | the starting frontier, exactly: empty at record 0, else the stored one of the last entry this file follows, when it covers what came before |
| WriterManifest.OrdinalMeans | src/palimpsests/audit/pala_writer.py:317-354 | the ordinal, exactly: 0 at record 0, else the declared index, else one past the first entry this file follows |
| WriterResume.CutThenResumed | src/palimpsests/audit/pala_writer.py:667-752 | of a container cut at any byte, an accepted resume keeps exactly the records that end by the cut |
| WriterResume.OpensDeclares | src/palimpsests/audit/pala_writer.py:317-354 | a segment's first record tells a resume which segment it opens |
| WriterRuns.RunKeeps | src/palimpsests/audit/pala_writer.py:777-862 | over every run of begin, write, crash, close, resume, crash in the resume and delete, with a rotation policy or none, disk, manifest, history and writer agree |
| WriterRuns.HistoryGrows | src/palimpsests/audit/pala_writer.py:777-813 | no event takes a durable record from the history |
| WriterRuns.NewestIsLive | src/palimpsests/audit/pala_writer.py:1481-1504 | the segment with the largest index on disk is the one to resume |
| WriterLaws.RunVerifies | docs/specs/pala-1/palaudit_ref.py:331-434 | whatever a run did, its headers verify with no break, gap or violation, count and head are the writer's, and undeleted segments concatenate to them |
| WriterLaws.RunRootIsExact | src/palimpsests/audit/pala_writer.py:1297-1322 | whatever a run did, with a policy or none, the root stated is the Merkle root over every record from seq 0, also after resumes, cuts and deletions |
| WriterLaws.LostManifestRefuses | src/palimpsests/audit/pala_writer.py:263-314 | resumed on a later segment after the manifest was lost, a writer continues the chain but knows no frontier |
| WriterLaws.RootlessStays | src/palimpsests/audit/pala_writer.py:1297-1322 | a writer that knows no frontier refuses to state a root, and no emit or cut of it changes that |
| WriterLaws.CutIsAtomic | src/palimpsests/audit/pala_writer.py:1337-1408 | wherever an emit stopped, a resume under a policy adopts the state before the record, with it, or after the cut |
| WriterLaws.CutsSeverNothing | src/palimpsests/audit/pala_writer.py:1462-1479 | when an event of a run cuts, a whole write or one that crashed after the rename, every span its writer had opened before the cut was ended before it |
| WriterSizes.SegmentsAreExact | src/palimpsests/audit/pala_writer.py:360-383 | over every run under max_records = n alone, with no span open at the threshold, closed segment i holds n records (later ones max(n, 2)) and one more for each crash that left it at the threshold uncut; exactly its quota iff there was no such crash |
| WriterSizes.SegmentsAreFull | src/palimpsests/audit/pala_writer.py:360-383 | over every run under max_bytes = b alone, with no span open at the threshold, a closed segment has at least b bytes; without its last record it had fewer, or was its continuation alone, iff no crash left it at the threshold uncut |
| WriterSizes.UncrashedIsExact | src/palimpsests/audit/pala_writer.py:1462-1479 | without a crash in a write, across closes, resumes and deletions, the first closed segment holds n records and later ones max(n, 2) |
| WriterSizes.UndoneCutGrows | src/palimpsests/audit/pala_writer.py:542-601 | under max_records = 2, a crash after the second record and before the rename ends in a closed segment of three records |
| WriterPolicy.CutsWhenReached | src/palimpsests/audit/pala_writer.py:1462-1479 | over every run, with any mix of thresholds: a write closes the live segment iff no span its writer opened is open after it and a threshold of its policy is reached by this write, or by an earlier one on this segment whose cut was put off; age counts from the reading at which the segment was begun, adopted or cut to |
| WriterPolicy.AgeAloneCuts | src/palimpsests/audit/pala_writer.py:1462-1479 | under max_age_s = a alone, with no span open, a write closes the live segment iff its monotonic reading is at least a past that one |
| WriterPolicy.PromptCuts | src/palimpsests/audit/pala_writer.py:360-383 | with no span open after any write to the segment, it is closed by the first write that reaches a threshold, and by no other |
| WriterPolicy.PutOffIsMade | src/palimpsests/audit/pala_writer.py:1462-1479 | a cut put off while a span was open is made by the first write that leaves none open, and the age restarts then |
| WriterNames.SegmentsAreNumbered | src/palimpsests/audit/pala_writer.py:1481-1504 | whatever was deleted, crashed or resumed, the segments of a run are numbered without a gap: the base name, then base.1, base.2 and so on |
| WriterNames.RefusedExactly | src/palimpsests/audit/pala_writer.py:777-800 | in every run a record is refused iff it is not GENESIS on an empty chain, is GENESIS on any other, or is not BOOT and the first of a writer that adopted the chain |
| WriterRecords.WrittenCarries | src/palimpsests/audit/pala_writer.py:815-843 | what every write of a run leaves in the history, field by field: numbering, link, identity, spans, both clocks, digest, items and body |
| WriterRecords.CutContinues | src/palimpsests/audit/pala_writer.py:1410-1460 | whenever a write closes the live segment, the next record is an engine event that a reader sees declaring the next index, the head and root of everything before it, and the retention and thresholds of the policy |
| WriterLaws.OldSegmentAccepts | src/palimpsests/audit/pala_writer.py:542-601 | after two cuts both the newest segment and the first one accept a resume |
| WriterLaws.TornGenesisIsStuck | src/palimpsests/audit/pala_writer.py:484-491 | the run that begins a chain and crashes inside its first record leaves a file that neither begins nor resumes |
| WriterLaws.TornMagicIsStuck | src/palimpsests/audit/pala_writer.py:710-752 | the run whose second record crashes just after the magic its body opens with leaves a file that neither begins nor resumes |
| WriterLaws.RefusalShortens | src/palimpsests/audit/pala_writer.py:710-773 | one cut, one stray byte after the closed segment: the resume of that segment is refused and the byte is gone |
| WriterLaws.GoesOnIff | src/palimpsests/audit/pala_writer.py:484-491 | in every state a run can reach with no writer alive, the live file can be begun or resumed iff no bytes are torn, or they follow a record and do not hold the record magic again |
| WriterObject.PalaWriter.Emit | src/palimpsests/audit/pala_writer.py:777-813 | the object's emit computes the emit function on fields and files, refuses exactly what it refuses, and returns the record's seq and hash |
| WriterObject.PalaWriter.CommitLocked | src/palimpsests/audit/pala_writer.py:845-862 | the fields after a commit, the lazily built frontier included |
| WriterObject.PalaWriter.MaybeRotateLocked | src/palimpsests/audit/pala_writer.py:1462-1479 | the object's policy step computes the policy function, nothing, put off, or a cut, of which WriterPolicy.CutsWhenReached says when |
| WriterObject.PalaWriter.RotateCore | src/palimpsests/audit/pala_writer.py:1337-1408 | the cut puts manifest, staged successor and rename to the file system in that order and moves the fields |
| WriterObject.PalaWriter.ContinuationLocked | src/palimpsests/audit/pala_writer.py:1410-1460 | the staged continuation, None when the ordinal or every frontier is unknown |
| WriterObject.PalaWriter.MaterializeFrontier | src/palimpsests/audit/pala_writer.py:1279-1295 | the rescan loop and the replay of pending hashes compute the materialised state |
| WriterObject.PalaWriter.NextSegmentPath | src/palimpsests/audit/pala_writer.py:1481-1504 | the loops over listed names and free indices compute the next index |
| WriterObject.PalaWriter.ComputeChainRoot | src/palimpsests/audit/pala_writer.py:1297-1322 | the root or a refusal, as the chain root function says |
| WriterObject.OpenExisting | src/palimpsests/audit/pala_writer.py:639-773 | the scan, the torn-tail decision, the manifest and the fold-back compute the resume function; a refusal of an empty file, or by the scan or the torn-tail rule, changes nothing, and every other refusal has dropped exactly the bytes after the last complete record |
| WriterObject.BeginChain | src/palimpsests/audit/pala_writer.py:455-505 | a new writer is refused exactly on a file that holds bytes, and otherwise starts in the state of an empty chain with the listed entries |
| WriterObject.ScanSegment | src/palimpsests/audit/pala_writer.py:667-709 | the scan loop finds the records of the walk and grows the frontier along the way |
| WriterObject.FindStartingFrontier | src/palimpsests/audit/pala_writer.py:263-314 | the last listed entry whose head this file follows decides the starting frontier |
| WriterObject.FindOrdinal | src/palimpsests/audit/pala_writer.py:317-354 | the ordinal from the start, the declared index, or the manifest, in that order |
| Reader.DecodeFully | src/palimpsests/audit/reader.py:2159-2239 | the loop over body items gives every field the first fitting value of its tag |
| ReaderFields.DecodedShows | src/palimpsests/audit/reader.py:2159-2239 | every field of the full decode, on every record, in terms of header and body items: first fitting items, an outcome of tool results only, source 0 where a tool call or result names none, nothing from a body that is encrypted, absent or malformed |
| ReaderFields.ContinuationDeclares | src/palimpsests/audit/reader.py:2258-2286 | a continuation is usable iff the first item of each of the four tags has its width, and then the view holds exactly those values |
| Reader.TlvSpans | src/palimpsests/audit/reader.py:465-485 | the in-place spans are None exactly when the body does not parse, and otherwise its items |
| Reader.FieldsAt | src/palimpsests/audit/reader.py:487-506 | the in-place header read accepts exactly the headers the decoder accepts, with the same fields |
| Reader.HeaderSpans | src/palimpsests/audit/reader.py:1699-1719 | the header's items read in place are the decoded header's |
| Reader.HasTlv | src/palimpsests/audit/reader.py:451-463 | the in-place search finds a tag iff the parsed items have it |
| Reader.FieldsInPlace | src/palimpsests/audit/reader.py:1737-1775 | kind, source, outcome, detail and body items equal those of the full decode, on every container |
| Reader.ProbeIsKind | src/palimpsests/audit/reader.py:1815-1837 | the probe equals the decoded kind, except exactly on a body that opens with its kind while it or its header does not parse |
| ReaderObject.WalkContainerInPlace | src/palimpsests/audit/reader.py:818-847 | the walk indexes the same records as the writer's resume scan and reports where it stopped |
| ReaderObject.AuditReader.RecordFieldsAt | src/palimpsests/audit/reader.py:1656-1680 | whatever is cached, the fields are those of the decoded record |
| ReaderObject.AuditReader.DecodeAll | src/palimpsests/audit/reader.py:1539-1546 | the whole chain is decoded record by record, and kept for later calls |
| ReaderObject.AuditReader.Positions | src/palimpsests/audit/reader.py:987-990 | the map gives every seq that occurs the position of its last occurrence |
| ReaderObject.AuditReader.CheckReferenceInPlace | src/palimpsests/audit/reader.py:1198-1257 | the in-place reference check yields exactly the items of the decoded one |
| ReaderObject.ReferenceSays | src/palimpsests/audit/reader.py:1133-1196 | what the reference check reports of a record: nothing when it binds no reference, else at most one item, of exactly the code that applies: no record of that seq, another hash, an acknowledged record that is no candidate, a result or loop guard whose target is no tool call |
| ReaderObject.AuditReader.BuildOriginIndex | src/palimpsests/audit/reader.py:2014-2048 | one pass lists the decodable records with their running maximum seq and exactly the records that set the origin |
| ReaderObject.AuditReader.OriginStateAt | src/palimpsests/audit/reader.py:1981-2003 | two binary searches and one decode give the linear walk's answer, for seqs in any order and repeated, iff the index is warm, or the record found is not misread, or is right by chance; always when no record is misread; an origin returned shows role, model and config digest, seq and detail of one record, and then of the record in force |
| ReaderObject.WalkSays | src/palimpsests/audit/reader.py:1981-2003 | the linear walk answers from the last load, unload or digest-bearing event before the first decodable record past the seq: none, unloaded, or exactly what that record shows |
| ReaderObject.AnswerIsRight | src/palimpsests/audit/reader.py:1981-2003 | per query: the answer taken from the index is the linear walk's iff that record is not a misread one on a cold reader, or the last real setter before it leaves the same state |
| ReaderObject.IndexAnswers | src/palimpsests/audit/reader.py:1981-2003 | the last setter listed before the first place the running maximum passes the seq is the one the answer is taken from, whatever the index lists |
| ReaderObject.SeenIsSet | src/palimpsests/audit/reader.py:2014-2048 | per record: the cold index and the linear walk agree on whether it sets the state, and how, iff it is not a misread load or unload; the warm index always agrees |
| ReaderObject.IndexIsExact | src/palimpsests/audit/reader.py:2014-2048 | the index lists exactly the records that set the origin, with their unload flags, iff it was built warm or no record is misread |
| ReaderObject.IndexMisreads | src/palimpsests/audit/reader.py:1815-1837 | one byte too many after MODEL_LOAD makes the cold index report a load the linear walk does not see |
| ReaderSegments.CheckContinuations | src/palimpsests/audit/reader.py:1023-1100 | the report, on any list of records: in file order a malformed or mismatching predecessor for each record that is one, then an index that does not increase or leaves a gap for each adjacent pair of well-formed ones, then, on a chain from GENESIS, a wrong root for each view whose root is not the recomputed one, by seq; nothing iff everything declared is sound |
| ReaderSegments.CompareRoots | src/palimpsests/audit/reader.py:1078-1099 | the one frontier walk reports, by seq, exactly the views whose declared root is not the root over the records before them |
| ReaderSegments.OwnSegmentsAreSound | src/palimpsests/audit/pala_writer.py:1410-1460 | on any history whose continuations are exactly the openings of its segments there is nothing to report |
| ReaderRuns.RunSegmentsAreSound | src/palimpsests/audit/reader.py:1023-1100 | whatever a run did, when its callers left continuations to the writer and nothing was deleted, the reader's check on the segments as they lie on disk takes them for the whole chain and has nothing to report, with one continuation a cut |
| ReaderRuns.SurvivorsAreSound | src/palimpsests/audit/reader.py:1023-1100 | the same on the segments from any one on, with earlier ones deleted: no longer taken for the whole chain, nothing to report, and each continuation names its predecessor's head and the root over all records before it, the deleted ones included |
| Log.ParseCanonical | src/palimpsests/audit/log.py:208-225 | the canonical form of any list of optional texts reads back as that list |
| Log.StoredForms | src/palimpsests/audit/log.py:208-225 | the marker bytes, the length of eight bytes with the most significant first, and the lower-case digits of a digest |
| Log.FirstRowHash | src/palimpsests/audit/log.py:228-254 | a row's hash covers its predecessor's hash and then its own fields |
| Log.CanonicalBytes | src/palimpsests/audit/log.py:208-225 | the extending loop builds the canonical form |
| Log.HeadPinsRows | src/palimpsests/audit/log.py:228-254 | two consistent row lists with the same head hold the same rows in the same order |
| Log.Verify | src/palimpsests/audit/log.py:522-613 | the first inconsistent row, the anchor comparison and the lag, as the row list and anchor decide |
| Log.AnchorDecides | src/palimpsests/audit/log.py:565-613 | accepted against an anchored history iff these are its rows; lag k iff dropping the last k rows gives it |
| Log.RunKeeps | src/palimpsests/audit/log.py:404-459 | over any interleaving of processes and failed anchor writes the rows stay one growing chain and the anchor never moves back |
| Log.LagIsBounded | src/palimpsests/audit/log.py:404-459 | while anchor writes succeed, the rows past the anchor number at most the sum of anchor_every - 1 over the processes |
| Log.VerifyAfterRun | src/palimpsests/audit/log.py:522-613 | after any such run the reported lag is exactly the number of rows after the anchored one |
| Log.OthersStand | src/palimpsests/audit/log.py:404-459 | a step of one process leaves the fields of every other as they were |
| Log.AuditLog.VerifyLog | src/palimpsests/audit/log.py:522-613 | on the object's own table and anchor, the verdict those two decide |
| LogRuns.ProcessesRemember | src/palimpsests/audit/log.py:404-459 | over any run: what a process wrote last is the hash of the row its last append inserted, none before any; its counter is the appends since its last one that moved the anchor; its failures are the due anchors that could not be stored |
| LogRuns.AnchorsOnSchedule | src/palimpsests/audit/log.py:404-459 | an append adds its row at the end and moves the anchor to it iff it is the anchor_every-th since the last that did, or later, and the keychain took it |
| LogRuns.ClosesOwnHead | src/palimpsests/audit/log.py:615-635 | a close moves the anchor to the last row iff its process appended that row and the keychain took it; otherwise the anchor stays, and the table always does |
| LogRuns.ClosedLogVerifies | src/palimpsests/audit/log.py:522-613 | after an append and a stored close of the same process, verify accepts with the anchor on the last row and no lag |
| Log.AuditLog.Record | src/palimpsests/audit/log.py:404-459 | the row inserted, the counters, and whether the anchor moved to it: the step the run theorems are about |
| Log.AuditLog.CloseLog | src/palimpsests/audit/log.py:615-635 | the step of a close in those theorems: the anchor moves only to this process's own last row, and only while that is the head |
| Jcs.JcsString | docs/interop/aac-verification-run-2/aac_verify_ref.py:128-152 | the appending loop builds the escaped, quoted string |
| Jcs.JcsReadsBack | docs/interop/aac-verification-run-2/aac_verify_ref.py:161-190 | a parser undoes the printer, and what it reads is equal to what was printed |
| Jcs.JcsDecidesEquality | docs/interop/aac-verification-run-2/aac_verify_ref.py:161-190 | two values print alike iff they are equal as JSON values: independent of member order, and injective |
| Jcs.JcsIsPrint | docs/interop/aac-verification-run-2/aac_verify_ref.py:161-190 | the printer refuses exactly values with a float or an unsafe integer, and otherwise prints the canonical order |
| Jcs.JcsExample | docs/interop/aac-verification-run-2/aac_verify_ref.py:161-190 | one object printed: members in order of code units where code points differ, escapes, a negative number, literals and separators |
| Jcs.SortIsStrict | docs/interop/aac-verification-run-2/aac_verify_ref.py:155-158 | distinct names of Unicode scalar values are strictly ordered by their UTF-16 code units |
| Jcs.EnvelopeIgnored | docs/interop/aac-verification-run-2/aac_verify_ref.py:204-213 | a top-level member named capsule_id, signature or key_id is no part of the identity form; every other member stays, in its place |
| Jcs.IdentityPinsCapsule | docs/interop/aac-verification-run-2/aac_verify_ref.py:193-213 | capsules with the same recomputed id agree on every top-level member but capsule_id, signature and key_id |
| Reporter.ReporterObject.Observe | integrations/litellm/palimpsests_audit.py:132-171 | one completion's messages and then its calls, in place, as the input-by-input function says |
| Reporter.ReportsArePaired | integrations/litellm/palimpsests_audit.py:132-171 | over any observations each id gets its first named call, then one result iff a tool message was seen, with the first message's content |
| Reporter.OrderDoesNotMatter | integrations/litellm/palimpsests_audit.py:132-171 | histories that agree per id on the first named call and first tool message send the same events about it |
| Reporter.ObservationsJoin | integrations/litellm/palimpsests_audit.py:132-171 | what one completion and the next send about an id is together what all their inputs call for |
| TimeHealth.Boots | src/palimpsests/audit/timehealth.py:85-96 | the rows are cut into maximal runs of one boot id, losing none |
| TimeHealth.RunsAreUnique | src/palimpsests/audit/timehealth.py:85-96 | that cut is forced: two cuts of the same rows into maximal runs are the same cut |
| TimeHealth.DriftPoints | src/palimpsests/audit/timehealth.py:99-113 | the points start at zero and move by each claim's wall clock jump against the monotonic clock |
| TimeHealth.CatalogOf | src/palimpsests/audit/timehealth.py:132-157 | the loop over one boot's claims builds the catalog the claim-by-claim function defines |
| TimeHealth.ClaimsAreRows | src/palimpsests/audit/timehealth.py:132-138 | the claims of a boot are, in order, the seq and both clocks of its rows whose wall clock is set |
| TimeHealth.CatalogIsExact | src/palimpsests/audit/timehealth.py:132-157 | the catalog of a boot, exactly: an event falls on a claim iff the wall clock moved backwards there, or the drift moved by 128 ms, or it has moved that far since the claim of the last event; its kind, seq and size, in order |
| TimeHealth.CatalogsJoin | src/palimpsests/audit/timehealth.py:132-157 | the catalogs of several boots follow one another, nothing carried over, dropped or moved |
| TimeHealth.StepCatalog | src/palimpsests/audit/timehealth.py:132-157 | the catalog of a log is that of its maximal boot runs in order, no baseline carried across a boot |
| TimeHealth.CatalogBoundsDrift | src/palimpsests/audit/timehealth.py:132-157 | drift differs from reported steps, slews and jumps at regressions by less than 128 ms times (1 + steps + regressions) |
| TimeHealth.QuietBootStaysWithin | src/palimpsests/audit/timehealth.py:132-157 | a boot with no catalogued event has every drift point strictly within 128 ms |
| TimeHealth.EventsMeanWhatTheySay | src/palimpsests/audit/timehealth.py:132-157 | a regression is a place where the wall clock moved backwards, with its size; any other event is at least 128 ms |
| TimeHealth.RegressionsAreListed | src/palimpsests/audit/timehealth.py:132-157 | every place where the wall clock moved backwards is catalogued |

## Left out

- SHA-256, AES-GCM, SQLCipher, COSE, PKCS#11 and the keychain: foreign calls. The hash is a parameter, a
  keychain write succeeds or fails as its caller says.
- Threads, file locks, fsync and mmap: a locked append, emit or hook is one step.
- Packing errors: values and lengths are required to fit their fields (`EmitFits`, `Fits`), where the code
  would raise.
- File names are structured (`Base`, `Seg(stem, n)`, `Tmp(of)`), not text, and a segment's number is not
  limited to five digits. Which successor a refusal names is not modelled, only that there is one.
- The segments manifest is a list of entries replaced in one step; its JSON text, format marker and
  unreadable cases are not part of this model. A new writer on a base name that already has a manifest
  starts from its entries without the fold-back.
- Resumes without a policy of a chain that has a manifest, on another segment than the newest, or after
  the manifest was lost, and hand-named rotations: `OpenExisting` covers any file and any disk, the theorems
  over runs do not.
- A second chain begun on a base name that was deleted beside later segments: a new writer looks only at
  the file it opens and accepts it (`WriterLaws.CreateIs`), the runs are about one chain.
- WriterRuns.RunKeeps: asks that the hash has no collision among the headers the run wrote; a colliding
  resume could find the wrong predecessor.
- WriterSizes.SegmentsAreFull: for a threshold in bytes alone, as the record law is for one in records alone;
  several thresholds at once and max_age_s have no size law (when they cut is `WriterPolicy.CutsWhenReached`).
- ReaderRuns.RunSegmentsAreSound: asks that no caller emitted a record of kind SEGMENT_CONTINUATION
  itself; the writer does not stop one.
- ReaderRuns.SurvivorsAreSound: asks the same, and speaks of the segments after the last deleted one; what
  the reader says of a chain with a hole in the middle is not stated.
- The rest of the referential pass (shred targets, acknowledgements), the structural views, diagnosis
  sentences and name tables: they read the same decoded fields. UTF-8 decoding of detail texts is not
  modelled, they stay bytes.
- Log rows are identified by position instead of their id; credential scrubbing and clipping of error
  texts happen before a row is formed.
- Jcs.JcsDecidesEquality: for strings of Unicode scalar values; a lone surrogate is refused when the text
  is encoded.
- The structural and cross-party checks of a capsule beyond its identity, and the least-squares slope of
  the drift series (floating point).
- The transport of the LiteLLM reporter, the conversion of odd content and argument values to text.
