# Techtree: a verified model

A Dafny 4.11 model of the parts of Techtree whose correctness is hardest to see, with proofs of what they promise.
`dafny verify dfyconfig.toml` checks all of it.

- **Keccak-256 and EIP-55.** `PyInt` gives Python's unbounded integers bit by bit; `KeccakSpec` is FIPS 202 at bit level;
  `Keccak` is the lane code on a 5x5 grid changed in place, proved equal to the standard for every message;
  `KeccakBijection` inverts every step mapping and so the permutation; `Address` is the checksum built on it.
- **Controlled comparison.** `Json`, `Pointer` and `Diff` are the recursive walk and its RFC 6901 paths; `DiffProperties`
  says what the list of differences means; `Manifests`, `Compare` and `Builder` are the two documents being compared, the
  comparison, and the derivation that always satisfies it; `Verdict` says what the comparison means field by field.
- **Publication.** `JournalText` and `Journal` are the append-only journal down to its bytes, and `EntryReader` reads an entry
  back by the JSON grammar alone; `Publication` is the run
  directory over any number of attempts, lost answers and deaths.
- **Engines.** `Bundle` is the walk, the enumeration and the copy; `Installer` is the engines directory, where a process may
  die after every step.
- **Drafts.** `StartClaim` and `DraftCreation` are transition systems over any number of processes; `Snapshot` is offline
  verification and what it commits a draft to.

A death is a nondeterministic return in a class method that is told its process is mortal, and an action of its own in a
transition system. A method that returns `Dead`, `Gone`, `Died` or `Torn` has stopped at that point; its postconditions say
what is on disk then, and that only a mortal process comes to that.

## What the proofs found

Each of these is a lemma with the exact condition beside it.

- A journal append that dies after the closing brace and before the line break is read back as complete, and the next append
  is written onto the same line, which nothing can read again (`Journal.LostLineBreak`). Appending is safe exactly when
  nothing but JSON blanks follows the last line break (`Journal.ReadAfterAppend`).
- Two publishers at once can take one sequence number, and the journal is then unreadable (`Journal.TwoPublishersCollide`). A
  history reads back exactly when its sequences are 0, 1, 2, and so on (`Journal.HistoryReadsExactly`).
- The receipt is created exclusively and then written, so a death in between leaves a file that no retry matches. A retry
  converges exactly when the file is absent or already complete (`Publication.RunDirectory.Publish`, `RunAll`).
- `start.json` is created exclusively and then written, so a death in between leaves a draft that can never be started
  (`StartClaim.StuckForGood`). It can still be started exactly when no such death happened (`StartClaim.StartableExactly`).
- Engine recovery takes `remove_tree` for one step. Caught half-way it keeps the invariants exactly as
  `Installer.TornRemovalExactly` says, and what it leaves without record and marker is never discarded by commands for other
  engines (`Installer.Engines.RunAll`).
- `install` records an engine without hashing it again after the sync, so a record means that the directory hashes to its name
  exactly when the sync left alone what the digest covers (`Installer.BuildHashesExactly`).
- The reported differences do not tell a null from an absent member (`DiffProperties.NullHidesAbsence`). They determine the
  candidate exactly when no member and no end of an array is reported with null against something else
  (`DiffProperties.DeterminedExactly`), and two documents reported alike are the same exactly when their nulls are in the same
  places (`DiffProperties.ReportDetermines`).
- The document root shares the spelling `/` with the key "", and no two other places share one (`Pointer.SpellInjective`).
- The comment on `_same_scalar` says that 1 and 1.0 differ; the code equates integers and floats, and the model follows the
  code. Types disagree exactly when one side is the other's integer as a float (`Json.TypesAgreeExactly`), and documents
  compare as the same exactly when they are equal once such floats are written as integers (`Json.SameIsEqualNormal`).
- `verify_snapshot` says it checks every cross-object invariant. It pins a stored comparison by two digests and one flag
  (`Snapshot.ComparisonPinnedExactly`), does not look at files the artifact does not list (`Snapshot.UnlistedFilesPass`), and
  does not compare the candidate skill with the reference in the candidate manifest: any skill that stands on its own passes
  (`Snapshot.AnySkillTakesItsPlace`, with a draft in `Snapshot.DisagreeingDraft`).

## Model

| member | source | states |
|---|---|---|
| `KeccakTables.RotationsAreGenerated` | src/techtree/publication/keccak.py:46-53 | every rotation in the table is the offset that the walk of FIPS 202 section 3.2.2 generates for that lane |
| `KeccakTables.RoundConstantsAreGenerated` | src/techtree/publication/keccak.py:55-80 | every bit of every round constant is the bit that the register of FIPS 202 section 3.2.5 (algorithms 5 and 6) generates |
| `KeccakLanes.RotateBits` | src/techtree/publication/keccak.py:180-183 | on a 64-bit lane, `_rotate` moves bit z to bit z + places, cyclically |
| `KeccakLanes.ThetaRefines` | src/techtree/publication/keccak.py:150-160 | xoring each lane with its two column lanes is the bit-level theta of FIPS 202 section 3.2.1 |
| `KeccakLanes.RhoPiRefines` | src/techtree/publication/keccak.py:163-168 | moving each rotated lane to its new place is bit-level rho followed by pi |
| `KeccakLanes.ChiRefines` | src/techtree/publication/keccak.py:171-177 | the masked complement formula on lanes is bit-level chi |
| `KeccakLanes.IotaRefines` | src/techtree/publication/keccak.py:147 | xoring the table's constant into lane (0, 0) is bit-level iota |
| `Keccak.Theta` | src/techtree/publication/keccak.py:150-160 | the in-place loop computes theta of the old state and keeps every lane below 2^64 |
| `Keccak.RhoAndPi` | src/techtree/publication/keccak.py:163-168 | the fresh grid holds pi of rho of the state, every lane below 2^64 |
| `Keccak.Chi` | src/techtree/publication/keccak.py:171-177 | the in-place loop computes chi of the old state and keeps every lane below 2^64 |
| `Keccak.Round` | src/techtree/publication/keccak.py:143-147 | one iteration is one round of KECCAK-p[1600], lanes still below 2^64 |
| `Keccak.Permute` | src/techtree/publication/keccak.py:141-147 | the loop over the constants is the 24-round KECCAK-f[1600] |
| `Keccak.Blocks` | src/techtree/publication/keccak.py:98-114 | at least one block, each of exactly 136 bytes, and together they are the message followed by pad10*1 (FIPS 202 section 5.1) |
| `Keccak.Absorb` | src/techtree/publication/keccak.py:117-124 | xors the block, and nothing beyond the rate, into the state's bits |
| `Keccak.Squeeze` | src/techtree/publication/keccak.py:127-138 | the 32 bytes are the first 256 bits the sponge squeezes |
| `Keccak.Keccak256` | src/techtree/publication/keccak.py:85-95 | for every byte string the result is KECCAK[512](M, 256) of FIPS 202 section 5.2 at bit level |
| `KeccakPadding.TailBits` | src/techtree/publication/keccak.py:106-110 | the byte-wise tail 0x01, zeros, 0x80 (one byte 0x81 when only one is missing) is pad10*1 bit for bit |
| `KeccakPadding.UnpadPad` | src/techtree/publication/keccak.py:98-110 | unpadding a padded string of bits gives it back, for every rate |
| `KeccakPadding.PaddingInjective` | src/techtree/publication/keccak.py:98-114 | two messages with the same padded bits are the same message |
| `KeccakBijection.SixtyFourthPowerCubed` | src/techtree/publication/keccak.py:151-157 | on column parities, the 64th power of theta's linear map has cube one, so its order divides 192 |
| `KeccakBijection.ParityInverseLeft` | src/techtree/publication/keccak.py:151-157 | the explicit product of squarings undoes theta's map on column parities |
| `KeccakBijection.ParityInverseRight` | src/techtree/publication/keccak.py:151-157 | and is undone by it |
| `KeccakBijection.ThetaLeft` | src/techtree/publication/keccak.py:150-160 | ThetaInverse undoes theta on every 1600-bit state |
| `KeccakBijection.ThetaRight` | src/techtree/publication/keccak.py:150-160 | theta undoes ThetaInverse, so theta is onto |
| `KeccakBijection.RhoLeft` | src/techtree/publication/keccak.py:163-168 | RhoInverse undoes rho |
| `KeccakBijection.RhoRight` | src/techtree/publication/keccak.py:163-168 | rho undoes RhoInverse |
| `KeccakBijection.PiLeft` | src/techtree/publication/keccak.py:163-168 | the 25 lanes go to 25 different places: PiInverse undoes pi |
| `KeccakBijection.PiRight` | src/techtree/publication/keccak.py:163-168 | and every place is reached |
| `KeccakBijection.ChiLeft` | src/techtree/publication/keccak.py:171-177 | ChiInverse undoes chi on every row of every state |
| `KeccakBijection.ChiRight` | src/techtree/publication/keccak.py:171-177 | and chi undoes it |
| `KeccakBijection.IotaTwice` | src/techtree/publication/keccak.py:147 | iota is an involution |
| `KeccakBijection.RoundLeft` | src/techtree/publication/keccak.py:143-147 | RoundInverse undoes one round |
| `KeccakBijection.RoundRight` | src/techtree/publication/keccak.py:143-147 | and is undone by it |
| `KeccakBijection.PermutationIsBijective` | src/techtree/publication/keccak.py:141-147 | KECCAK-f[1600] is one to one and onto, with an explicit inverse |
| `Address.Hash` | src/techtree/publication/address.py:162 | the lane code returns the digest that the checksum is defined over |
| `Address.ChecksumKeepsAddress` | src/techtree/publication/address.py:159-168 | the checksummed spelling differs from the address in letter case only |
| `Address.ChecksumIgnoresCase` | src/techtree/publication/address.py:161-162 | it does not depend on how the address was typed |
| `Address.ChecksumIsFixpoint` | src/techtree/publication/address.py:159-168 | the checksummed spelling is its own checksum |
| `Address.ChecksumFollowsDigest` | src/techtree/publication/address.py:159-168 | letter i is upper case exactly when the highest bit of the i-th hexadecimal digit of the standard's own digest of the lower-case address is set; digits and the prefix stay as typed |
| `Address.StripExactly` | src/techtree/publication/address.py:79 | what is trimmed is white space at either end, and all of it, white space being the 29 characters of `str.isspace` |
| `Address.SingleCaseExactly` | src/techtree/publication/address.py:88-89 | one case throughout means no upper-case letter, or no lower-case one |
| `Address.RefusedExactly` | src/techtree/publication/address.py:79-102 | refused for its shape exactly when, trimmed, it is not 0x and forty hexadecimal digits; for its checksum exactly when it is in mixed case and not the checksummed spelling |
| `Address.AcceptedExactly` | src/techtree/publication/address.py:72-103 | a typed address is accepted exactly when, trimmed, it is well shaped and either in one case or some address's checksummed spelling; what is returned is its lower case |
| `Address.RecasedIsRefused` | src/techtree/publication/address.py:89-103 | of the mixed-case spellings of one address at most one is accepted |
| `Address.CanonicalIdempotent` | src/techtree/publication/address.py:72-103 | the canonical form is accepted as itself |
| `Pointer.UnescapeEscape` | src/techtree/manifests/compare.py:83-89 | unescaping (RFC 6901 section 4) undoes `json_pointer_escape` |
| `Pointer.RenderInjective` | src/techtree/manifests/compare.py:200 | two token lists with the same rendering are the same list |
| `Pointer.WithinIsPrefix` | src/techtree/manifests/compare.py:118-127 | containment of the text is containment of the tokens; the one exception is the document root, written `/`, which is also within the root that names the key "" |
| `Pointer.SpellInjective` | src/techtree/manifests/compare.py:247-250 | what is reported names one place, except that the document root and the key "" share a spelling |
| `Json.TypesAgreeExactly` | src/techtree/manifests/compare.py:231-241 | two scalars that compare as the same are of one type exactly when neither is the other's integer written as a float; 1 and 1.0 are the instance |
| `Json.SameIsEqualNormal` | src/techtree/manifests/compare.py:231-241 | two documents compare as the same exactly when they are equal once integral floats are written as integers |
| `Json.SameIsEquality` | src/techtree/manifests/compare.py:231-241 | on decoded canonical documents that is equality |
| `Json.DecimalReadsBack` | src/techtree/manifests/compare.py:217 | an index is written as digits that read back as the index, with no needless zero in front |
| `Diff.DiffValues` | src/techtree/manifests/compare.py:92-115 | the list built is exactly the specified list of changes, each with its rendered pointer |
| `Diff.DiffObjects` | src/techtree/manifests/compare.py:193-209 | the same for two objects, over the sorted union of their keys |
| `Diff.DiffArrays` | src/techtree/manifests/compare.py:212-228 | the same for two arrays, over the indexes of the longer one |
| `Diff.ChangesExact` | src/techtree/manifests/compare.py:92-115 | a change is in the list exactly when following its path through both documents finds that disagreement |
| `Diff.ChangesDistinct` | src/techtree/manifests/compare.py:193-228 | no path is reported twice |
| `Diff.NoneWithinAnother` | src/techtree/manifests/compare.py:92-115 | no reported path lies within another |
| `Diff.ChangeIsReal` | src/techtree/manifests/compare.py:99-115 | every reported change is what the two documents hold at its path, and they disagree there |
| `Diff.NoChangeMeansSame` | src/techtree/manifests/compare.py:92-115 | nothing disagrees along any path exactly when the documents are the same |
| `DiffProperties.EmptyMeansSame` | src/techtree/manifests/compare.py:92-115 | the list is empty exactly when the documents are the same |
| `DiffProperties.CoveredTakesCandidate` | src/techtree/manifests/compare.py:92-115 | at or below a change, the candidate holds what the change says |
| `DiffProperties.UncoveredKeepsBaseline` | src/techtree/manifests/compare.py:92-115 | at a path no change covers, both documents hold the same node |
| `DiffProperties.PatchGivesCandidate` | src/techtree/manifests/compare.py:92-115 | one lookup in the candidate, from the list where it covers the path and from the baseline where it does not |
| `DiffProperties.ChangesDetermine` | src/techtree/manifests/compare.py:92-115 | with absence told apart from null, a baseline and its changes determine the candidate |
| `DiffProperties.ReportDetermines` | src/techtree/manifests/compare.py:201-204 | two object documents reported alike against one baseline are the same exactly when their nulls are in the same places |
| `DiffProperties.UnblankedReportDetermines` | src/techtree/manifests/compare.py:201-204 | a report that never puts null against something else determines the candidate, whatever nulls the documents hold |
| `DiffProperties.DeterminedExactly` | src/techtree/manifests/compare.py:92-115 | the report determines the candidate exactly when no member and no end of an array is reported with null against something else |
| `DiffProperties.NullHidesAbsence` | src/techtree/manifests/compare.py:201-204 | the failing instance: a dropped member and a member set to null are reported alike |
| `DiffProperties.NonInterference` | src/techtree/manifests/compare.py:92-115 | every change lies under a member path exactly when erasing that path from both documents leaves the same document |
| `Manifests.ConfigurationJsonKeeps` | src/techtree/manifests/compare.py:256-261 | two configurations have the same document exactly when they are the same field by field: the shared fields, the mutation contract, the agents' names, each agent's fields, and each skill reference's digest, media type, size and path |
| `Manifests.FieldsByName` | src/techtree/models/experiment.py:70-80 | each field of a configuration stands in its document under its own name |
| `Manifests.AgentFieldsByName` | src/techtree/models/campaign.py:228-234 | and each field of an agent and its harness |
| `Manifests.SkillFieldsByName` | src/techtree/models/base.py:164-170 | and each field of each skill reference, in order |
| `Manifests.ContractFieldsByName` | src/techtree/models/campaign.py:331-338 | and each field of the mutation contract |
| `Verdict.ControlledExactly` | src/techtree/manifests/compare.py:130-166 | a pair is controlled exactly when the variants, shared fields and skill counts hold, the subject's skills differ, and taskset, environment, execution, scoring, evidence, budgets, mutation contract, agent names and everything else of every agent agree |
| `Verdict.ErasedConfiguration` | src/techtree/manifests/compare.py:118-127 | with the subject's skill list erased, two documents are the same exactly when the configurations agree in every field but that list |
| `Verdict.SharedFieldByField` | src/techtree/manifests/compare.py:286-313 | each shared field is named in the report exactly when that field of the two manifests differs |
| `Compare.VariantViolations` | src/techtree/manifests/compare.py:269-283 | names each side that carries the wrong variant, and is empty exactly when both are right |
| `Compare.SharedFieldViolations` | src/techtree/manifests/compare.py:286-313 | names exactly the shared fields that differ |
| `Compare.SkillCountViolations` | src/techtree/manifests/compare.py:316-365 | names exactly the broken skill-count rules of the mutation kind |
| `Compare.PointerViolations` | src/techtree/manifests/compare.py:368-376 | names exactly the reported places outside every permitted root |
| `Compare.NoneRefused` | src/techtree/manifests/compare.py:368-376 | no reported place is refused exactly when every change lies under the subject's skill list |
| `Compare.CompareManifests` | src/techtree/manifests/compare.py:130-166 | controlled exactly when the variant, shared-field and skill-count invariants hold, the configurations differ, and erasing the skill list from both leaves the same document; the differences are the whole list in pointer order; an objection is in the report exactly when its own rule is broken |
| `Builder.MatchesExactly` | src/techtree/manifests/builder.py:302-382 | `assert_manifest_matches_campaign` accepts exactly the manifests that equal the Campaign outside the target's skill list |
| `Builder.FirstDifferenceReported` | src/techtree/manifests/builder.py:302-382 | of a manifest that is refused, the first of the fourteen comparisons that fails is what is reported |
| `Builder.BaselineRefused` | src/techtree/manifests/builder.py:162-181 | for any Campaign at all, the baseline is built exactly when the target agent is there with the number of skills its contract starts from, the digest is the Campaign's, and the subject's skill count is one the manifest takes; otherwise the first of these that fails is reported |
| `Builder.CandidateRefused` | src/techtree/manifests/builder.py:184-255 | and the candidate exactly when, besides, the skill has content under its own digest, differs from the one replaced, and one skill is permitted, with the refusals in that order |
| `Builder.TotalSizeAdds` | src/techtree/manifests/builder.py:133 | the size a reference states is the sum of the files' sizes |
| `Builder.BaselineBuilt` | src/techtree/manifests/builder.py:162-181 | a valid Campaign yields its baseline under its own digest and no other |
| `Builder.CandidateBuilt` | src/techtree/manifests/builder.py:184-255 | the candidate is built exactly when the skill has content under its own digest, differs from the one replaced, and one skill is permitted; it then carries exactly that reference |
| `Builder.SkillsErased` | src/techtree/manifests/builder.py:230-252 | a configuration's JSON with the skill list erased does not depend on the skill list |
| `Builder.AcceptedPairControlled` | src/techtree/manifests/builder.py:302-382 | two valid manifests accepted against one Campaign are controlled exactly when the variants are on their sides, the public context is shared, and a replacement changes the skill |
| `Builder.BuilderMeetsChecker` | src/techtree/manifests/builder.py:162-255 | whatever both builders produce from one Campaign under one public context is judged controlled, for insertion and for replacement |
| `JournalText.StatusReadsOff` | src/techtree/publication/journal.py:98-121 | a valid entry's status and the presence of its optional fields determine each other |
| `JournalText.EntryTextInjective` | src/techtree/canonical.py:160-164 | no two entries have the same canonical text |
| `JournalText.EntryTextCloses` | src/techtree/publication/journal.py:136-142 | an entry's text is one whole object, and every strict non-empty prefix leaves that object open |
| `JournalText.EntryTextOneLine` | src/techtree/publication/journal.py:201 | the text of an entry holds no raw line break, whatever its strings hold (RFC 8785 section 3.2.2.2) |
| `EntryReader.EscapedExactly` | src/techtree/canonical.py:160-164 | a character is escaped only where RFC 8785 section 3.2.2.2 has it escaped, by its own escape where it has one, and otherwise in lower case |
| `EntryReader.EntryReadsBack` | src/techtree/publication/journal.py:76-96 | read by the grammar of RFC 8259, an entry's text is one object with twelve members in ascending order, each field of the entry under its own name and null where there is none |
| `EntryReader.EncodableExactly` | src/techtree/publication/journal.py:194-201 | an entry is written exactly when every number in its text is below 2^53, and otherwise refused before the file is opened |
| `Journal.LinesExactly` | src/techtree/publication/journal.py:149 | there is one way to split a text at its line feeds, carriage returns and pairs of both, and it is the one computed |
| `Journal.FaithfulReaderExists` | src/techtree/publication/journal.py:153 | whatever the field types take, a reader that takes back every accepted entry, and nothing that is not one whole object holding one, exists |
| `Journal.ReadIsDense` | src/techtree/publication/journal.py:161-168 | the entries of a readable journal are numbered 0, 1, 2, and so on |
| `Journal.CorruptStays` | src/techtree/publication/journal.py:148-168 | what is unreadable stays unreadable whatever is appended |
| `Journal.CrashOutcome` | src/techtree/publication/journal.py:194-212 | an append that dies after k bytes leaves the old journal (k = 0), a refused torn line (inside the object), or the entry (from its closing brace on); the file then ends with a line break exactly when all of it was written |
| `Journal.GluedIsCorrupt` | src/techtree/publication/journal.py:201-208 | after an unfinished last line that holds more than JSON blanks, the first byte of any append makes that line unreadable |
| `Journal.ReadAfterAppend` | src/techtree/publication/journal.py:135-212 | reading after an append gives the old entries and the new one exactly when nothing but JSON blanks follows the last line break, and the new sequence is the number of entries; otherwise it is refused |
| `Journal.LostLineBreak` | src/techtree/publication/journal.py:201-208 | a crash one byte short of a whole append is read back, and the next append makes the journal unreadable |
| `Journal.HistoryReadsExactly` | src/techtree/publication/journal.py:135-169 | any list of appends reads back as itself exactly when its sequences are 0 to n - 1, and is refused otherwise |
| `Journal.TwoPublishersCollide` | src/techtree/publication/journal.py:190-208 | two publishers that counted before either wrote leave an unreadable journal |
| `Journal.PublicationJournal.Entries` | src/techtree/publication/journal.py:135-169 | the loop computes the specified reading of the file, error cases included |
| `Journal.PublicationJournal.Status` | src/techtree/publication/journal.py:171-181 | the last entry's status, or not requested for an empty journal |
| `Journal.PublicationJournal.Publication` | src/techtree/publication/journal.py:183-188 | the last PUBLISHED entry, or none when there is none; an unreadable journal is reported as such |
| `Journal.PublicationJournal.NextSequence` | src/techtree/publication/journal.py:190-192 | the number of entries |
| `Journal.PublicationJournal.Append` | src/techtree/publication/journal.py:194-212 | the short-write loop adds exactly the encoded line, or the part of it written before a death; an entry that cannot be encoded changes nothing |
| `Publication.AppendedSoFar` | src/techtree/publication/journal.py:194-212 | however far an append of the next entry gets, the journal then reads as before, or with the entry, or not at all |
| `Publication.PublishedLinesAgree` | src/techtree/publication/service.py:297-304 | any two PUBLISHED lines backed by one receipt name the same entry URL and log sequence |
| `Publication.RunDirectory.Record` | src/techtree/publication/service.py:448-474 | appends the attempt's next line, numbered by the entries before it; an unreadable journal, or a line the model refuses, is left alone |
| `Publication.RunDirectory.WriteReceipt` | src/techtree/publication/service.py:415-444 | exclusive creation: an existing file never changes; refused as too large exactly when the number is, as a conflict exactly when the file already held other bytes, and written otherwise; only a process that may die leaves a prefix |
| `Publication.RunDirectory.Deliver` | src/techtree/publication/service.py:360-444 | an answer is kept exactly when it verifies and the receipt file is absent or holds its bytes; otherwise a lost answer keeps its own code, and one that came back is invalid exactly when it does not verify, unwritable exactly when its number is too large, and a conflict exactly when the file holds another receipt |
| `Publication.RunDirectory.Settle` | src/techtree/publication/service.py:288-304 | the closing line is PUBLISHED, with where the receipt says it landed, exactly when the answer is receivable, and otherwise FAILED with the very code the call reports |
| `Publication.RunDirectory.Refuse` | src/techtree/publication/service.py:195-263 | a plan is made exactly when the proof verifies, the report is eligible, the journal reads, and nothing has been published; the refusal names the URL it was published at, or why the journal cannot be read |
| `Publication.RunDirectory.Publish` | src/techtree/publication/service.py:267-311 | nothing is sent and no receipt written before the whole PENDING line is in the file; a call that ends on a journal that can be appended to adds PENDING and one closing line, PUBLISHED exactly when the answer is receivable and FAILED with the code it reports otherwise; it is recorded nowhere and nothing is sent exactly when the PENDING line cannot be written; every PUBLISHED line is backed by the receipt file, closing lines directly follow their own PENDING line, and history only grows, through every death |
| `Publication.RunDirectory.AttemptOnce` | src/techtree/publication/service.py:195-311 | an attempt goes ahead exactly when the proof verifies, the report is eligible, the journal reads and nothing has been published; refused, it changes nothing |
| `Publication.RunDirectory.RunAll` | src/techtree/publication/service.py:195-311 | over any attempts and deaths: a published run is never touched again, at most one line publishes it, the receipt file never changes, a receipt that no answer matches keeps the run unpublished for good, and a last attempt that ends with a receivable answer and the journal in order leaves the run published; and attempt by attempt, what each answered and added to the journal |
| `Bundle.SplitJoin` | src/techtree/engines/bundle.py:214-217 | splitting a relative path gives back the names it was made of |
| `Bundle.IncludedExactly` | src/techtree/engines/bundle.py:84-93 | what is passed over, name by name: six directories, two files, and whatever ends in .pyc, .pyo or .tmp |
| `Bundle.EnumerationLists` | src/techtree/engines/bundle.py:127-133 | the enumeration is every included file once, by path, length and digest, in ascending order of path |
| `Bundle.WalkSound` | src/techtree/engines/bundle.py:231-251 | everything the walk yields is a file of the tree, at an included path, with the length and the digest of its content |
| `Bundle.WalkComplete` | src/techtree/engines/bundle.py:231-251 | every file at an included path is yielded |
| `Bundle.WalkDistinct` | src/techtree/engines/bundle.py:231-251 | no relative path is yielded twice |
| `Bundle.EnumerationDeterminedByContents` | src/techtree/engines/bundle.py:127-133 | two trees with the same included contents enumerate alike, whatever the directory order |
| `Bundle.EnumerationExact` | src/techtree/engines/bundle.py:127-157 | with a collision-free digest, equal enumerations mean equal included contents, and conversely |
| `Bundle.ExcludedFilesDoNotCount` | src/techtree/engines/bundle.py:84-93 | reordering entries and adding excluded ones anywhere leaves the enumeration unchanged |
| `Bundle.Directory.CopyBundle` | src/techtree/engines/bundle.py:194-218 | a non-empty destination is refused and left alone; otherwise the copy holds the source's included files with their content and nothing else |
| `Bundle.CopyRoundTrip` | src/techtree/engines/bundle.py:153-157 | a copy enumerates as its source, and with anything excluded beside it has the source's bundle digest |
| `Bundle.ChangedInstallationIsCaught` | src/techtree/engines/installer.py:288-296 | with collision-free digests, recomputing gives the install digest exactly when the included contents are unchanged |
| `Installer.DiscardingCleansExactly` | src/techtree/engines/installer.py:259-276 | discarding leaves no unfinished directory exactly when each had its marker |
| `Installer.TornRemovalExactly` | src/techtree/fs.py:203-214 | a removal caught half-way, in any state of the directory, keeps the invariants exactly when the record is still there over a finished build, or is gone beside a marker; and the digests exactly when what is still recorded hashes to its name |
| `Installer.BuildHashesExactly` | src/techtree/engines/installer.py:333-349 | a recorded build hashes to its name exactly when the sync left what the digest covers as the source has it |
| `Installer.Engines.InterruptedInstalls` | src/techtree/engines/installer.py:230-257 | exactly the marked engines without a record that names them, in order |
| `Installer.Engines.DiscardInterrupted` | src/techtree/engines/installer.py:259-276 | removes exactly the marked directories without a valid record, and every marker; keeps everything else, and both invariants through a death at any step |
| `Installer.Engines.InstallFresh` | src/techtree/engines/installer.py:316-354 | from marker to record: on success the engine is recorded, as verified and under its own digest, over a copy of the source as the sync left it; on failure, which needs a failing copy, sync or answer, its directory and marker are gone; a death anywhere leaves an unfinished directory only beside its marker |
| `Installer.Engines.Install` | src/techtree/engines/installer.py:198-228 | refused as unknown exactly when another digest is asked for, and for the host exactly when that request stands and the host is not supported, with nothing touched; otherwise an installation that answers is kept as it was, and any other is built, successfully unless the copy, the sync or the new engine's answer fails; what was interrupted is gone, no marker is left, every other directory is as it was, and where the invariants hold none is unfinished |
| `Installer.Engines.Verify` | src/techtree/engines/installer.py:278-300 | not installed, modified, wrong environment or fine, in that order; modified exactly when the recorded directory no longer hashes to its name |
| `Installer.Engines.Uninstall` | src/techtree/engines/installer.py:302-312 | refuses the active engine, and otherwise removes that one and no other |
| `Installer.Engines.SetActive` | src/techtree/engines/registry.py:169-198 | takes exactly an engine with a valid record that says it was verified, and tells the two refusals apart |
| `Installer.Engines.RunAll` | src/techtree/engines/installer.py:198-312 | over any install, uninstall, activate and discard commands and deaths: a valid record means fully copied, synced and checked, no record means a marker, what is recorded hashes to its name as long as no sync touches what the digest covers, what no command names is left as it was, and what was unfinished without a marker is never discarded; and command by command, what each answered and did |
| `StartClaim.StepKeeps` | src/techtree/drafts/store.py:756-869 | each step of each process keeps the invariant and moves the file only as a claim may move |
| `StartClaim.ReturnExplained` | src/techtree/drafts/store.py:756-869 | whatever a call comes back with is true of the file when it gives up the lock, and a call that waited too long says so |
| `StartClaim.RunKeeps` | src/techtree/drafts/store.py:756-869 | over every interleaving and death, draft, run and claim time never change, and a launch time once set stays set |
| `StartClaim.ClaimsAgree` | src/techtree/drafts/store.py:756-785 | every `claim_start` that returns, of any number of processes, names one run |
| `StartClaim.OnlyClaimedRunWrites` | src/techtree/drafts/store.py:824-863 | a record changes only by an update of the claimed run, which sets the status, launch time and error code it reports and nothing else |
| `StartClaim.ClaimedRunWasAsked` | src/techtree/drafts/store.py:776-785 | a claim is under this draft's id, for a run that some call asked to start, at a time at which the file was created |
| `StartClaim.WrittenFresh` | src/techtree/drafts/store.py:776-784 | whatever run led there, a record written for the first time has this draft's id, an asked run, the time its file was created, status claimed, no launch time and no error |
| `StartClaim.NoClaimWithoutSnapshot` | src/techtree/drafts/store.py:774-785 | in any run in which no snapshot verifies, `start.json` is never created and no claim is returned |
| `StartClaim.FailedLoadRefuses` | src/techtree/drafts/store.py:774 | a call whose snapshot does not verify leaves the file as it is, whatever the other processes do, and comes back with that refusal or dies |
| `StartClaim.UndisturbedCall` | src/techtree/drafts/store.py:756-869 | what each of the three calls answers and leaves when nothing disturbs it, for every file it can meet |
| `StartClaim.StuckForGood` | src/techtree/drafts/store.py:865-869 | after a death between creating and writing `start.json`, no call returns a claim again |
| `StartClaim.StartableExactly` | src/techtree/drafts/store.py:756-785 | a claim can still be returned exactly when no such death has happened |
| `DraftCreation.StepKeeps` | src/techtree/drafts/store.py:235-283 | each step keeps the invariant, and the final directory never changes once it is there |
| `DraftCreation.AllOrNothing` | src/techtree/drafts/store.py:223-376 | after any steps and deaths of racing creations the draft is absent or one creation's complete tree that passed verification, at most one succeeded, and one that failed left no staging tree |
| `DraftCreation.UndisturbedCreation` | src/techtree/drafts/store.py:223-283 | a creation that nothing disturbs places its whole tree where there is no draft yet and the tree passes, and otherwise fails and leaves nothing |
| `DraftCreation.CreatableExactly` | src/techtree/drafts/store.py:223-376 | whatever the others do, a creation can succeed exactly when there is no draft yet, it writes no file twice, and its tree passes |
| `DraftCreation.PlacedDraftVerifies` | src/techtree/drafts/store.py:235-283 | with `verify_snapshot` as that verification, a draft that is there verifies |
| `Snapshot.VerifySkill` | src/techtree/drafts/store.py:717-752 | the loop finds the first listed file that is missing or wrong, between the root digest and the archive checks |
| `Snapshot.FirstFailureReported` | src/techtree/drafts/store.py:491-752 | a snapshot verifies exactly when each listed comparison of digests, documents, files and flags holds, and the first that does not is what is reported |
| `Snapshot.SkillCommits` | src/techtree/drafts/store.py:717-752 | two verified skills with one root digest list the same files with the same bytes, and have the same archive exactly when they name one archive digest |
| `Snapshot.DraftCommits` | src/techtree/drafts/store.py:491-752 | with collision-free digests, two verified snapshots of one draft have the same Climb, Campaign, DataPolicy, receipt, evidence, manifests and candidate artifact, and byte-equal candidate and baseline skills |
| `Snapshot.PartsDescribeEachOther` | src/techtree/drafts/store.py:491-677 | in a verified draft the Campaign, DataPolicy, Climb, program, OutcomeContract, listed files and declared baseline skill agree across the documents that name them |
| `Snapshot.ComparisonPinnedExactly` | src/techtree/drafts/store.py:699-715 | another stored comparison passes exactly when it names the same two configurations and is controlled |
| `Snapshot.UnlistedFilesPass` | src/techtree/drafts/store.py:729-745 | a file the artifact does not list changes nothing |
| `Snapshot.AnySkillTakesItsPlace` | src/techtree/drafts/store.py:571-586 | another skill takes the candidate's place exactly when it stands on its own, whatever the candidate manifest references |
| `Snapshot.CandidateReferenceUnchecked` | src/techtree/drafts/store.py:679-715 | another manifest takes the candidate's place exactly when it has the configuration digest the comparison names, whatever skill it references |
| `Snapshot.SkillAndReferenceMayDisagree` | src/techtree/drafts/store.py:571-586 | so a draft whose skill is not the one its candidate manifest references verifies, for every other skill that stands |
| `Snapshot.DisagreeingDraft` | src/techtree/drafts/store.py:571-586 | the instance: a draft of a valid Campaign, its manifests valid, matching and controlled, that verifies with another skill than its candidate manifest references |

## Left out

- SHA-256, signatures, `rfc8785`, Pydantic and JSON parsing: foreign code. Digests are function parameters, and
  collision-freedom is a stated hypothesis where a lemma needs it. The journal's reader is a parameter constrained by
  `Journal.Faithful`, which `Journal.FaithfulReaderExists` shows can be met for any field types.
- Text is one char per character where only characters matter, and one char per UTF-8 byte in the journal, where bytes do.
- Field-level validation (digest shape, non-blank strings, ranges of nested models): for journal entries it is three
  uninterpreted predicates (`JournalText.FieldTypes`); elsewhere the sub-models no property looks into are their own JSON,
  compared structurally where Python compares models.
- The network: a submission's outcome is a parameter, lost, unparsable or a receipt. The checks of
  `verify_publication_receipt` other than run and bundle digest are one predicate.
- The host, the disk, `uv sync` and the environment query of an install are parameters (`Installer.Host`): whether the host is
  supported, the copy goes through and an engine answers, and what the sync makes of the copied directory.
- `remove_tree` and `os.rename` are one step each, and `atomic_write_bytes` replaces a file in one step. What a removal that
  stops half-way does is `Installer.TornRemovalExactly`.
- Lock internals, timeouts other than the start claim's, file modes, symbolic links and the order of `fsync` calls.
- Staging directory names: each creation has its own. Engine directory and marker names: each names one digest.
- `validate_id` and the check that a draft exists come before the start claim's lock and only refuse.
- Reading a staged draft back is a parameter (`load` in `DraftCreation.PlacedDraftVerifies`); its documents are canonical JSON.
- Messages, details and error wording; only which refusal it is.
- What `verify_archive` finds inside an archive, `publication_eligible_for` and `LocalProofVerifier` are uninterpreted answers.
- The CLI, doctor checks, rendering, settings files, skill-name metadata and the GitHub URL check.
- Liveness beyond a call that reaches its end.
