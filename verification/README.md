# Verified models of Noxide

A Dafny project that models the parts of Noxide where correctness is hard to see and proves what
they promise. Run `dafny verify dfyconfig.toml` to check all of it.

The models, and what is proved about each:

* **Blob lifecycle** (`Blob*.dfy`). Rows move from reservation to tombstone, fenced by generations.
  The system is a state machine over transactions (acknowledged, refused, or unknown and possibly
  applied much later), file operations, native workers that outlive their requests, stop witnesses
  and process crashes. In every reachable state a readable row has its object, an unlink only
  touches doomed objects, every claim of the live process is witnessed, stop proofs stay true, and
  the counters are the sums over the rows. Every admitted upload can become a staged, then an
  attached object; every row no longer wanted can be reclaimed, after any crash; and a whole life
  leaves every charge where it was. Stored rows and their columns correspond one to one.
* **Pairing** (`Pairing.dfy`). Any databases share one store directory; runs stop anywhere, the
  machine loses unsynced changes, lost commits arrive late. At most one database ever becomes
  ready, pairings are permanent, activation recovers, and an unpaired database founds a pair exactly
  on an untouched store.
* **Multipart decoding** (`Multipart*.dfy`). The delimiter matcher is the Knuth-Morris-Pratt
  automaton; the file decoder accepts exactly the bodies of section 5.1.1 of RFC 2046 it should;
  forms written as sections 4.1 and 4.2 of RFC 7578 describe are read back exactly, under every
  chunking. `Boundary` holds a boundary's three delimiters and `Delimit` makes them from a token;
  `MultipartWire` states reading back for requests written out from the token alone.
* **Policy** (`Policy*.dfy`, `Membership.dfy`, `Authority.dfy`). The row evaluator, which skips
  lookups and remembers answers, and the compiled SQL filter, evaluated with three-valued logic,
  agree with each other and with what the membership records state; scan strategies lose and invent
  no rows.
* **Admission limits** (`Limiter*.dfy`). The two-map bucket table is a recency list; integer refill
  is exact for exactly the rates described below.
* **Schema migrations, routes, asset packs, console budget** (`Schema*.dfy`, `Routing.dfy`,
  `Asset*.dfy`, `ConsoleBudget.dfy`).

`Prelude`, `Chunks`, `Decimal` and `Sorting` hold shared vocabulary.

## What the code does differently from what one might expect

Each of these is a property that does not hold as one would first state it, with the exact condition
under which the code meets it.

* *Compiled filters and unowned records.* Unowned records store a NULL owner, which the evaluator
  reads as the empty text. `owner = $id` and the evaluator's comparison agree on every record if and
  only if the account identifier is not empty (`PolicyFilter.OwnersAgree`). Accounts never have an
  empty identifier; `Identified` carries that condition.
* *Exact scans.* The exact scan of an empty rule becomes `Public`. An exact scan admits exactly its
  rule's rows if and only if the rule is not empty (`PolicyScans.ExactScanIsExact`);
  `PolicyScans.MergeIsAllowed` says what a merge returns either way. Manifest admission rejects
  empty rules.
* *Byte ceilings.* The in-memory reference for reservations takes a byte ceiling for every subject.
  The statements apply one to anonymous subjects only; they accept a reservation the reference
  refuses if and only if it would put an account over that ceiling
  (`BlobConservation.ReservationMatchesReference`, `BlobConservation.AccountsHaveNoCeiling`).
* *Refill.* The balance is exact over every run if and only if the rate divides 10^9 or is a
  multiple of it (`LimiterRefill.ExactIffEven`); other rates invent tokens when polled at the right
  moments. Both configured rates divide 10^9.
* *Asset URLs.* Assets with identical bytes share a URL, which names the last one inserted. Writing a
  bundle and loading it again keeps every asset, and keeps every URL's name if and only if among
  such assets the last one given has the greatest name (`AssetLaws.BundleReloads`); transport packs
  arrive in name order, so theirs do.

## Model

| member | source | states |
|---|---|---|
| `BlobState.PublicationIgnoresLimits` | crates/noxide-blobs/src/state.rs:141-181 | Whether the quota accepts a publication does not depend on which valid limits are in force, and it accepts whenever the counters cover the reservation |
| `BlobState.DeletionIgnoresLimits` | crates/noxide-blobs/src/state.rs:141-181 | The same for releasing a deleted object's charge |
| `BlobState.StageWindows` | crates/noxide-blobs/src/state.rs:358-433 | A stage can be attached strictly before it expires, with its own binding and handle only, and reclaimed from then on, never both |
| `BlobState.UploadWindows` | crates/noxide-blobs/src/state.rs:305-463 | A healthy upload can be published strictly before it expires, as exactly the object written, and reclaimed from then on; a failed one at any time |
| `BlobState.DetachAfterAttach` | crates/noxide-blobs/src/state.rs:358-409 | Detaching after attaching succeeds for exactly the owner attached and leaves the row unreferenced, otherwise as it was staged |
| `BlobDatabase.TotalUpdate` | crates/noxide-blobs/src/metadata.rs:309-385 | Replacing one row changes every sum over rows by exactly that row's weight |
| `BlobConservation.WritesOneRow` | crates/noxide-store/src/statements/blobs.rs:237-250 | A statement that applies changes its own row to the one the pure transition computes and no other, and only from the row it was built on |
| `BlobConservation.WriteConserves` | crates/noxide-store/src/statements/blobs.rs:139-186 | Every transaction keeps the store's and every subject's counters equal to the sums over rows |
| `BlobConservation.WriteKeepsDb` | crates/noxide-blobs/src/metadata.rs:535-647 | Every transaction keeps conservation, unique slots and each row's state shape |
| `BlobConservation.AttachKeepsDb` | crates/noxide-blobs/src/metadata.rs:417-450 | So does attaching a staged blob to its owner |
| `BlobConservation.UnreferenceKeepsDb` | crates/noxide-blobs/src/metadata.rs:451-505 | So does detaching |
| `BlobConservation.PublicationIsNeverRefused` | crates/noxide-blobs/src/metadata.rs:309-385 | In a conserved database the publication statements match whatever the limits |
| `BlobConservation.ReleaseIsNeverRefused` | crates/noxide-blobs/src/metadata.rs:576-647 | So do the statements that complete a deletion |
| `BlobConservation.WriteBoundsStages` | crates/noxide-blobs/src/metadata.rs:183-305 | No transaction exceeds the ceilings on live stages |
| `BlobConservation.ReservationMatchesReference` | crates/noxide-blobs/src/state.rs:223-281 | The reservation statements accept exactly what the in-memory reference accepts of the sums over the rows, given a fresh key and slot and room in the deployment's ceilings, and leave the same row and counters; a byte ceiling on the subject binds anonymous subjects only |
| `BlobConservation.AccountsHaveNoCeiling` | crates/noxide-store/src/statements/blobs.rs:146-151 | An account over a byte ceiling the reference refuses it for is accepted by the statements |
| `BlobSafety.NextKeepsInv` | crates/noxide-blobs/src/runtime.rs:353-626 | Every step of the combined system keeps its invariant |
| `BlobSafety.RunKeepsInv` | crates/noxide-blobs/src/runtime.rs:353-626 | So does every run |
| `BlobSafety.ReachableInv` | crates/noxide-blobs/src/runtime.rs:255-351 | The invariant holds in every reachable state |
| `BlobSafety.CrashKeepsCells` | crates/noxide-blobs/src/store.rs:586-592 | A crash, after which another process holds the store, keeps every key's invariant |
| `BlobTheorems.KeptObjectsAreIntact` | crates/noxide-blobs/src/store.rs:287-337 | Every Staged, Attached or Unreferenced row has its finalized object of exactly the recorded length and a handle naming exactly that object, with no worker on it |
| `BlobTheorems.UnlinksOnlyDoomedObjects` | crates/noxide-blobs/src/runtime.rs:524-608 | An unlink only ever runs while its key's row is Deleting at the worker's generation, or Deleted |
| `BlobTheorems.EveryClaimIsWitnessed` | crates/noxide-blobs/src/runtime.rs:497-575 | Every Deleting row of the live process has a registered witness at exactly its generation, however each commit turned out |
| `BlobTheorems.StopProofsAreTrue` | crates/noxide-blobs/src/runtime.rs:474-495 | When the registries yield a stop proof for a row's generation, no worker runs on the key, and over every run that follows none does until the row has moved to another generation |
| `BlobProgress.DoomedIsClaimable` | crates/noxide-blobs/src/inspect.rs:91-210 | At rest a row is classified for a claim if and only if it is reclaimable (Deleting, Unreferenced, expired, uploaded by a prior process, or a failed upload), and the claim is then granted unless the generation is exhausted; every other row is retained |
| `BlobProgress.NothingIsStranded` | crates/noxide-blobs/src/runtime.rs:353-575 | From every reachable state a reclaimable row at rest reaches its tombstone in nineteen steps on its own key: object unlinked, charge released, everything else unchanged; only an exhausted counter or a clock behind its last claim prevents it |
| `BlobProgress.RestartReclaims` | crates/noxide-blobs/src/runtime.rs:353-575 | The same after a crash at any moment, whatever unsynced directory entries come back |
| `BlobProgress.TombstonesAreForgotten` | crates/noxide-blobs/src/runtime.rs:383-393 | Looking at a tombstone once more empties the process's registries of its key |
| `BlobProgress.ProofsTellTheOutcome` | crates/noxide-blobs/src/io.rs:118-143 | A stop proof says that its worker failed exactly when it did or had been cancelled |
| `BlobUploads.UploadsComplete` | crates/noxide-blobs/src/store.rs:170-330 | From every reachable state a reservation under its own key that the statements accept becomes, before it expires, a Staged row of exactly the bytes and digest sent, with its object synced in place, in eleven steps and one per chunk, for every length within the reservation and every chunking |
| `BlobUploads.UploadsAttach` | crates/noxide-blobs/src/state.rs:358-388 | The object so uploaded is attached exactly on its own handle and binding, in time and to a valid owner, and then carries that owner |
| `BlobUploads.OwnersDetach` | crates/noxide-blobs/src/state.rs:389-409 | It is given up exactly by that owner, and is then unreferenced |
| `BlobUploads.WholeLife` | crates/noxide-blobs/src/metadata.rs:183-647 | Uploaded, attached, detached and reclaimed, an object leaves a tombstone, no file, and every counter of the store where it was |
| `BlobTheorems.ReconciliationNeedsNoOperator` | crates/noxide-blobs/src/inspect.rs:50-64 | No key is ever quarantined, tombstones have no file, every file has a row |
| `BlobTheorems.CountersAreSums` | crates/noxide-blobs/src/state.rs:218-527 | In every reachable state counters are sums over rows, stage ceilings hold and every row has its state's shape |
| `BlobTheorems.StepEvolves` | crates/noxide-blobs/src/state.rs:464-487 | Generations strictly increase with every change, tombstones never change, and the object count drops only when the latest claim on a Deleting row completes |
| `BlobTheorems.RunEvolves` | crates/noxide-blobs/src/state.rs:305-527 | The same over every run |
| `BlobTheorems.LifetimesAreFixed` | crates/noxide-blobs/src/metadata.rs:255-257 | In every reachable state a row expires exactly one stage lifetime after it was created |
| `BlobLabels.NormalNameIsLabel` | crates/noxide-blobs/src/transport.rs:20-43 | Every normalized attachment name is a short, safe, trimmed label |
| `BlobLabels.LabelIsNormal` | crates/noxide-blobs/src/transport.rs:20-43 | Labels are their own normal form |
| `BlobLabels.NormalNameKeeps` | crates/noxide-blobs/src/transport.rs:20-43 | A name is refused exactly when it is too long; otherwise the label is the first 80 characters of its last component without the trimmed ends, unsafe ones as underscores, or the default when nothing is left |
| `BlobLabels.Hex` | crates/noxide-blobs/src/metadata.rs:860-868 | The loop writes the digest's hex text |
| `BlobLabels.Hash` | crates/noxide-blobs/src/metadata.rs:869-883 | The loop reads exactly what `Unhex` reads |
| `BlobLabels.DigestTexts` | crates/noxide-blobs/src/metadata.rs:860-883 | Reading gives these bytes if and only if the text is what writing them gives |
| `BlobLabels.TokenTexts` | crates/noxide-blobs/src/store.rs:47-56 | A text is accepted as this identity if and only if the identity has 32 bytes and the text is its 64 hex digits |
| `BlobRows.RowsReadBack` | crates/noxide-blobs/src/metadata.rs:684-832 | A row is recovered exactly from its columns if and only if it is storable under a label: values that fit, its state's shape, the fixed lifetime |
| `BlobRows.OnlyStoredRowsDecode` | crates/noxide-blobs/src/metadata.rs:684-849 | Whatever the decoder accepts is a storable row written as exactly these columns |
| `BlobRows.ReachableRowsReadBack` | crates/noxide-blobs/src/metadata.rs:684-832 | Every row of every reachable state, under a normalized name, is recovered exactly if and only if its identities, times and owner fit their columns |
| `BlobRows.LosslessSpelling` | crates/noxide-blobs/src/state.rs:341-357 | Handle texts that read back, which the three results above suppose, exist |
| `Pairing.NextKeepsInv` | crates/noxide-blobs/src/pairing.rs:117-214 | Every step, stop, crash and late commit keeps the pairing invariant and only adds to what is settled |
| `Pairing.AtMostOneReady` | crates/noxide-blobs/src/runtime.rs:196-251 | Over every run of any databases at most one ever becomes ready, and the synced marker names it |
| `Pairing.PairingIsPermanent` | crates/noxide-blobs/src/pairing.rs:139-214 | The synced marker, each database's pair ID and readiness never change |
| `Pairing.RecoveryReachesReady` | crates/noxide-blobs/src/metadata.rs:33-153 | Once the pending record is committed, activating again from any stopped or crashed state, with no other database involved and old commits arriving in between, is ready with the same pair ID after at most ten of its own steps |
| `Pairing.FirstActivation` | crates/noxide-blobs/src/runtime.rs:196-251 | From the initial state an unpaired empty database is ready after nine of its own steps, whatever other databases do, and its record and the synced marker carry the pair ID it drew |
| `Pairing.UnpairedActivation` | crates/noxide-blobs/src/pairing.rs:52-61 | From any stopped or crashed state an unpaired database becomes ready if and only if the store has no marker, no pending file and no objects and the database no rows; refused, it has written nothing |
| `Pairing.ContentsNeedTheirMarker` | crates/noxide-blobs/src/pairing.rs:62-90 | A store or database with contents is only served under the marker that names it |
| `Pairing.RemovesOnlyItsOwn` | crates/noxide-blobs/src/pairing.rs:157-164 | The only file an activation ever removes is a beginning of its own recorded pair ID |
| `Pairing.SyncedSurvives` | crates/noxide-blobs/src/pairing.rs:157-206 | After each directory sync a crash leaves exactly what is there |
| `MultipartDelimiter.BuildTable` | crates/noxide-blobs/src/multipart.rs:428-445 | The table holds the longest proper border of every prefix of the delimiter |
| `MultipartDelimiter.Matcher.Byte` | crates/noxide-blobs/src/multipart.rs:446-464 | After each byte the matched length is the longest delimiter prefix ending the stream, emitted bytes and match make up the input, true is returned exactly at the first occurrence, and fallbacks never exceed bytes fed |
| `MultipartFile.FileDecoder.Push` | crates/noxide-blobs/src/multipart.rs:490-561 | A chunk is accepted exactly while some continuation could be a body within the limit; the sink holds a prefix of the content |
| `MultipartFile.DecodeBody` | crates/noxide-blobs/src/multipart.rs:479-569 | For every chunking and a sink that does not fail, decoding succeeds exactly on content, first delimiter and closing suffix within the limit, and the sink holds exactly the content; always at most `limit` bytes of it |
| `MultipartFile.CompleteBody` | crates/noxide-blobs/src/multipart.rs:562-569 | A stream is a complete body within the limit exactly when it stayed viable and its closing suffix is whole, and then its content is unique |
| `MultipartFile.DeliveredGrows` | crates/noxide-blobs/src/multipart.rs:497-560 | What has been delivered stays a prefix of what will be |
| `MultipartHeaders.ScalarHeaderReads` | crates/noxide-blobs/src/multipart.rs:301-418 | A scalar part's header block is read as its name |
| `MultipartHeaders.FileHeaderReads` | crates/noxide-blobs/src/multipart.rs:301-418 | The file part's header block is read as its name, its filename with quotes and backslashes escaped, and the media hint |
| `MultipartHeaders.QuotedInverts` | crates/noxide-blobs/src/multipart.rs:366-418 | Reading a quoted value undoes escaping |
| `MultipartHeaders.AcceptedHeadersAreSafe` | crates/noxide-blobs/src/multipart.rs:301-365 | Accepted blocks have nonempty lines without control bytes, a proper part name and a bounded text filename; a media hint needs a filename |
| `MultipartHeaders.AcceptedHeadersAre` | crates/noxide-blobs/src/multipart.rs:301-418 | An accepted block is exactly one disposition line, which says `form-data`, the name and the filename found, at most one media line, and nothing else |
| `MultipartText.TextIsEncoded` | crates/noxide-blobs/src/multipart.rs:271-275 | The texts accepted as values, names and headers are exactly the encodings of Unicode scalar values |
| `MultipartPrefix.RunSplits` | crates/noxide-blobs/src/multipart.rs:163-170 | Feeding in two pieces is feeding the whole |
| `MultipartPrefix.PrefixDecoder.Push` | crates/noxide-blobs/src/multipart.rs:163-286 | The decoder object does to each chunk what the byte-by-byte meaning says, and is poisoned by a failure |
| `MultipartForms.ReadPrefix` | crates/noxide-http/src/blobs.rs:46-62 | For every chunking the outcome is the whole input's, and what is left over starts at the first file byte |
| `MultipartForms.FormReadsBack` | crates/noxide-blobs/src/multipart.rs:171-286 | Decoding a form rendered from a schema gives exactly its values and stops at the first file byte |
| `MultipartForms.ValuesAreEntries` | crates/noxide-blobs/src/multipart.rs:171-286 | The decoded map holds the value of every field sent and nothing else |
| `MultipartReadiness.ReadyIsInOrder` | crates/noxide-blobs/src/multipart.rs:79-107 | Every run that becomes ready had its fields in schema order, none twice, none required missing, each value text within its limit |
| `MultipartUpload.Receive` | crates/noxide-http/src/blobs.rs:80-180 | A whole request rendered from a form and a file gives back exactly both, under every chunking; in general the result depends on the bytes alone |
| `MultipartWire.WireReadsBack` | crates/noxide-blobs/src/multipart.rs:56-64 | A request written out from the boundary token alone, line by line, is read under that token as exactly its fields, its filename and its file |
| `MultipartWire.ReceiveWire` | crates/noxide-http/src/blobs.rs:80-180 | Receiving such a request, however it is cut, gives the same with the file in the sink |
| `Decimal.ReadPrint` | crates/noxide-blobs/src/metadata.rs:839-846 | Canonical decimal text is read back |
| `Policy.AnonymousNeedsPublic` | crates/noxide-admission/src/policy.rs:97-176 | Visitors are granted exactly by rules of nothing but `Public` |
| `Policy.WorkersAreGranted` | crates/noxide-admission/src/policy.rs:97-176 | A worker is granted a row if and only if the row is of its tenant and some rule consists of `Public`, tenant and its own service predicates |
| `Policy.AccountsAreGranted` | crates/noxide-admission/src/policy.rs:97-176 | An account is granted exactly when each predicate of some rule says so of the row; roles count only for their own tenant |
| `Policy.AllowedGrows` | crates/noxide-admission/src/policy.rs:159-176 | More membership never takes a grant away |
| `Membership.Plans` | crates/noxide-admission/src/membership.rs:25-49 | One admitted plan for every declaration of the policy and for nothing else |
| `Membership.PlannedIffDeclarable` | crates/noxide-admission/src/membership.rs:25-49 | There are plans if and only if the policy has at most two membership predicates and each fits the manifest |
| `Membership.AdmittedIffDeclarable` | crates/noxide-admission/src/membership.rs:118-190 | A declaration is admitted if and only if the manifest has its membership resource, with a required account, a required reference that points where the target does, and conditions on required typed fields |
| `Membership.PlansReadTheirTarget` | crates/noxide-admission/src/membership.rs:145-171 | A plan reads the row's own identity, or the field its declaration names |
| `Membership.PlanMeansRelation` | crates/noxide-admission/src/membership.rs:230-304 | A plan's check means what the records say of the declaration: an active account of the row's tenant, the deployment in force, and a matching, unexpired record that refers to the row as declared |
| `Membership.ExpirySql` | crates/noxide-admission/src/expiry.rs:106-127 | The appended conjunct selects exactly the rows whose cast expiry lies after the attempt's time, under every longer parameter vector |
| `Membership.ExpiryAgrees` | crates/noxide-admission/src/expiry.rs:48-53 | On readable rows that is the evaluator's comparison |
| `Membership.CreatesWithinHorizon` | crates/noxide-admission/src/expiry.rs:84-105 | A create passes if and only if its expiry is canonical text of a time within the horizon |
| `Membership.AccountIdsSpellKeys` | crates/noxide-protocol/src/lib.rs:187-212 | Account identifiers are exactly the unpadded URL-safe base64 spellings of 32 bytes |
| `Membership.CanonicalValuesAre` | crates/noxide-admission/src/manifest.rs:1579-1583 | What stored text is canonical for the kinds policies read |
| `Membership.ExistsSql` | crates/noxide-admission/src/membership.rs:230-304 | The compiled membership clause selects exactly when the target's value has a matching, unexpired membership record, an active account and the deployment in force |
| `PolicyFilter.OwnersAgree` | crates/noxide-admission/src/policy.rs:159-176 | SQL and the evaluator agree on every record's owner if and only if the identifier is not empty |
| `PolicyFilter.FilterWith` | crates/noxide-admission/src/policy.rs:226-283 | The numbered-parameter filter compiles exactly when each membership predicate has what it needs, and selects exactly the rows the policy allows, whatever is appended later |
| `PolicyFilter.NarrowUnexpired` | crates/noxide-admission/src/policy.rs:190-205 | Narrowing every clause narrows the disjunction to unexpired rows |
| `Authority.Witnesses.Lookup` | crates/noxide-authority/src/authority/witnesses.rs:63-150 | Every answer, remembered or fresh, is the membership of the row's reference in the account's tenant |
| `Authority.Authority.Storage` | crates/noxide-authority/src/authority.rs:102-119 | The remembered storage identifier is the catalog's |
| `Authority.SkippedLookups` | crates/noxide-authority/src/authority.rs:179-198 | Skipping the lookups of rows an ordinary rule grants changes no decision |
| `Authority.Authority.Evaluate` | crates/noxide-authority/src/authority.rs:148-284 | The evaluator answers every answerable batch, and whenever it returns, each row's decision is the grant, stated over the membership records; a create is within its horizon |
| `Authority.Authority.Filter` | crates/noxide-authority/src/authority.rs:289-335 | The filter compiles for every compilable operation, and whenever it does, it selects a stored record exactly when the operation is granted on it |
| `Authority.BothPaths` | crates/noxide-authority/src/authority.rs:148-335 | For every principal, non-create operation and stored record, whenever both return, the filter selects exactly what the evaluator grants |
| `PolicyScans.ScanCovers` | crates/noxide-admission/src/policy.rs:58-86 | A rule's scan admits every row the rule admits under any membership |
| `PolicyScans.ExactScanIsExact` | crates/noxide-admission/src/policy.rs:29-86 | An exact scan admits exactly its rule's rows if and only if the rule is not empty |
| `PolicyScans.StrategiesAreFaithful` | crates/noxide-admission/src/policy.rs:22-57 | Both strategies scan every rule once, exactly only where no membership predicate occurs |
| `PolicyScans.StrategyIs` | crates/noxide-admission/src/policy.rs:22-57 | Lists are scanned once exactly when no rule looks at references to the principal or memberships; merged scans are exact exactly where one identity predicate at most narrows the rule |
| `PolicyScans.RelaxedScanIsNarrow` | crates/noxide-admission/src/policy.rs:58-86 | A relaxed scan admits exactly what its service and tenant predicates, or the rule's first identity predicate, admit |
| `PolicyScans.MergeIsAllowed` | crates/noxide-admission/src/policy.rs:22-86 | Merged scans, rechecked where inexact, are exactly the allowed rows, plus what `Public` admits when an exact scan stands for an empty rule |
| `PolicyScans.SingleIsAllowed` | crates/noxide-admission/src/policy.rs:29-37 | A single scan is only chosen when membership cannot matter |
| `Limiter.Buckets.TakeCharge` | crates/noxide-authority/src/limiter.rs:221-274 | Charging the two-map table is charging the recency list |
| `Limiter.Buckets.Renumber` | crates/noxide-authority/src/limiter.rs:236-245 | Renumbering at the largest tick is invisible |
| `Limiter.Buckets.PopFirst` | crates/noxide-authority/src/limiter.rs:229-234 | Eviction removes the least recently charged key |
| `Limiter.ListKeeps` | crates/noxide-authority/src/limiter.rs:186-274 | Keys stay distinct and the table never exceeds its capacity |
| `Limiter.OthersKeep` | crates/noxide-authority/src/limiter.rs:221-274 | A charge leaves every other bucket alone, except the oldest when a new key meets a full table |
| `Limiter.NewKeyStarts` | crates/noxide-authority/src/limiter.rs:221-251 | A new key starts with the starting balance; draining an absent key changes nothing |
| `Limiter.ResidentCharge` | crates/noxide-authority/src/limiter.rs:252-274 | A charge on a resident key is allowed exactly when the refilled balance covers it and takes it; refused, it takes everything when draining and nothing otherwise |
| `Limiter.DrainedKeyEarnsAnew` | crates/noxide-authority/src/limiter.rs:440-444 | After a refused drain, whatever other keys do, a resident key is allowed no more than it earns from then on, and the one token whose time had begun |
| `Limiter.ResidentBucket` | crates/noxide-authority/src/limiter.rs:246-274 | While resident, a key's bucket sees exactly its own charges, whatever other keys do |
| `Limiter.ResidentIsBounded` | crates/noxide-authority/src/limiter.rs:246-274 | A resident key's allowed cost is at most its balance plus the refill of the elapsed time |
| `Limiter.RateWindow.At` | crates/noxide-authority/src/limiter.rs:141-158 | An attempt is allowed exactly when the credit, refilled and capped at one minute, covers a token, which it then spends; over the window's whole life the attempts allowed never exceed the starting minute plus the time credited, in any order of calls |
| `LimiterRefill.ChargeSays` | crates/noxide-authority/src/limiter.rs:252-274 | The answer and the balance left by one charge, from the balance, the elapsed time and the cost |
| `LimiterRefill.TakenIsBounded` | crates/noxide-authority/src/limiter.rs:252-269 | All that a run took plus what is left never exceeds the start plus the exact refill |
| `LimiterRefill.BalanceIsExact` | crates/noxide-authority/src/limiter.rs:252-269 | Until the cap is reached the balance is exact, however often it is polled |
| `LimiterRefill.ExactIffEven` | crates/noxide-authority/src/limiter.rs:252-269 | Exact over every run if and only if the rate divides 10^9 or is a multiple of it, as both configured rates (2,000 and 500 a second) do |
| `LimiterRefill.WindowIsBounded` | crates/noxide-authority/src/limiter.rs:119-158 | Every attempt a rate window allows is paid for by its credit or by elapsed time |
| `Schema.Transition` | crates/noxide-admission/src/schema.rs:169-433 | The loop over operations accepts exactly the migrations whose operations turn the source into the target |
| `SchemaLaws.BlobFieldsSurvive` | crates/noxide-admission/src/schema.rs:181-333 | Every source blob field is in the target, in the same resource, under the same name, unchanged |
| `SchemaLaws.IdentityIsInherited` | crates/noxide-admission/src/schema.rs:210-454 | In a carried-over resource every account, reference and blob field comes from a source field of exactly that kind |
| `SchemaLaws.RenameFollows` | crates/noxide-admission/src/schema.rs:255-305 | After a field rename, gate, expiry and unique tuples stand for the same fields as before |
| `SchemaLaws.RemovalsAreExplicit` | crates/noxide-admission/src/schema.rs:181-218 | A resource that disappears is named by a drop or a rename |
| `SchemaLaws.ApplyDistinct` | crates/noxide-admission/src/schema.rs:178-433 | No operation makes two resources share a name |
| `SchemaMeaning.ApplyMeans` | crates/noxide-admission/src/schema.rs:178-433 | Each operation is accepted exactly when its update of a map of resources by name is permitted, and is then that update |
| `SchemaMeaning.MigrationsMean` | crates/noxide-admission/src/schema.rs:169-440 | A migration is accepted if and only if these updates are all permitted and arrive at the target's map |
| `SchemaOrder.NormalForgetsOrder` | crates/noxide-admission/src/schema.rs:92-113 | The normal form ignores the order of resources, fields, choices and unique tuples, identifiers and presentation |
| `SchemaOrder.OrderIsIgnored` | crates/noxide-admission/src/schema.rs:92-113 | So does the verdict |
| `Routing.PathSegments` | crates/noxide-admission/src/routing.rs:23-51 | The loop reads exactly the admitted patterns |
| `Routing.PatternsAreWritten` | crates/noxide-admission/src/routing.rs:23-51 | The admitted patterns are those written from segments: static identifiers, and a named parameter in braces exactly once when the route has a resource |
| `Routing.MatchPath` | crates/noxide-admission/src/routing.rs:79-101 | The loop matches exactly the paths whose parts the segments take, and returns the identifier they carry |
| `Routing.ResolvePath` | crates/noxide-admission/src/routing.rs:118-145 | The loop prints a pattern for a fitting target and refuses every other |
| `Routing.CanonicalPrint` | crates/noxide-admission/src/routing.rs:10-21 | Identifiers in range are recognized as they are printed |
| `Routing.PrintThenMatch` | crates/noxide-admission/src/routing.rs:79-145 | Matching what was printed gives the target back |
| `Routing.MatchThenPrint` | crates/noxide-admission/src/routing.rs:79-145 | Printing what was matched gives the path back |
| `Routing.OverlapIsSharedPath` | crates/noxide-admission/src/routing.rs:60-76 | Two patterns overlap exactly when some path matches both, for any identifier grammar without empty or slashed identifiers |
| `Routing.AtMostOneRoute` | crates/noxide-admission/src/manifest.rs:716-723 | Routes admitted together give a path at most one route |
| `AssetPacks.FromAssets` | crates/noxide-assets/src/lib.rs:78-96 | The loop builds the name-ordered bundle, or refuses duplicates and excess |
| `AssetPacks.ToCompiled` | crates/noxide-assets/src/lib.rs:98-112 | The loop writes the compiled form |
| `AssetPacks.FromCompiled` | crates/noxide-assets/src/lib.rs:119-168 | The loop loads exactly the packs that are framed, declared and complete |
| `AssetLaws.CompiledReadsBack` | crates/noxide-assets/src/lib.rs:98-168 | Loading what was written gives the assets back |
| `AssetExact.LoadsExactly` | crates/noxide-assets/src/lib.rs:119-168 | The server loads exactly the compiled packs that carry one asset within the limits for each of some sound declarations, whatever dimensions stand on what is not an image |
| `AssetLaws.LoadsSatisfyDeclarations` | crates/noxide-assets/src/lib.rs:170-180 | Every successful load passes the declaration check, by counting |
| `AssetLaws.BundleReloads` | crates/noxide-assets/src/lib.rs:78-168 | Reloading always keeps the assets, and keeps the URLs if and only if the greatest name was last among identical bytes |
| `AssetLaws.TwinsSwap` | crates/noxide-assets/src/lib.rs:88-89 | Two assets with the same bytes in reverse name order do not meet that condition |
| `AssetTransport.WritePack` | tools/build_assets.py:97-105 | The Python writer's output is the packed form of its entries in name order |
| `AssetTransport.FromPack` | crates/noxide-asset-admission/src/lib.rs:86-143 | The loop frames exactly what `Framed` says |
| `AssetExact.FramesExactly` | crates/noxide-asset-admission/src/lib.rs:86-143 | The host frames exactly the packs of strictly ascending declared names within the limits, one for each of some sound declarations |
| `AssetTransport.PackReadsBack` | crates/noxide-asset-admission/src/lib.rs:86-143 | The writer's output is framed back into the same names and bytes |
| `ConsoleBudget.Budget.Feed` | tools/build_assets.py:127-145 | After every successful feed the total is diagnostics plus asset bytes plus pending and pending is at most 4,096; a refusal means that no continuation is accepted |
| `ConsoleBudget.Budget.Finish` | tools/build_assets.py:173-180 | Finishing gives the verdict on the whole output |
| `ConsoleBudget.Judge` | tools/build_assets.py:115-180 | The verdict and both totals do not depend on how output is cut |
| `ConsoleBudget.NoWayBack` | tools/build_assets.py:127-150 | An output refused early is rejected whatever follows |
| `ConsoleBudget.OrdinaryIsAccepted` | tools/build_assets.py:151-180 | Ordinary output within the limit is accepted and charged in full |
| `ConsoleBudget.BuildIsAccepted` | tools/build_assets.py:151-180 | Ordinary output around one complete envelope, each within its limit, is accepted with exactly those totals |
| `ConsoleBudget.AcceptedShape` | tools/build_assets.py:152-180 | An accepted output has no envelope or one complete envelope within its limit, and the totals account for every byte |
| `ConsoleBudget.BodyLinesAreEncoded` | tools/build_assets.py:163-170 | Envelope body lines are exactly what a base64 encoder writes on lines of up to 76 characters, with either line end |

## Left out

- The blob runtime's tasks, atomics and registries are values of one transition system, not objects: interleaving, crashes and late commits are modelled, update in place and lock order are not.
- The pairing protocol is a transition system over single file operations and transactions for the same reason.
- Deadlines, readiness flags and permits of the I/O pools only forbid steps; the blob model allows more of them than the code.
- The page loop, cursor and digest of `inspect.rs` and the inventory batches; classification of one row is modelled.
- Orphan rows for unknown files: every file is proved to have a row.
- Detaching all blobs of a deleted record in one statement is modelled one key at a time.
- SHA-256 and random identifiers: a finalized handle stands for the values hashed, so its stored text may be any that reads back; asset URLs are injective; random identifiers are fresh.
- A snapshot worker that outlives its reconciliation: it only reads. Its two looks, the read of the registries and the claim are separate steps.
- Header parsing in `multipart.rs` is written as recursive functions, not loops; `read_prefix`'s deadlines are absent.
- Parsing a boundary out of a content type, and `AttachmentName` inside the multipart decoder.
- SQL is an expression tree with an evaluator; its text, precedence and quoting are not modelled, nor is a provider whose cast fails.
- Identifier checks on admitted field names in compiled SQL, and `authorize`'s validation of every field before evaluation.
- The frontier merge of list pages above the scan strategies.
- Semaphores, lane shares and request costs of `limiter.rs`: easy once stated.
- CSS, image and font admission, tar reading, and the separate duplicate-name set of `from_pack`, which its strict name order implies.
- Query strings of routes, and everything in `manifest.rs` but the pairwise overlap check.
- HTML rendering, the CLI, the supervisor and the catalog scripts.
