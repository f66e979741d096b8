# AEX: a verified model of the protocol core

This project models the parts of AEX (agent-to-agent file exchange) whose
correctness is hard to see from one function at a time, and proves what they
promise for every input, every run and every interleaving:

- the hash-chained audit log: canonical JSON, the hashed bytes of an event, the
  memory log and the file log (`CanonicalJson.dfy`, `AuditLog.dfy`), read back by a
  JSON reader after the standard's grammar (`JsonReader.dfy`, `JsonReading.dfy`,
  `EventReading.dfy`);
- the identity resolver: a bounded cache with single-flight fetching, as a step
  machine over any number of concurrent calls, with the age of what it returns
  (`ResolverChain.dfy`, `ResolverFreshness.dfy`);
- the canonical wire bytes of versions 1 and 2, round trips and the texts spelled
  out (`Wire.dfy`, `WireText.dfy`);
- registration and key rotation as interleaved database steps, and which keys
  verify at which time (`KeyRotation.dfy`, `KeyAdmission.dfy`,
  `KeyProvenance.dfy`, `KeyRepetition.dfy`, `Hex.dfy`);
- the data plane: tickets, the scan pipeline, and serving behind a scan cache
  with concurrent requests and replaced blobs (`DataPlane.dfy`, `Scanner.dfy`,
  `TicketAcceptance.dfy`, `BlobReplacement.dfy`);
- the endpoint health debouncer and its monitor loop (`EndpointHealth.dfy`);
- publishing endpoints and walking them (`EndpointSelection.dfy`);
- JWS compact serialization with base64url and UTF-8 (`Jws.dfy`,
  `JwsExactly.dfy`), agent ids and
  DID URIs (`AgentIds.dfy`).

Code that computes a value is a function, code that updates state is a class or
a loop proved against a specification, and a protocol between critical sections
is a step relation whose runs are sequences of states. SHA-256, the signature
schemes, curve-point decoding, the JSON parser, magic-byte and pattern detection,
clocks, probes, dials and database faults are parameters; what is needed of them
is a premise of the lemma that needs it. Text is a sequence of Unicode scalar
values; hashes and signatures are taken over text, and `Utf8.Injective` shows
that nothing is lost by that.

`dafny verify dfyconfig.toml` checks everything.

Functions that a method or an encoder shares with its proofs are pinned down by
statements that do not use them: `EventReading.EventReads`, the `WireText` lemmas,
`KeyAdmission.RegisterAdmits` and `RotateAdmits`, `TicketAcceptance.EveryAnswerExactly`,
`ResolverFreshness.FastReadExactly`, `JwsExactly.VerifiesExactly` and `EncodingTables`
state the literal texts, tables, bounds and orders themselves.

How the parts build on each other: `Wire.EncodeInjective` turns "the signature
verifies" into "this very message was signed", and so carries the ticket results
(`Tickets.AcceptedTicketsAreIssued`), the end-to-end delivery result
(`BlobReplacement.DeliveriesAreAuthorisedAndScanned`) and the separation of wire
signatures from JWS signatures (`Jws.AcceptedWasSigned`).
`CanonicalJson.Unambiguous` carries `AuditChain.TamperEvident`, and with it
`AuditFile.TamperedFilesAreDetected`.

Where the code and its own comments disagree, the model follows the code:

- agent_keys.rs:43-44 says two keys are valid during the grace period. With
  several rotations in 24 hours there are more: `KeyLedger.ValidKeyCount`.
- agents.rs:279-281 means to refuse rotating to the current key, but compares
  hex text. A committed rotation changes the key bytes iff the two texts differ in
  more than letter case (`KeyRepetition.CommitChangesKeyExactly`), and requests
  that do not are let in (`KeyRepetition.UpperCaseRotationRepeatsKey`).
- resolver_chain.rs:202 says that after a successful leader the entry is in the
  cache; an invalidation, an eviction or a capacity of zero can undo that.
  `ResolverChain.WaiterReturnsExactly` says exactly what a woken waiter returns.
- resolver_chain.rs:203-204 says a waiter may become the new leader; it returns
  an error instead. Its wait can also miss the notification altogether:
  `ResolverChain.SuccessCanLeaveWaiterBehind`, and exactly when:
  `ResolverChain.NotifyMisses`.
- jws lib.rs:100-101 calls the 64 KiB cap one on decoded segments; it is on the
  encoded ones, so payloads above 49152 bytes are signed but never verify:
  `Jws.SignThenVerify`.
- ticket.rs:83 adds the skew in 64 bits; in a build without overflow checks it
  wraps: `Tickets.ExpiryExactIffSumFits` and `Tickets.NoExpiredPassesIffNoUnderflow`
  say exactly when that is harmless.
- server.rs:109-145 caches the verdict per transfer id and reads the blob twice,
  once to scan and once to send, while the blob source lets a blob be replaced
  (blob.rs:37-42). Both ways a blocked payload can leave:
  `DataPlane.ReplacedBlobEscapesScan` through the cache,
  `BlobReplacement.BlockedAfterCleanIsServed` through the double read. Over all
  interleavings only payloads the scanner passes leave iff no transfer that can be
  asked for gets a blocked blob after a clean one
  (`BlobReplacement.ServesCleanExactly`), and refusals are right iff none gets a
  clean blob after a blocked one (`BlobReplacement.RefusesRightlyExactly`).
- endpoint.rs:99-102 calls two successes a higher friction than three failures;
  `EndpointHealth.FlipsAreBounded` gives the actual cost of each flip.

## Model

| member | source | states |
|---|---|---|
| CanonicalJson.SortedKeysUnique | crates/aex-audit/src/event.rs:222-223 | Sorting the keys of an object has one result: any strictly ascending list of exactly its keys |
| CanonicalJson.JsonStringUnambiguous | crates/aex-audit/src/event.rs:239-241 | Escaped string literals are self-delimiting: equal text with any rests means equal strings and rests |
| CanonicalJson.Unambiguous | crates/aex-audit/src/event.rs:199-241 | For any two JSON values and any rests that are empty or start with a comma or closing bracket, equal output means equal values and equal rests |
| CanonicalJson.WriteCanonical | crates/aex-audit/src/event.rs:205-236 | The recursive writer appends exactly the canonical text of the value to the buffer |
| CanonicalJson.WriteArray | crates/aex-audit/src/event.rs:211-220 | The array loop writes the items in order with commas between them |
| CanonicalJson.WriteObject | crates/aex-audit/src/event.rs:221-234 | The object loop writes the members in key order with commas between them |
| AuditEvent.CanonicalBytes | crates/aex-audit/src/event.rs:106-132 | The buffer writes produce the canonical text; a non-object payload or a timestamp that cannot be formatted is an error |
| JsonReading.ReadsCanonical | crates/aex-audit/src/event.rs:199-241 | A JSON reader after RFC 8259 reads canonical text back to the value; in every object each key is a proper prefix of the next or has the smaller character where they first differ |
| EventReading.EventReads | crates/aex-audit/src/event.rs:106-132 | Reading an event's bytes gives exactly kind, actor, subject, payload, ts and prev, in that order, each holding its own field of the event |
| AuditEvent.EventTextUnambiguous | crates/aex-audit/src/event.rs:106-132 | Equal canonical bytes mean equal kind, actor, subject, payload, timestamp text and previous hash |
| AuditChain.CheckAtExactly | crates/aex-audit/src/event.rs:160-173 | The check at each index spelled out: the link to the previous hash or 64 zeros first, then the recomputed hash, and what each failure reports |
| AuditChain.EntryExactly | crates/aex-audit/src/memory_log.rs:36-59 | The entry an append makes, field by field, and that only an invalid event fails |
| AuditChain.TamperEvident | crates/aex-audit/src/event.rs:106-170 | Two accepted chains of any lengths with the same head have equal length and agree event by event on everything hashed, unless the two chains themselves contain a collision or a genesis preimage |
| AuditChain.TamperEvidentIdeal | crates/aex-audit/src/memory_log.rs:70-85 | The same from a collision-free hash that never yields the genesis value |
| AuditChain.AcceptedSnoc | crates/aex-audit/src/memory_log.rs:36-59 | A longer chain is accepted iff the shorter one is, the new link points at its head and the new hash recomputes |
| AuditChain.MemoryAuditLog.Append | crates/aex-audit/src/memory_log.rs:36-59 | Appends the one entry that keeps the chain accepted and returns its receipt; an invalid event changes nothing |
| AuditChain.MemoryAuditLog.VerifyChain | crates/aex-audit/src/memory_log.rs:70-85 | Succeeds iff every link and hash checks, otherwise reports the first failing one |
| AuditFile.Replay | crates/aex-audit/src/file_log.rs:76-101 | Succeeds exactly on files whose records form an accepted chain, with its head and length; otherwise reports the first bad line |
| AuditFile.BlankLinesIgnored | crates/aex-audit/src/file_log.rs:85-87 | A blank line anywhere changes neither the records nor the result of replay |
| AuditFile.FileAuditLog.Open | crates/aex-audit/src/file_log.rs:47-69 | Opens exactly the files that replay (a missing one is empty), with head and length in agreement with the file |
| AuditFile.FileAuditLog.Append | crates/aex-audit/src/file_log.rs:105-133 | Adds one record and keeps head and length equal to a replay of the file; errors leave file and state alone |
| AuditFile.FileAuditLog.VerifyChain | crates/aex-audit/src/file_log.rs:139-152 | Succeeds iff the file on disk replays to the head and length in memory |
| AuditFile.StepKeepsConsistent | crates/aex-audit/src/file_log.rs:105-133 | Append, reopen and stray blank lines each keep the file log equal to the memory log fed the same events |
| AuditFile.RunsStayConsistent | crates/aex-audit/src/file_log.rs:47-152 | After every serial run the file replays to the in-memory state, the chain verifies, and the records are those of the memory log |
| AuditFile.TamperedFilesAreDetected | crates/aex-audit/src/file_log.rs:139-152 | After any run, if the file is replaced by any lines and verification still succeeds, the records agree with the events appended, unless the two chains show a collision or a genesis preimage |
| ResolverCache.CacheStore.Insert | crates/aex-identity/src/resolver_chain.rs:319-337 | The entry joins, the size is capped, survivors are unchanged, and everything evicted is no newer than everything kept |
| ResolverCache.CacheStore.Extend | crates/aex-identity/src/resolver_chain.rs:311-317 | Only the time stamp of the entry moves; its record is returned, or nothing if there is none |
| ResolverCache.CacheStore.Invalidate | crates/aex-identity/src/resolver_chain.rs:234-239 | Removes that handle alone |
| ResolverCache.CacheStore.Claim | crates/aex-identity/src/resolver_chain.rs:188-196 | Takes the in-flight slot iff it is free, otherwise hands out the holder's notifier |
| ResolverCache.CacheStore.Release | crates/aex-identity/src/resolver_chain.rs:221-224 | Frees the slot and returns its notifier |
| ResolverCache.SortByAge | crates/aex-identity/src/resolver_chain.rs:330-332 | Every key once, oldest entry first |
| ResolverCache.DropFirst | crates/aex-identity/src/resolver_chain.rs:333-335 | Removes exactly the first keys of the list and nothing else |
| ResolverChain.SingleFlightStep | crates/aex-identity/src/resolver_chain.rs:178-229 | Every step keeps: a handle is in flight exactly while one task leads it, and the slot names that task |
| ResolverChain.RunKeepsInv | crates/aex-identity/src/resolver_chain.rs:178-337 | All invariants hold in every state of every interleaving |
| ResolverChain.AtMostOneFetch | crates/aex-identity/src/resolver_chain.rs:178-229 | In every interleaving at most one resolver call per handle is outstanding and the cache is within capacity |
| ResolverChain.ResolvedRecordsAreGenuine | crates/aex-identity/src/resolver_chain.rs:178-288 | Any record returned, on the fast path, as leader or as waiter, came from an earlier fresh reply of the scheme's resolver called on that handle |
| ResolverChain.NotModifiedExtendsSeen | crates/aex-identity/src/resolver_chain.rs:254-285 | A not-modified reply errors or extends the very record that was cached when its ETag was read |
| ResolverChain.HeldExactly | crates/aex-identity/src/resolver_chain.rs:234-337 | In every run the cache holds a record iff some insertion stored it and no invalidation, eviction or other record came since |
| ResolverChain.WaiterReturnsExactly | crates/aex-identity/src/resolver_chain.rs:198-214 | A woken waiter returns a record iff some insertion stored it and nothing disturbed it since, whatever its leader returned |
| ResolverChain.LeaderRecordReachesWaiter | crates/aex-identity/src/resolver_chain.rs:198-227 | A leader's record reaches its waiter if the leader's insertion is undisturbed until the waiter looks |
| ResolverChain.NoCapacityFailsWaiters | crates/aex-identity/src/resolver_chain.rs:198-214 | With capacity zero every woken waiter fails |
| ResolverFreshness.CachedExactly | crates/aex-identity/src/resolver_chain.rs:254-337 | The cache holds a record with a stamp iff some answer or extension of that time put it there and nothing touched it since |
| ResolverFreshness.FastReadExactly | crates/aex-identity/src/resolver_chain.rs:182-185 | The fast path returns a record iff the cache holds it and the clock has advanced by less than the TTL since the answer or extension that stamped it; otherwise the call goes on |
| ResolverFreshness.FetchSendsCachedEtag | crates/aex-identity/src/resolver_chain.rs:254-256 | A conditional fetch sends the ETag of the record cached when it was read, or none |
| ResolverFreshness.LeaderResultExactly | crates/aex-identity/src/resolver_chain.rs:246-288 | What a leader returns was settled by one step of its own: no resolver, the resolver's error, its fresh record, the extended record, or nothing to extend |
| ResolverChain.NotifyMisses | crates/aex-identity/src/resolver_chain.rs:188-227 | A notification leaves a waiter behind iff the waiter holds the notifier but has not created its future |
| ResolverChain.LeftBehindForever | crates/aex-identity/src/resolver_chain.rs:198-218 | Such a waiter never returns, in any continuation |
| ResolverChain.SuccessCanLeaveWaiterBehind | crates/aex-identity/src/resolver_chain.rs:188-227 | For every resolvable handle there is a run where the leader succeeds and the second caller waits for ever |
| Wire.DecodeInvertsEncode | crates/aex-core/src/wire.rs:54-287 | One line-splitting decoder returns version, type and every field of whatever any encoder accepts, decimals and empty optional fields included |
| Wire.DecodeOnlyFromEncode | crates/aex-core/src/wire_v2.rs:60-391 | The decoder accepts nothing but encoder output |
| Wire.EncodeInjective | crates/aex-core/src/wire_v2.rs:60-351 | Equal bytes, over all twelve encoders, mean the same version, type and fields |
| WireText.RegistrationEncodes | crates/aex-core/src/wire.rs:54-77 | The registration encoders of both versions spelled out: the first field refused and its error, else the header and every `name=value` line |
| WireText.TransferIntentEncodes | crates/aex-core/src/wire.rs:115-143 | The transfer-intent encoders of both versions spelled out: the first field refused and its error, else the header and every `name=value` line |
| WireText.DataTicketEncodes | crates/aex-core/src/wire.rs:161-183 | The data-ticket encoders of both versions spelled out: the first field refused and its error, else the header and every `name=value` line |
| WireText.KeyRotationEncodes | crates/aex-core/src/wire.rs:210-238 | The rotation encoders of both versions spelled out: the first field refused and its error, else the header and every `name=value` line |
| WireText.TransferReceiptEncodes | crates/aex-core/src/wire.rs:243-272 | The receipt encoders of both versions spelled out: the first field refused and its error, else the header and every `name=value` line |
| WireText.DecisionRequestEncodes | crates/aex-core/src/wire_v2.rs:263-287 | The decision-request encoder spelled out: the first field refused and its error, else the header and every `name=value` line |
| WireText.DecisionResponseEncodes | crates/aex-core/src/wire_v2.rs:316-351 | The decision-response encoder spelled out: the first field refused and its error, else the header and every `name=value` line |
| WireText.EncodedFieldsAreFound | crates/aex-core/src/wire_v2.rs:60-351 | A reader that looks lines up by name finds every field of every encoded message under its own name |
| Wire.EncodesExactlyAcceptable | crates/aex-core/src/wire_v2.rs:60-391 | Every encoder accepts iff all printed values are single ASCII lines, only MIME type, file name and reason are empty, the nonce is 32 to 128 hex digits, rotated keys differ, and action or outcome is a known one |
| Wire.ValuesAreSingle | crates/aex-core/src/wire.rs:79-108 | No accepted field holds a line feed |
| Text.JoinThenSplit | crates/aex-core/src/wire.rs:66-75 | Splitting undoes joining on separator-free parts |
| Text.PrintThenReadInt | crates/aex-core/src/wire.rs:170-182 | Signed decimals read back to the number printed |
| Hex.EncodeThenDecode | crates/aex-control-plane/src/routes/agents.rs:403-415 | Hex decoding undoes encoding |
| Hex.SameBytesIffSameDigits | crates/aex-control-plane/src/routes/agents.rs:403-415 | Two hex texts decode to the same bytes iff they agree digit by digit, letter case aside |
| KeyLedger.RotateExtendsChain | crates/aex-control-plane/src/db/agent_keys.rs:101-153 | The swap commits iff the expected key is still the newest and the new key is new; it closes that key alone at now plus 24 hours and extends the chain |
| KeyLedger.ChainCurrent | crates/aex-control-plane/src/db/agent_keys.rs:70-86 | On a chain exactly the last key is open, and it is the current one |
| KeyLedger.RotationRepeatsExactly | crates/aex-control-plane/src/routes/agents.rs:279-286 | On a chain whose rows decode, a committed rotation brings in the bytes of row i iff the new text agrees with row i's digit by digit |
| KeyLedger.SameKeyInOtherCase | crates/aex-control-plane/src/routes/agents.rs:279-286 | Rotating to the current key in other letter cases commits and stores the same key bytes again |
| KeyLedger.SomeKeyAlwaysValid | crates/aex-control-plane/src/db/agent_keys.rs:45-64 | Whatever the clock did, some key is valid at every time from the first start on |
| KeyLedger.ValidKeysExactly | crates/aex-control-plane/src/db/agent_keys.rs:45-64 | With a clock that never steps back a key is valid at t iff it is the newest started by t or its successor started in (t - 24h, t] |
| KeyLedger.ValidKeyCount | crates/aex-control-plane/src/db/agent_keys.rs:40-64 | The number of valid keys is one plus the number of rotations in the last 24 hours |
| KeyLedger.ValidKeysAt | crates/aex-control-plane/src/db/agent_keys.rs:45-64 | Returns exactly the valid rows, newest start first |
| KeyLedger.VerifyWithValidKeys | crates/aex-control-plane/src/verify.rs:28-63 | Accepts iff the signature has 64 bytes and some key valid at t verifies it; each error has its exact condition |
| KeyLedger.AcceptedKeysExactly | crates/aex-control-plane/src/verify.rs:28-63 | Acceptance in terms of rotations: by the newest key or one superseded within 24 hours |
| KeyTables.Database.InsertAgent | crates/aex-control-plane/src/db/agents.rs:32-75 | Two inserts with rollback: agents and ledgers keep the same set of ids, the call succeeds iff id and key are new, a new agent has exactly one open key and all other ledgers are untouched; on an error nothing changes |
| KeyTables.Database.InsertAgentRow | crates/aex-control-plane/src/db/agents.rs:42-54 | Inserts the agent unless its id or its key is taken, naming the violated constraint |
| KeyTables.Database.InsertKeyRow | crates/aex-control-plane/src/db/agents.rs:59-71 | Appends an open row unless the agent has that key already or another open key, naming the violated constraint |
| KeyTables.InsertedExactly | crates/aex-control-plane/src/db/agents.rs:23-75 | While agents and ledgers have the same ids, registration succeeds iff id and key are new and then starts the ledger with its one open key |
| KeyTables.Database.ConsumeRotateNonce | crates/aex-control-plane/src/db/agent_keys.rs:158-175 | True iff the nonce was unused; afterwards it is used |
| KeyTables.Database.InsertRotation | crates/aex-control-plane/src/db/agent_keys.rs:101-153 | Update, count and insert take effect as the swap does, or not at all |
| KeyTables.CloseMatching | crates/aex-control-plane/src/db/agent_keys.rs:117-137 | Closes exactly the matching open rows and counts zero iff there is none |
| KeyRotation.StepKeepsInv | crates/aex-control-plane/src/routes/agents.rs:239-362 | Every step of every concurrent registration or rotation keeps the ledger, nonce and commit invariants |
| KeyRotation.RunKeepsInv | crates/aex-control-plane/src/routes/agents.rs:84-362 | They hold in every state of every interleaving |
| KeyAdmission.RegisterAdmits | crates/aex-control-plane/src/routes/agents.rs:84-146 | A registration is let in iff labels, nonce, hex lengths and the five-minute window are as documented, the key parses, and its 64-byte signature verifies over the spelled-out text |
| KeyAdmission.RotateAdmits | crates/aex-control-plane/src/routes/agents.rs:239-323 | A rotation is let in iff id, nonce, hex lengths and the five-minute window are as documented, both keys parse and differ as text, and the newest key's signature verifies over the spelled-out text |
| KeyAdmission.CommitsCameInTime | crates/aex-control-plane/src/routes/agents.rs:263-270 | Behind every commit there is an earlier request step within 300 seconds of its time of issue |
| KeyAdmission.RegistrationsCameInTime | crates/aex-control-plane/src/routes/agents.rs:104-111 | The same for every registered agent |
| KeyAdmission.NonceRegistersOneAgent | crates/aex-control-plane/src/routes/agents.rs:138-144 | No registration nonce backs two agents |
| KeyAdmission.ReplayCheckExactly | crates/aex-control-plane/src/db/agent_keys.rs:155-175 | A rotation passes the replay check iff no earlier request presented its nonce |
| KeyRotation.OneOpenKey | crates/aex-control-plane/src/db/agent_keys.rs:66-86 | Each registered agent has one chain of keys, with exactly the last one open |
| KeyRotation.EveryKeyAuthorised | crates/aex-control-plane/src/routes/agents.rs:271-340 | Every key after the first came from a commit that closed the key before it, whose request that very key had signed over a challenge naming both |
| KeyRotation.NoncesBackOneCommit | crates/aex-control-plane/src/routes/agents.rs:325-330 | No nonce backs two commits |
| KeyRotation.RacesHaveOneWinner | crates/aex-control-plane/src/db/agent_keys.rs:88-100 | Of the requests that read the same current key at most one commits |
| KeyRotation.RegisteredAgentsCanAlwaysVerify | crates/aex-control-plane/src/db/agents.rs:23-75 | From its first key's start on every registered agent has a valid key at every time, under any clock |
| KeyRotation.StartsFollowClock | crates/aex-control-plane/src/routes/agents.rs:332-344 | When the readings of the clock never step back, every ledger lists its keys by start time, in whatever order requests commit: a request reads the clock after the key it will close had started |
| KeyRotation.RunAcceptsExactly | crates/aex-control-plane/src/verify.rs:28-63 | In every run whose clock readings never step back the accepted signatures are exactly those of the newest key and of keys superseded within 24 hours |
| KeyProvenance.StepKeepsBacked | crates/aex-control-plane/src/routes/agents.rs:84-362 | Every step keeps: what is stored about agents and keys is backed by checks that passed |
| KeyProvenance.FirstKeysAreProven | crates/aex-control-plane/src/routes/agents.rs:84-186 | In every interleaving an agent's first key signed its own registration, its id is derived from that request and key, and no two agents registered one key |
| KeyProvenance.StoredKeysAreUsable | crates/aex-control-plane/src/routes/agents.rs:315-323 | In every interleaving every stored key has 32 bytes, parses, and is what its hex text decodes to, so verification never skips one |
| KeyProvenance.RunAcceptsSignatures | crates/aex-control-plane/src/verify.rs:28-63 | In every run whose clock readings never step back, the accepted signatures are exactly those of the newest key and of keys superseded within 24 hours; no stored key is unusable |
| KeyRepetition.RepeatedKeysExactly | crates/aex-control-plane/src/routes/agents.rs:279-286 | In every interleaving two rows of a ledger hold the same key bytes iff their texts have the same digits |
| KeyRepetition.CommitChangesKeyExactly | crates/aex-control-plane/src/routes/agents.rs:279-346 | In every interleaving a committed rotation changed the key bytes iff the text it asked for differs from the text it read in more than letter case |
| KeyRepetition.RunRepeatsKey | crates/aex-control-plane/src/routes/agents.rs:239-362 | From the start, any registration and any rotation to the same key that pass the handlers' checks lead to a ledger holding the key twice |
| KeyRepetition.UpperCaseRotationRepeatsKey | crates/aex-control-plane/src/routes/agents.rs:239-362 | Such requests exist: a run that registers a key in lower case and rotates to it in upper case |
| Tickets.TicketVerifier.Accept | crates/aex-data-plane/src/ticket.rs:74-122 | Checks in the source's order, and spends the nonce exactly on success |
| Tickets.ExpiryExactIffSumFits | crates/aex-data-plane/src/ticket.rs:82-88 | The 64-bit expiry test agrees with exact arithmetic at every clock reading iff expires plus skew fits |
| Tickets.NoExpiredPassesIffNoUnderflow | crates/aex-data-plane/src/ticket.rs:82-88 | No expired ticket passes at any clock reading iff the sum does not underflow |
| Tickets.FarFutureTicketRefused | crates/aex-data-plane/src/ticket.rs:60-88 | With the default skew a ticket expiring at the largest 64-bit time is refused at every clock reading except the first 60 seconds representable |
| Tickets.UsedAreAccepted | crates/aex-data-plane/src/ticket.rs:110-113 | The used nonces are exactly those of the calls accepted so far |
| Tickets.AcceptedIffCheckedAndNew | crates/aex-data-plane/src/ticket.rs:74-122 | Over any sequence a call succeeds iff its ticket passes every check and no earlier accepted call carried its nonce |
| Tickets.AcceptedTicketsAreIssued | crates/aex-data-plane/src/ticket.rs:74-122 | Under an ideal signature every accepted ticket matches an issued one on all five fields, names this data plane, is unexpired within the skew unless the sum underflows, and no nonce is accepted twice |
| TicketAcceptance.EveryAnswerExactly | crates/aex-data-plane/src/ticket.rs:74-122 | Over any sequence of calls, every answer, success or error, from the ticket, the clock and the earlier successes alone: audience, expiry in exact arithmetic, 64-byte signature, fields, signature over the spelled-out text, replay |
| TicketAcceptance.CallSucceedsExactly | crates/aex-data-plane/src/ticket.rs:74-122 | A call succeeds, with the ticket's fields, iff its ticket is acceptable and no earlier successful call carried its nonce |
| TicketAcceptance.GenuineTicketIsAccepted | crates/aex-data-plane/src/ticket.rs:74-122 | A ticket with a 64-byte signature that verifies, presented in time and first to the data plane it names, is accepted |
| TicketAcceptance.ServedExactly | crates/aex-data-plane/src/server.rs:85-164 | With an honest cache a payload is served iff the request brings an acceptable unused ticket for that transfer, the blob is stored, and it passes the scan |
| Scanner.Aggregate | crates/aex-scanner/src/verdict.rs:85-104 | The loop yields the worst result reported and keeps every verdict |
| Scanner.ContainsSliceExactly | crates/aex-scanner/src/eicar.rs:51-56 | The window search is containment of a non-empty slice |
| Scanner.RunPipeline | crates/aex-scanner/src/pipeline.rs:66-75 | The four shipped scanners run in order and are aggregated |
| Scanner.OverallExactly | crates/aex-scanner/src/verdict.rs:85-108 | The overall result of the shipped pipeline: blocked, else suspicious on a MIME mismatch or a pattern, else clean; never an error |
| Scanner.EicarSignature | crates/aex-scanner/src/eicar.rs:19-20 | The signature is the 68 characters of the EICAR file |
| Scanner.PipelineBlocksExactly | crates/aex-data-plane/src/main.rs:179-185 | The shipped pipeline blocks exactly payloads over the size cap or containing the EICAR bytes |
| DataPlane.Server.Serve | crates/aex-data-plane/src/server.rs:85-164 | From an honest cache the answer is that of scanning every time, the cache stays honest, and only this transfer's entry may be added |
| DataPlane.Server.Insert | crates/aex-data-plane/src/blob.rs:37-42 | With no request in flight, storing a blob keeps the cache honest iff a cached verdict for its id matches the new blob |
| DataPlane.Server.Remove | crates/aex-data-plane/src/blob.rs:44-47 | Drops that blob alone and keeps the cache honest |
| DataPlane.UninterruptedIsRescanned | crates/aex-data-plane/src/server.rs:85-164 | In the step machine a request nobody interrupts, with an honest cache entry, is answered as scanning would: the server is the machine without interleaving |
| DataPlane.StepKeepsTickets | crates/aex-data-plane/src/server.rs:91-111 | Every step keeps: each admitted request holds a nonce no other admitted request holds |
| DataPlane.StepKeepsHonest | crates/aex-data-plane/src/server.rs:112-143 | Every step of every interleaving keeps cache and requests in agreement with scanning the transfer's own blob |
| DataPlane.CachedAsRescanned | crates/aex-data-plane/src/server.rs:109-143 | While no blob is replaced, in every interleaving requests are served or blocked exactly as rescanning would decide |
| DataPlane.DeliveriesAreAuthorised | crates/aex-data-plane/src/server.rs:85-107 | Under an ideal signature every admitted request carries an issued, unexpired ticket for its transfer and this data plane, with a nonce no other admitted request carries; whatever is done to the blobs |
| DataPlane.ReplacedBlobEscapesScan | crates/aex-data-plane/src/server.rs:112-143 | For any clean and any blocked blob there is a run in which replacing the first by the second hands out the second |
| BlobReplacement.BlocksIgnoresMetadata | crates/aex-data-plane/src/server.rs:122-125 | Whether the pipeline blocks a blob depends on its bytes alone |
| BlobReplacement.RunEvidence | crates/aex-data-plane/src/server.rs:109-143 | In every interleaving every verdict, cached or held by a request, is that of some blob put under its id before |
| BlobReplacement.RunServesClean | crates/aex-data-plane/src/server.rs:109-145 | While an id gets no blocked blob after a clean one, no interleaving hands out under it a payload the scanner blocks |
| BlobReplacement.RunRefusesRightly | crates/aex-data-plane/src/server.rs:109-143 | While an id gets no clean blob after a blocked one, its requests are refused only while what is stored is blocked |
| BlobReplacement.BlockedAfterCleanIsServed | crates/aex-data-plane/src/server.rs:120-145 | Any puts with a blocked blob after a clean one under an id that can be asked for have a run that hands the blocked one out |
| BlobReplacement.CleanAfterBlockedIsRefused | crates/aex-data-plane/src/server.rs:120-143 | Any puts with a clean blob after a blocked one have a run that refuses the request while the clean one is stored |
| BlobReplacement.ServesCleanExactly | crates/aex-data-plane/src/server.rs:109-145 | For any sequence of puts: every run hands out only payloads the scanner passes iff no id for which some ticket passes gets a blocked blob after a clean one |
| BlobReplacement.RefusesRightlyExactly | crates/aex-data-plane/src/server.rs:109-143 | For any sequence of puts: every run refuses requests only while what is stored is blocked iff no id for which some ticket passes gets a clean blob after a blocked one |
| BlobReplacement.ScanningIsSoundExactly | crates/aex-data-plane/src/server.rs:109-145 | Both hold in every run iff all blobs put under one id for which some ticket passes get the same verdict |
| BlobReplacement.DeliveriesAreAuthorisedAndScanned | crates/aex-data-plane/src/server.rs:85-164 | Under an ideal signature every payload handed out was asked for with an issued, unexpired ticket for that transfer and this data plane, with a nonce of its own; and if a scanner is configured and its transfer got no blocked blob after a clean one, it is within the size cap and free of the EICAR bytes |
| EndpointHealth.OnProbeSuccess | crates/aex-core/src/endpoint.rs:118-137 | The stepwise update equals the two-case transition table for a success |
| EndpointHealth.OnProbeFailure | crates/aex-core/src/endpoint.rs:140-156 | The stepwise update equals the two-case transition table for a failure |
| EndpointHealth.OneProbeSettles | crates/aex-core/src/endpoint.rs:118-156 | From any 8-bit counters one probe restores the caps and leaves at most one counter non-zero |
| EndpointHealth.OneProbeExactly | crates/aex-core/src/endpoint.rs:118-156 | Both transitions from any stored counters in exact arithmetic: nothing wraps |
| EndpointHealth.OtherCounterExactly | crates/aex-core/src/endpoint.rs:118-156 | From a fresh start the counter that cannot flip the status counts the probes confirming it, up to its cap |
| EndpointHealth.UnhealthyIffDown | crates/aex-core/src/endpoint.rs:107-156 | From a fresh start, for every probe sequence, Unhealthy iff three consecutive failures occurred with no two consecutive successes after them |
| EndpointHealth.FoldedEndpoint | crates/aex-control-plane/src/health_monitor.rs:258-269 | The same for an endpoint first seen by the monitor; nothing but its health changes |
| EndpointHealth.FlipsAreBounded | crates/aex-core/src/endpoint.rs:95-156 | With u flips down and h flips up in n probes, 3u + 2h is at most n, and u is h, or h + 1 exactly when Unhealthy |
| EndpointHealth.StoredStateIsForgotten | crates/aex-core/src/endpoint.rs:64-156 | Whatever was stored, after two consecutive successes or three consecutive failures the status follows the history condition for ever |
| EndpointHealth.ProbeRow | crates/aex-control-plane/src/health_monitor.rs:213-246 | Each endpoint gets its one probe folded in; counted transitions are the status changes of endpoints that had a status |
| EndpointHealth.Monitor.Tick | crates/aex-control-plane/src/health_monitor.rs:200-251 | One pass updates every row and counts the non-empty ones; a failed write stops at its row with the earlier rows stored and the rest untouched |
| EndpointHealth.SeedNeverFlips | crates/aex-control-plane/src/health_monitor.rs:227-231 | The seeding probe, which the transition count skips, never changes the status |
| Sorting.SortTagged | packages/sdk-typescript/src/endpoint.ts:91-95 | Sorting by (key, place) is strict, and without the places it is the stable sort by key |
| Sorting.SortedStays | packages/sdk-typescript/src/endpoint.ts:91-95 | A sorted list is left as it is |
| Orchestrator.TunnelOrchestrator.StartAll | crates/aex-tunnel/src/orchestrator.rs:79-125 | One outcome per entry, in order; a failure does not stop the others; earlier outcomes are dropped |
| Orchestrator.TunnelOrchestrator.StopAll | crates/aex-tunnel/src/orchestrator.rs:129-140 | No outcomes remain |
| Orchestrator.TunnelOrchestrator.Endpoints | crates/aex-tunnel/src/orchestrator.rs:145-169 | Returns the ranked started transports without their places |
| Orchestrator.RankedExactly | crates/aex-tunnel/src/orchestrator.rs:142-169 | The ranking holds exactly the started transports, strictly ordered by priority and then start order |
| Orchestrator.PublishedFromEntries | crates/aex-tunnel/src/orchestrator.rs:79-169 | What is recorded for each entry and reply, and that exactly the entries that came up are published, with their kind, URL and priority |
| EndpointFallback.DialedExactly | packages/sdk-typescript/src/endpoint.ts:18-42 | The kinds dialed, the one only known, and the entry every other endpoint leaves |
| EndpointFallback.TryEndpoints | packages/sdk-typescript/src/endpoint.ts:129-159 | Stops at the first place of the sorted list that is dialable and answers; every earlier place left exactly its skip or failure entry, later ones none; the skip callback is told the skips in order |
| EndpointFallback.WalkExactly | packages/sdk-typescript/src/endpoint.ts:91-95 | The walk is the given list in (priority, position) order, each position once |
| EndpointFallback.ChosenIsFirst | packages/sdk-typescript/src/endpoint.ts:129-159 | In terms of the given list: exactly the positions before the chosen one by (priority, position) were visited, once each, and none answered |
| EndpointSelection.WalkFollowsPublished | packages/sdk-typescript/src/endpoint.ts:91-95 | The recipient walks the published endpoints in the very order the sender published them |
| Utf8.Injective | crates/aex-jws/src/lib.rs:224-225 | Distinct texts have distinct UTF-8 bytes |
| Base64Url.EncodeThenDecode | crates/aex-jws/src/lib.rs:226-230 | Decoding undoes encoding on all byte strings |
| Base64Url.DecodeThenEncode | crates/aex-jws/src/lib.rs:262-270 | Nothing but encoder output decodes: padding, stray lengths and trailing bits are refused |
| Base64Url.CapInBytes | crates/aex-jws/src/lib.rs:102 | 65536 encoded characters are 49152 bytes |
| EncodingTables.AlphabetExactly | crates/aex-jws/src/lib.rs:226-231 | The 64 characters of section 5 of RFC 4648, by code point |
| EncodingTables.GroupExactly | crates/aex-jws/src/lib.rs:226-231 | A group prints its 24 bits six at a time from the left |
| EncodingTables.GroupsInOrder | crates/aex-jws/src/lib.rs:226-231 | Group number k stands in characters 4k and following |
| EncodingTables.HexExactly | crates/aex-control-plane/src/routes/agents.rs:403-415 | Hex text decodes iff it is an even number of hex digits, each pair one byte, high digit first |
| EncodingTables.CharBytesExactly | crates/aex-jws/src/lib.rs:224-225 | The byte forms of section 3 of RFC 3629 |
| JwsExactly.HeaderReads | crates/aex-jws/src/lib.rs:219-225 | The printed header read as JSON is exactly alg, kid and typ, in that order |
| JwsExactly.ReadHeaderExactly | crates/aex-jws/src/lib.rs:276-294 | Which JSON values are headers, and which algorithm errors the others give |
| JwsExactly.VerifiesExactly | crates/aex-jws/src/lib.rs:242-337 | Verification gives a result iff the three segments, caps, header members, key lookup, algorithms and signature say so |
| JwsExactly.RefusalsMean | crates/aex-jws/src/lib.rs:242-330 | A refusal over key or signature says what is so: no such key, a key of another algorithm, a key that refuses a signature over this input, or the lookup's own error |
| Jws.ParseAlgorithm | crates/aex-jws/src/lib.rs:117-132 | Reads exactly the two permitted names |
| Jws.HeaderSegmentInjective | crates/aex-jws/src/lib.rs:219-226 | A header segment determines algorithm and kid |
| Jws.HeadersCanBeParsed | crates/aex-jws/src/lib.rs:276-277 | A parser that reads back every printed header exists |
| Jws.SignThenVerify | crates/aex-jws/src/lib.rs:210-337 | Signing fails exactly on an empty kid; the result verifies to the same payload, kid and algorithm iff the header segment is within the cap and the payload has at most 49152 bytes, and is otherwise refused as too large |
| Jws.AcceptedWasSigned | crates/aex-jws/src/lib.rs:242-337 | Under an ideal signature whatever verifies was signed as a JWS with that payload, kid and algorithm under the key the lookup gives, even if that key also signs wire messages |
| Jws.WireIsNoSigningInput | crates/aex-core/src/wire.rs:54-272 | No wire message is the signing input of any JWS, so a signature over one never stands for the other |
| AgentIds.PrintThenParse | crates/aex-core/src/types.rs:104-142 | Parsing the printed form of well-formed components returns them |
| AgentIds.ParseThenPrint | crates/aex-core/src/types.rs:104-142 | Parsing succeeds on nothing else, and what it returns prints back |
| AgentIds.SchemeExactly | crates/aex-core/src/types.rs:39-57 | Dispatch by each of the five literal prefixes, on every text |
| AgentIds.SchemeMatchesMethod | crates/aex-core/src/types.rs:39-63 | For every parsable id the prefix dispatch agrees with the parsed method |

## Left out

- SHA-256, Ed25519 and secp256k1 themselves; they are parameters with stated premises.
- The SQL text and schema: tables are maps and sequences, each statement or transaction is one step; unique constraints are those of the migrations that the handlers distinguish.
- HTTP routing, configuration, metrics other than the transition count, CLI, MCP server, web pages, tunnel processes, DNS and network probes.
- Error message texts of the wire validators, tickets and JWS parser; errors keep their kind and fields.
- Timestamp formatting and the parsing of log lines: a timestamp is its RFC 3339 text or unformattable, a log line is blank, a record as it was written, or unparsable.
- Partial disk writes: a log line is written whole or not at all; `verify_chain` racing with `append` (file_log.rs:142-143) is not modelled.
- Progress of resolver waiters and cancelled leaders; the resolver results are safety results, beside the exact condition under which a wake-up is lost.
- The resolvers behind the chain: that a returned record names the requested agent is not checked by the chain and not claimed here.
- ResolverCache.SortByAge: entries of equal age come in any order, as in the hash map's own iteration order.
- EndpointFallback.TryEndpoints: a priority of NaN is not modelled, because the order the language's sort then gives is not defined; a skip callback that throws is not modelled.
- Tickets.TicketVerifier.Accept: models wrapping 64-bit addition; a build with overflow checks stops instead.
- Scanner.RunPipeline: verdict details and durations are left out; magic-byte detection and the pattern set are parameters, and only what the two scanners make of them is modelled.
- DataPlane.Server.Serve: one request at a time; interleaved requests are the step machine of the same module, joined to it by DataPlane.UninterruptedIsRescanned. File-backed blobs and response headers are left out.
- DataPlane.Server.Insert: speaks of a server with no request in flight; what replacing a blob does to interleaved requests is BlobReplacement.
- KeyRotation.StartsFollowClock: the database clock behind a registration and the process clock behind a rotation are taken as one clock.
- EndpointHealth.Monitor.Tick: the rows are those loaded for the pass (at most 500 in the source), with the metrics registry attached and the two transition directions counted together.
- Numbers in JSON payloads are tokens of the number grammar of RFC 8259; which token the serializer prints for a float is not modelled.
- Jws.SignThenVerify: the JSON parser is a parameter that reads printed headers back; nothing is assumed about other header texts.
- base58 in did:key: decoded by a library whose code is not in the repository.
- Captive-portal consensus and IP range checks: fixed tables and majority tests over network answers, each settled by one branch.
- The A2A bridge, billing ring, retry loop, capability bits, API keys, tiers and runbooks: independent of the components above, each a local rule without state shared across calls.
