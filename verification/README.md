# Agent gateway anti-rollback core: a Dafny model

The agent gateway is an enclave that holds treasury keys, replay counters and spend totals in one sealed
body. The host that stores the sealed body, starts the enclave and relays its messages is hostile: it may
hand back any earlier sealed body, drop, delay, repeat, alter or make up any message, commit requests to
the anchor included, and stop the process at any point. What stops a rollback is a remote *anchor* that
records, per keystore, the last epoch, structural version and digest of the *marks* (counters, spends,
recovery counter), and answers a fresh nonce with a signed statement of them. This project models that
mechanism from the bytes up, proves what it keeps and shows what it does not.

## What is modelled

Each module follows one part of the program, lowest layer first.

- `Bytes`, `Cbor`: byte strings, big-endian integers, lexicographic order; CBOR values and their one
  canonical encoding (core deterministic encoding, section 4.2.1 of RFC 8949, over the item heads of its
  section 3). `Encode` is the single definition of every wire form in the project.
- `StrictParsing`, `MapAccess`, `Emit`: the strict parser as a class that advances a cursor, the duplicate
  key bitmask, the map accessors, the hand-rolled emitters.
- `Keystore`, `Marks`, `Positional`, `Sealing`: the body and its validation, counter advance, commit epoch
  and audit ring; the marks payload, its encoder and seeding; the three positional decoders; the gates of
  sealing.
- `Anchor`, `Capabilities`, `Preimages`: parsing, signed preimages and verification of the freshness
  reply, the marks reply, the commit acknowledgement and the capability.
- `Boot`, `Framing`, `Commit`, `Binding`, `Operations`: the process state (challenge slot, install-once
  binding, live body), the boot driver over an arbitrary transport, the serve decision, message frames, the
  per-operation commit, the payload binding, and two whole operations (key generation and restore) from
  decoded request to emitted blob.
- `AntiRollback`: the whole system as a state machine whose steps belong to the host, the network, the
  anchor and the enclave, over runs of any length. `Replay`: replay safety over all of its runs;
  `Forgeries`: what made-up commit requests can still do; `Refinement`: that the handlers and the boot
  handshake of the modules above are runs of it.
- `Restore`, `Envelope`, `Backup`: restore admission, the forward-only gate, apply and adopt; both
  length-prefixed envelope formats with their strict parsers; the payload inside them, sealing a backup
  and opening a re-wrapped one.
- `Keygen`, `Sessions`: all-or-nothing key generation; the accept loop, its atomic counter and session
  threads under every interleaving.

Where the program changes things step by step (the parser cursor, the process slots, the body behind a
mutable reference, the accept loop's counter) the model is a class with methods; each such method is tied
to a function or predicate on values, and the theorems are stated about those.

### The main results

1. *The strict decoder is the inverse of the canonical encoder*, for every input and cap
   (`StrictDecodeMapCapped`), and likewise the three positional decoders, including both allocation
   guards. Consequently a signature binds the exact wire bytes (`AnchorSignatureBindsWire` and its three
   siblings), and no preimage of one leg is a preimage of another (`LegsDisjoint`).
2. *Replay safety* (`Replay.NoCapabilityTwice`), over every run of the whole system that mixes operations,
   restores, dispenses, lost acknowledgements, crashes, boots from any emitted body, adopts and commit
   requests that the host makes up: no capability is accepted twice, with nothing assumed of the hash or of
   the authority keys. If no record's version is below an earlier one's, the counters accepted on one lane
   strictly increase as well; without made-up requests that is always so (`RunKeepsVersions`).
   `SomeRunAccepts` shows that acceptances happen. The condition on versions is needed: once a made-up
   request may lower one, a counter of a lane is accepted twice (`CounterRepeats`). Spends are not safe even
   under it: one made-up request rolls a dispense back (`SpendsRollBack`); without any they never fall
   (`SpendsNeverFall`).
3. *The code refines the machine*. A handler's success extends every run it starts from by its proposing
   step, the anchor's record and the very answer on its channel, and ends live on its candidate with one
   more acceptance (`KeygenIsARun`, `RestoreIsARun`; `AnswerEndsOperation` when anything else happens in
   between). A whole boot handshake, whatever host and anchor do around it, is a stretch of the machine that
   ends live on the body the code ends with, or not live (`HandshakeIsARun`, `ReconcileIsAStep`).
4. *The boot driver*, over every transport: what it draws, asks and is answered is exactly one run of a
   trace function (`RunBootHandshake`), and over such logs, at most as many freshness and marks requests as
   attempts leave (`RequestsBounded`); each carries the nonce drawn just before it, at most one reply is
   rejected and nothing is asked after it (`ExchangesInOrder`); the body moves only by adopts
   (`HandshakeAdopts`); `Ready` means current and bound by this very run (`ReadyIsCurrent`). With an honest
   still anchor it is `Ready` after at most two freshness requests (`HonestHandshake`). An honest anchor
   exists exactly when the marks fit a marks reply or none is needed (`HonestResponderExists`); what seals
   fits (`SealedMarksFit`). So after every run without made-up requests and without a digest collision,
   every emitted body of the anchor's structural version boots (`EmittedBodiesBoot`). A process serves a
   command only after its own boot was `Ready` (`BootThenServe`).
5. *An adopt carries exactly the marks that the anchor committed to* and lowers no lane, spend or recovery
   counter (`AdoptCarriesCommittedMarks`, `AdoptChainKeeps`); nor does *a restore*
   (`RestoreNeverLowers`, `RestoreTargetOnlyRaises`), and what else it lowers is exact
   (`RestoreLowersExactly`). An export that is re-wrapped and authorised restores exactly when the signed
   marks cover both sides and nothing is full (`ExportRestores`). A commit whose sealed body is lost is
   adopted back exactly or refused, never adopted in part (`LostCommit`).
6. *Envelope framing is a bijection* in both formats (`StrictParse`, `StrictParseIngressEnvelope`), and so
   is message framing (`DecodeMessage`).
7. Key generation keeps references distinct over any sequence of calls (`CallsKeepKeysOk`); live sessions
   never exceed 32 and the counter returns to zero in every interleaving (`CapHolds`).

### Properties with an exact condition

- The recovery preimage, as a function, is not injective on all fields: its length prefixes are truncating
  casts, so an environment (or a request id) of 65536 bytes collides with an empty one
  (`LongEnvironmentCollides`, `LongRequestIdCollides`). `RecoveryPreimageExact`: for any limits on the two
  fields, no two tuples within them share a preimage if and only if both limits are at most 65535. The
  marks may have any length, as nothing follows them. The colliding inputs do not reach the program: its
  one caller, the restore handler, passes the sealed environment (at most 64 bytes after validation) and a
  request id of at most 64 bytes, and for those the preimage is injective (`HandlerPreimagesBind`).
- The preimage of the payload binding joins request id and parameters without lengths. For key generation
  it tells requests apart if and only if counts stay below 0xA201010200 (`BindingExact`,
  `HugeCountCollides`). Key generation refuses counts above 256, and the capability signs the request id
  besides, under which the preimage always determines the parameters (`BindingFixesParams`).
- A restore takes the treasury-configuration version, the authority epoch and the audit sequence from the
  backup, so it lowers each exactly when the backup is behind in it (`RestoreLowersExactly`).
- A commit request on the wire names nobody (`agent_boot_relay.rs:407-444`), so the anchor cannot tell the
  host's from the enclave's. What survives that and what does not is in main result 2.
- One process at a time is necessary for replay safety: two processes of one body can both have the same
  capability accepted, because the anchor signs a repeated request again (`ClonesAcceptTwice`). The design
  (`backlog/docs/agent-gateway-anti-rollback.md:136-139`) says of clones only that each finds the anchor
  ahead; that is what happens when they propose different requests.

### Idealisations

- `Primitives` holds signature verification and the hash as arbitrary functions; nothing is assumed of
  them. Unforgeability appears in the state machine only: an enclave step that relies on an anchor
  signature is enabled when the message is one the anchor signed.
- Collision-freedom is a premise of `StepKeepsInv`, `RunKeepsInv`, `AdoptedIsVouched`, `AckVouches`,
  `EmittedBodiesBoot` and `SpendsNeverFall`, and only about the finitely many marks that occurred in the
  run. The same six, like everything that assumes the invariant `Inv`, exclude commit requests that the
  host made up. `NoCapabilityTwice`, `RunIsAuthentic`, `PendingCompletes` and the runs of `Refinement` need
  neither. No theorem assumes an injective hash.
- The boot transport and the commit channel are classes whose answers are arbitrary and whose ghost log
  holds what was asked and answered; contracts speak of the log. The random draws of an operation, the
  authenticated encryption and the key-pair generator are arbitrary functions or values given to a method.
  As all of them are allowed, a statement about all is a statement about every adaptive adversary.
- Text is bytes with the UTF-8 validity of RFC 3629. Spends are 32-byte strings; `LessEqIsNumeric` shows
  that comparing them as bytes is comparing the 256-bit numbers.
- The anchor of `AntiRollback` obeys the commit contract of `backlog/docs/agent-gateway-anti-rollback.md`
  (lines 233-238): records are keyed by request id, a repeated request is signed again for its fresh
  nonce, a conflicting one is rejected. Its ledger only grows, by the next epoch, one request id to an
  epoch. It never reuses a statement for another nonce, and fresh nonces are unused ones.
- At most one process of a lineage is alive at a time; the design names this as a requirement on its
  operator.
- Sealing serialises at least as many bytes as the body's marks take (`CarriesMarks`), as
  `agent_anchor.rs:434-437` says of it.

Where the code and its comments disagree, the model follows the code. The driver's module comment
(`agent_boot_driver.rs:51-53`) calls an adopt terminal, while the loop seeds the body and goes round again
(`agent_boot_driver.rs:270-322`). The parser's comment calls the capability map 13 keys long
(`agent_cbor.rs:98`); a treasury capability has 14.

## Model

| member | source | states |
|---|---|---|
| Bytes.FromBEOfBE | impl/rust/enclave-protocol/src/agent_cbor.rs:148-188 | a big-endian argument reads back as the number written, for every number that fits the width |
| Bytes.BEOfFromBE | impl/rust/enclave-protocol/src/agent_backup.rs:312-326 | every fixed-width byte string is the encoding of the number read from it, so nothing is lost in reading |
| Bytes.LessIsNumeric | impl/rust/enclave-protocol/src/agent_backup.rs:1205-1229 | lexicographic order of equally long byte strings is numeric order of the big-endian numbers |
| Bytes.LessEqIsNumeric | impl/rust/enclave-protocol/src/agent_boot.rs:300-318 | the non-strict form used by the spend comparisons |
| Cbor.HeadIsShortest | impl/rust/enclave-protocol/src/agent_capability.rs:294-311 | no byte form that denotes a head is shorter than the emitted one, and none as short differs from it |
| Cbor.HeadPrefixFree | impl/rust/enclave-protocol/src/agent_cbor.rs:148-188 | a byte string starts with at most one head |
| Cbor.PrefixFree | impl/rust/enclave-protocol/src/agent_cbor.rs:194-264 | at most one value's encoding starts a byte string, and what follows it is determined |
| Cbor.EncodeInjective | impl/rust/enclave-protocol/src/agent_cbor.rs:93-102 | different values have different canonical encodings |
| StrictParsing.StrictParser.U8 | impl/rust/enclave-protocol/src/agent_cbor.rs:133-138 | reads the next byte, or fails exactly at the end without moving |
| StrictParsing.StrictParser.Take | impl/rust/enclave-protocol/src/agent_cbor.rs:139-147 | reads exactly n bytes, or fails exactly when fewer are left, without moving |
| StrictParsing.StrictParser.ReadHead | impl/rust/enclave-protocol/src/agent_cbor.rs:148-188 | returns the shortest-form head that starts the input, and fails exactly when there is none |
| StrictParsing.StrictParser.Item | impl/rust/enclave-protocol/src/agent_cbor.rs:194-264 | returns the legal value whose canonical encoding starts the input and consumes just that; fails exactly when there is none within depth and caps |
| StrictParsing.StrictParser.Items | impl/rust/enclave-protocol/src/agent_cbor.rs:219-228 | reads n legal elements, and fails only when the input does not start with n of them, so the remaining-bytes guard rejects nothing legal |
| StrictParsing.StrictParser.Entries | impl/rust/enclave-protocol/src/agent_cbor.rs:229-252 | the same for n pairs whose keys strictly ascend by encoded bytes |
| StrictParsing.StrictDecodeMapCapped | impl/rust/enclave-protocol/src/agent_cbor.rs:282-299 | decodes to m if and only if m is a legal map under the cap and the input is m's canonical encoding |
| StrictParsing.StrictDecodeMap | impl/rust/enclave-protocol/src/agent_cbor.rs:270-272 | the same at the shared 4096-byte string cap |
| StrictParsing.StrictParser.TypedHead | impl/rust/enclave-protocol/src/agent_cbor.rs:347-355 | returns the argument exactly when the input starts with a head of the expected major type |
| StrictParsing.StrictParser.Uint | impl/rust/enclave-protocol/src/agent_cbor.rs:356-360 | reads an unsigned integer exactly when its canonical encoding comes next |
| StrictParsing.StrictParser.ByteString | impl/rust/enclave-protocol/src/agent_cbor.rs:361-369 | reads a byte string within the cap exactly when its encoding comes next |
| StrictParsing.StrictParser.ByteStringExact | impl/rust/enclave-protocol/src/agent_cbor.rs:370-378 | reads a byte string of exactly n bytes exactly when its encoding comes next |
| StrictParsing.StrictParser.TextString | impl/rust/enclave-protocol/src/agent_cbor.rs:379-387 | reads valid UTF-8 text within the cap exactly when its encoding comes next |
| MapAccess.CheckStrictKeys | impl/rust/enclave-protocol/src/agent_cbor.rs:78-94 | the 64-bit mask accepts a map if and only if its keys are allowed integers in 1..=64, each once |
| MapAccess.SetBit | impl/rust/enclave-protocol/src/agent_cbor.rs:78-94 | marking a key seen changes membership of that key and of no other |
| MapAccess.MapGetAt | impl/rust/enclave-protocol/src/agent_cbor.rs:20-25 | with distinct keys, first-match lookup returns the value stored under the key, wherever it stands |
| MapAccess.ForbiddenKey | impl/rust/enclave-protocol/src/agent_cbor.rs:78-94 | a map that passes the key check has no value under a key the schema forbids |
| MapAccess.UintOrder | impl/rust/enclave-protocol/src/agent_cbor.rs:229-252 | encoded unsigned keys are ordered as the numbers are |
| MapAccess.StrictKeysAscend | impl/rust/enclave-protocol/src/agent_cbor.rs:78-94 | a strictly decoded map that passes the key check has its keys in ascending numeric order |
| MapAccess.SameLookupsSameMap | impl/rust/enclave-protocol/src/agent_cbor.rs:20-25 | a map with ascending unsigned keys is determined by its lookups |
| Emit.PutUint | impl/rust/enclave-protocol/src/agent_capability.rs:294-311 | the five-branch emitter appends the shortest-form head |
| Emit.PutText | impl/rust/enclave-protocol/src/agent_capability.rs:313-316 | appends the canonical encoding of a text string |
| Emit.PutBytes | impl/rust/enclave-protocol/src/agent_capability.rs:318-321 | appends the canonical encoding of a byte string |
| Keystore.HighestIs | impl/rust/enclave-protocol/src/agent_capability.rs:490-500 | with one row per lane, first-match lookup of a lane's counter is what that lane's row says |
| Keystore.AdvanceMovesOneLane | impl/rust/enclave-protocol/src/agent_keystore.rs:970-1003 | advancing a counter raises its lane to the given value, never lowers it, and moves no other lane |
| Keystore.AdvanceKeepsValid | impl/rust/enclave-protocol/src/agent_keystore.rs:970-1003 | advancing keeps the table within its cap with one row per lane |
| Keystore.KeystoreCell.AdvanceCounter | impl/rust/enclave-protocol/src/agent_keystore.rs:970-1003 | updates the lane's row or appends one in place; a regression or a full table leaves the body as it was |
| Keystore.KeystoreCell.AdvanceCommitEpoch | impl/rust/enclave-protocol/src/agent_keystore.rs:793-817 | bumps epoch and, if structural, the version, both or neither; overflow leaves the body as it was |
| Keystore.KeystoreCell.RecordAudit | impl/rust/enclave-protocol/src/agent_keystore.rs:838-882 | appends under the next sequence number or refuses and leaves the body as it was |
| Keystore.AuditLosesNothingUnexported | impl/rust/enclave-protocol/src/agent_keystore.rs:838-882 | recording drops at most the oldest record, and only one already exported |
| Keystore.AuditStaysValid | impl/rust/enclave-protocol/src/agent_keystore.rs:838-882 | recording keeps the ring's validity rules |
| Marks.SortAscends | impl/rust/enclave-protocol/src/agent_keystore.rs:678-724 | sorting a table with one row per lane gives strictly ascending rows, whatever the order was |
| Marks.SortIsPermutation | impl/rust/enclave-protocol/src/agent_keystore.rs:678-724 | sorting keeps every row exactly as often |
| Marks.MarksPayloadInjective | impl/rust/enclave-protocol/src/agent_keystore.rs:678-724 | one payload, one set of marks |
| Marks.ValidBodyHasLegalMarks | impl/rust/enclave-protocol/src/agent_keystore.rs:1007-1120 | every body that passes validation has marks that the strict decoder accepts |
| Marks.EncodeMarksPayload | impl/rust/enclave-protocol/src/agent_keystore.rs:678-724 | the emitter's output is the canonical encoding of the body's sorted marks |
| Marks.SeedMarksForward | impl/rust/enclave-protocol/src/agent_keystore.rs:749-787 | overwrites the four marks surfaces and the epoch and nothing else, then validates |
| Marks.SeedThenRead | impl/rust/enclave-protocol/src/agent_keystore.rs:749-787 | the marks of a seeded body are the marks it was seeded from, so decode, seed and re-encode is the identity |
| Marks.SeedKeepsValid | impl/rust/enclave-protocol/src/agent_keystore.rs:749-787 | seeding a valid body with decodable marks yields a valid body |
| Marks.MarksKeepLookups | impl/rust/enclave-protocol/src/agent_keystore.rs:678-724 | a lane's counter read off the marks is the one in the table |
| Marks.MarksDominateLocal | impl/rust/enclave-protocol/src/agent_boot.rs:300-318 | true if and only if no row is dropped or lowered, no spend is lower and the recovery counter is not lower |
| Marks.DominanceNeverLowers | impl/rust/enclave-protocol/src/agent_boot.rs:287-318 | seeding dominating marks lowers no lane, no spend as a 256-bit number and not the recovery counter |
| Marks.DominanceReflexive | impl/rust/enclave-protocol/src/agent_boot.rs:287-318 | a valid body's own marks dominate it |
| Marks.DominanceTransitive | impl/rust/enclave-protocol/src/agent_boot.rs:287-318 | dominance composes along chained adopts |
| Sealing.SealBody | impl/rust/enclave-protocol/src/agent_keystore.rs:1144-1172 | refuses, in this order, an invalid body, one that does not serialise, one too large to install again and a failed encryption; otherwise the blob |
| Sealing.SealedMarksFit | impl/rust/enclave-protocol/src/agent_anchor.rs:434-439 | what seals is valid and its marks fit a marks reply with header and tag to spare |
| Positional.StrictDecodeMarksPayload | impl/rust/enclave-protocol/src/agent_cbor.rs:397-476 | decodes to m if and only if m's rows strictly ascend within the caps and the input is m's canonical encoding |
| Positional.RowsFit | impl/rust/enclave-protocol/src/agent_cbor.rs:415-423 | n encoded rows take at least 38n bytes, so the allocation guard rejects no legal payload |
| Positional.StrictDecodeMarksResponse | impl/rust/enclave-protocol/src/agent_cbor.rs:501-552 | decodes to f if and only if f is within the caps and the input is f's canonical encoding |
| Positional.StrictDecodeCommitAck | impl/rust/enclave-protocol/src/agent_cbor.rs:580-641 | the same for the nine-key commit acknowledgement |
| Anchor.ParseIsInverse | impl/rust/enclave-protocol/src/agent_anchor.rs:142-195 | parsing a map with ascending keys gives r if and only if the map is r's wire map and r's chain fields are both or neither |
| Anchor.AnchorWireExact | impl/rust/enclave-protocol/src/agent_anchor.rs:287-300 | the byte strings that decode and parse to r are exactly r's canonical encoding |
| Anchor.SignedPreimage | impl/rust/enclave-protocol/src/agent_anchor.rs:201-235 | the emitter's output is the domain and the canonical map of the signed fields, in both shapes |
| Anchor.AnchorPreimageInjective | impl/rust/enclave-protocol/src/agent_anchor.rs:201-235 | the preimage determines every signed field, chain fields included |
| Anchor.AnchorSignatureBindsWire | impl/rust/enclave-protocol/src/agent_anchor.rs:142-300 | accepted byte strings with equal preimage and signature are equal |
| Anchor.VerifyAnchorResponse | impl/rust/enclave-protocol/src/agent_anchor.rs:253-285 | the verdict on a decoded map, errors in the order malformed, signature, scope, nonce |
| Anchor.VerifyAnchorResponseBytes | impl/rust/enclave-protocol/src/agent_anchor.rs:293-300 | the same verdict on wire bytes |
| Anchor.AnchorAcceptsExactly | impl/rust/enclave-protocol/src/agent_anchor.rs:253-300 | accepts st if and only if the bytes encode a version-1 in-scope response with this nonce, signed by the sealed key, that states st |
| Anchor.MarksRespSignedPreimage | impl/rust/enclave-protocol/src/agent_anchor.rs:486-506 | the emitter's output is the domain and the canonical map of the signed fields |
| Anchor.MarksRespPreimageInjective | impl/rust/enclave-protocol/src/agent_anchor.rs:486-506 | the preimage determines every signed field |
| Anchor.MarksSignatureBindsWire | impl/rust/enclave-protocol/src/agent_anchor.rs:486-552 | accepted marks replies with equal preimage and signature are equal byte strings |
| Anchor.VerifyMarksResponseBytes | impl/rust/enclave-protocol/src/agent_anchor.rs:516-552 | the verdict on a marks reply, errors in order |
| Anchor.MarksAcceptsExactly | impl/rust/enclave-protocol/src/agent_anchor.rs:516-552 | hands out a payload if and only if a signed in-scope reply for this nonce and epoch carries it |
| Anchor.CommitAckSignedPreimage | impl/rust/enclave-protocol/src/agent_anchor.rs:601-625 | the emitter's output is the domain and the canonical map of the eight signed fields |
| Anchor.CommitAckPreimageInjective | impl/rust/enclave-protocol/src/agent_anchor.rs:601-625 | the preimage determines every signed field |
| Anchor.CommitAckSignatureBindsWire | impl/rust/enclave-protocol/src/agent_anchor.rs:601-697 | accepted acknowledgements with equal preimage and signature are equal byte strings |
| Anchor.VerifyCommitAckBytes | impl/rust/enclave-protocol/src/agent_anchor.rs:652-697 | the verdict on an acknowledgement, eight errors in order |
| Capabilities.CapParseIsInverse | impl/rust/enclave-protocol/src/agent_capability.rs:180-290 | parsing a map with ascending keys gives c if and only if c is in range and the map is c's wire map |
| Capabilities.CapWireExact | impl/rust/enclave-protocol/src/agent_capability.rs:180-290 | the byte strings that decode to a capability are exactly the canonical encodings of those in range |
| Capabilities.CapSignedPreimage | impl/rust/enclave-protocol/src/agent_capability.rs:329-367 | the emitter's output is the domain and the canonical map of the 12 or 13 signed entries |
| Capabilities.CapPreimageInjective | impl/rust/enclave-protocol/src/agent_capability.rs:329-367 | the preimage determines every signed field |
| Capabilities.CapSignatureBindsWire | impl/rust/enclave-protocol/src/agent_capability.rs:180-367 | capability byte strings with equal preimage and signature are equal |
| Capabilities.VerifyCapability | impl/rust/enclave-protocol/src/agent_capability.rs:400-521 | accepts exactly the authentic, bound capabilities with the next counter of their lane; which errors are malformed and which rejected |
| Capabilities.CapAcceptsExactly | impl/rust/enclave-protocol/src/agent_capability.rs:400-521 | wire bytes are accepted if and only if they encode an in-range, bound, version-2 capability with the next counter of its lane, signed by the recovery key exactly for a restore or a lifetime-breaker reset and by the admin key otherwise |
| Capabilities.AcceptedOnce | impl/rust/enclave-protocol/src/agent_capability.rs:490-510 | once its counter is committed a capability is refused by every later table of its lane, for any opcode and request |
| Preimages.LegsDisjoint | impl/rust/enclave-protocol/src/agent_anchor.rs:37-54 | no preimage of one of the five signed legs is a preimage of another, for all field values |
| Preimages.PreimageBindsStatement | impl/rust/enclave-protocol/src/agent_backup.rs:1307-1333 | within the encoders' widths two statements of any legs share a preimage if and only if they agree on all signed fields |
| Boot.SlotHoldsLatestDraw | impl/rust/enclave-protocol/src/agent_challenge.rs:105-138 | over any calls, an outstanding challenge is that of the latest draw and no later call retired it |
| Boot.AcceptedUsesLatestDraw | impl/rust/enclave-protocol/src/agent_challenge.rs:153-163 | a successful verify echoes the nonce of the latest issue |
| Boot.NoReplay | impl/rust/enclave-protocol/src/agent_challenge.rs:105-163 | with distinct draws, a response accepted once is never accepted again |
| Boot.EnclaveProcess.IssueChallenge | impl/rust/enclave-protocol/src/agent_challenge.rs:105-125 | a draw overwrites the slot; a failed draw leaves it |
| Boot.EnclaveProcess.ConsumeOutstandingChallenge | impl/rust/enclave-protocol/src/agent_challenge.rs:133-138 | hands out the slot's challenge and empties the slot |
| Boot.EnclaveProcess.VerifyOutstandingResponse | impl/rust/enclave-protocol/src/agent_challenge.rs:153-163 | empties the slot on every outcome and judges the response against what it held |
| Boot.EnclaveProcess.InstallBinding | impl/rust/enclave-protocol/src/agent_dispatch.rs:2303-2318 | installs once, active bindings only, and never overwrites |
| Boot.EnclaveProcess.BootReconcile | impl/rust/enclave-protocol/src/agent_boot.rs:140-195 | equals the verdict on what the slot held, which is `Ready` only for the body's own state and a free binding; the slot is emptied on every outcome and the binding installed on `Ready` alone |
| Boot.ExecuteAdoptForward | impl/rust/enclave-protocol/src/agent_boot.rs:240-285 | the candidate or the first of five failures; the caller's body is not touched |
| Boot.AdoptCarriesCommittedMarks | impl/rust/enclave-protocol/src/agent_boot.rs:240-318 | a candidate re-encodes to the wire payload, whose digest the anchor committed to; it dominates the local marks, is valid and reconciles fresh |
| Boot.AdoptIsTheCommitment | impl/rust/enclave-protocol/src/agent_boot.rs:240-285 | without a collision of the two payloads, adopting yields exactly the committed marks |
| Boot.SeedFailUnreachable | impl/rust/enclave-protocol/src/agent_boot.rs:240-285 | on a valid body the seeding step of an adopt cannot fail |
| Boot.AdoptChainKeeps | impl/rust/enclave-protocol/src/agent_boot_driver.rs:218-336 | over a run's adopts no lane, spend or recovery counter drops, the epoch rises each time, and everything outside the marks stays |
| Boot.HonestAdopt | impl/rust/enclave-protocol/src/agent_boot.rs:240-318 | adopting the marks an honest anchor committed to succeeds and lands exactly on its state |
| Boot.ReportDataInjective | impl/rust/enclave-protocol/src/agent_anchor.rs:354-366 | what the quote commits to determines chain, environment of any length and nonce |
| Boot.HonestResponderExists | impl/rust/enclave-protocol/src/agent_boot_driver.rs:218-336 | for an anchor that can sign, some responder is honest if and only if the marks fit a marks reply or the body is not behind |
| Boot.RequestsBounded | impl/rust/enclave-protocol/src/agent_boot_driver.rs:218-336 | in every log of a handshake, at most as many freshness requests and marks requests as attempts |
| Boot.ExchangesInOrder | impl/rust/enclave-protocol/src/agent_boot_driver.rs:198-336 | no grinding: a freshness request carries the nonce drawn just before it, a marks request follows a verified reply and names its epoch, and a reply that arrives and is rejected is the last exchange of the run |
| Boot.HandshakeAdopts | impl/rust/enclave-protocol/src/agent_boot_driver.rs:218-336 | the body a handshake ends with is reached from the first by adopts alone, at most one per attempt |
| Boot.ReadyIsCurrent | impl/rust/enclave-protocol/src/agent_boot_driver.rs:218-336 | `Ready` means that the slot was free and that the last reply of the log verified and states exactly the body that is left |
| Boot.HonestHandshake | impl/rust/enclave-protocol/src/agent_boot_driver.rs:218-336 | answered throughout by an honest still anchor, with two attempts to go, a handshake from an earlier body is `Ready` at the anchor's state after one freshness request if the body is current and at most two otherwise |
| Boot.EnclaveProcess.RunBootHandshake | impl/rust/enclave-protocol/src/agent_boot_driver.rs:218-336 | over every transport, what was drawn, asked and answered is exactly one run of the trace function, whose outcome and final body it returns; a bad attempt limit asks nothing; only `Ready` moves the binding; no challenge is left once anything was asked |
| Boot.EnclaveProcess.DecideServe | impl/rust/enclave-protocol/src/agent_boot_driver.rs:353-403 | serves the state of a `Ready` outcome, in production only with an active binding, and nothing else |
| Boot.EnclaveProcess.BootAndDecide | impl/rust/enclave-protocol/src/agent_boot_driver.rs:218-403 | handshake and gate together: serving means a current body bound by this boot; a binding present at entry means no service |
| Commit.EncodeAnchorCommitRequest | impl/rust/enclave-protocol/src/agent_boot_relay.rs:412-444 | emits the framed canonical request, or fails exactly on an over-long request id or frame |
| Framing.EncodeMessage | impl/rust/enclave-protocol/src/lib.rs:584-603 | the framed payload, or an error exactly when it is over the message limit |
| Framing.DecodeMessage | impl/rust/enclave-protocol/src/lib.rs:606-653 | decodes to a message if and only if the bytes are that message's frame within the limit |
| Commit.SealedRequestFits | impl/rust/enclave-protocol/src/agent_boot_relay.rs:412-444 | with a sealed environment only the request id can keep a request from being sent |
| Commit.RequestBodyBinds | impl/rust/enclave-protocol/src/agent_anchor.rs:601-625 | an acknowledgement's preimage is the domain followed by this request's body if and only if it echoes this request in every field |
| Commit.AcceptsOnlyTheEcho | impl/rust/enclave-protocol/src/agent_anchor.rs:652-697 | the verifier accepts exactly the canonical, signed echo of the proposal |
| Commit.RunAnchorCommit | impl/rust/enclave-protocol/src/agent_boot_relay.rs:578-614 | a request that fits is sent exactly once and judged by its answer alone, one that does not fit is not sent; success if and only if the anchor signed exactly the proposed epoch, version, digest, nonce and request id under the sealed scope |
| Operations.AgentInstance.CommitBeforeEmit | impl/rust/enclave-protocol/src/agent_dispatch.rs:2415-2443 | the channel sees one request, this candidate's, or none if it does not seal or cannot be sent; the candidate goes live and its blob is emitted if and only if the answer is the anchor's record of exactly it; otherwise the live body stays |
| Operations.AgentInstance.CommitCandidate | impl/rust/enclave-protocol/src/agent_dispatch.rs:2247-2273 | without a draw or with an over-long request id the channel is not used; otherwise it carries this one request, and success is the anchor's signed record of it |
| Operations.AdmitKeygen | impl/rust/enclave-protocol/src/agent_dispatch.rs:1053-1116 | admits a request exactly when capability, payload map, purpose, recomputed binding and scope agree; otherwise the first error |
| Operations.AgentInstance.HandleGenerateKeys | impl/rust/enclave-protocol/src/agent_dispatch.rs:1053-1185 | success means an installed binding, an admitted request, keys appended in the announced order, counter, epoch and version advanced by one, one request on the channel answered by the anchor's record of the new body, its blob emitted, and the capability dead; failure leaves the live body, and without a binding or admission nothing is sent |
| Binding.PayloadBinding | impl/rust/enclave-protocol/src/agent_capability.rs:527-541 | hashes opcode, sub-operation, request id and parameters in this order |
| Binding.BindingCoversWire | impl/rust/enclave-protocol/src/agent_dispatch.rs:994-1003 | in a strictly decoded request the hashed parameters are the payload's own wire bytes |
| Binding.BindingFixesParams | impl/rust/enclave-protocol/src/agent_capability.rs:527-541 | under one request id the preimage determines the parameters |
| Binding.BindingExact | impl/rust/enclave-protocol/src/agent_capability.rs:527-541 | across request ids it tells key generations apart if and only if counts stay below 0xA201010200 |
| Binding.HugeCountCollides | impl/rust/enclave-protocol/src/agent_capability.rs:527-541 | two requests with one preimage at that count |
| Binding.AcceptedCountsAreUnambiguous | impl/rust/enclave-protocol/src/agent_keygen.rs:94-98 | every count that key generation accepts is one for which the binding tells requests apart |
| Operations.RestoreParamsInjective | impl/rust/enclave-protocol/src/agent_dispatch.rs:1671-1686 | one parameter string, one selector and one backup digest |
| Operations.BuildRestoreTarget | impl/rust/enclave-protocol/src/agent_dispatch.rs:1692-1815 | the restore handler from envelope to candidate: opens, parses, admits, checks wrapping key, binding and high-water signature, gates, applies, adopts, and bumps, or yields nothing |
| Operations.RestoreTargetOnlyRaises | impl/rust/enclave-protocol/src/agent_dispatch.rs:1692-1815 | for every host input, a restore that goes through lowers no lane and no spend, burns its capability, raises the recovery counter past both sides, installs the signed marks and keeps chain, environment and anchor key |
| Operations.AgentInstance.HandleRestoreBackup | impl/rust/enclave-protocol/src/agent_dispatch.rs:2450-2510 | binding gate, seal, attest, commit, swap: the channel carries one request, the sealed and attested target's, or none; success if and only if that is answered by the anchor's record, otherwise the live body stays; an attempt with a target uses up the ephemeral key |
| Operations.BootThenServe | impl/rust/enclave-protocol/src/agent_dispatch.rs:504-517 | a process serves a command if and only if its own boot ended `Ready`; otherwise the channel is never used |
| Operations.ExportRestores | impl/rust/enclave-protocol/src/agent_dispatch.rs:1692-1815 | an export that is re-wrapped for this enclave, bound by the capability and covered by signed marks opens to the exported data, and yields a target if and only if the marks cover backup and destination and no counter or table is full; the target has the exported keys |
| Refinement.CommitIsAck | impl/rust/enclave-protocol/src/agent_anchor.rs:652-697 | for a waiting process, the answers the code accepts are exactly those the machine accepts, given that the anchor signed them |
| Refinement.AnswerEndsOperation | impl/rust/enclave-protocol/src/agent_dispatch.rs:2247-2273 | whatever happened while it waited, the answer the code accepts extends the run: the candidate is live and emitted and its claim accepted |
| Refinement.KeygenIsAStep | impl/rust/enclave-protocol/src/agent_dispatch.rs:1053-1185 | a successful key generation is an enabled operate step whose successor waits for exactly its body under its request id |
| Refinement.KeygenIsARun | impl/rust/enclave-protocol/src/agent_dispatch.rs:2415-2443 | it extends every run it starts from by its operate step, the record and the acknowledgement on its channel, ending live on the new body with one more acceptance |
| Refinement.RestoreIsAStep | impl/rust/enclave-protocol/src/agent_dispatch.rs:1692-1815 | a successful restore is an enabled restore step of the opened payload and the signed marks, whose successor waits for exactly its target |
| Refinement.RestoreIsARun | impl/rust/enclave-protocol/src/agent_dispatch.rs:2450-2510 | it extends every run it starts from by its restore step, the record and the acknowledgement on its channel, ending live on the target with one more acceptance |
| Refinement.ReconcileIsAStep | impl/rust/enclave-protocol/src/agent_boot.rs:140-195 | the machine gets ready, or adopts, exactly where the code's verdict says so for a reply that the anchor signed, and adopts the same body |
| Refinement.HandshakeIsARun | impl/rust/enclave-protocol/src/agent_boot_driver.rs:218-336 | a whole boot handshake from any emitted body, whatever goes on around it, extends the run: live on the body it ends with if `Ready` and not live otherwise, with nothing proposed, accepted or emitted on the way |
| Operations.SpentCapability | impl/rust/enclave-protocol/src/agent_capability.rs:490-510 | after an operation the capability that authorised it is refused, whatever it is presented for |
| AntiRollback.StepKeepsInv | impl/rust/enclave-protocol/src/agent_boot.rs:140-318 | every step of host, network, anchor or enclave, a made-up commit request excepted, keeps the system invariant while no marks collide |
| AntiRollback.RunKeepsInv | impl/rust/enclave-protocol/src/agent_dispatch.rs:2415-2443 | the invariant holds at the end of every run without made-up commit requests and without a digest collision among the marks that occurred |
| Replay.StepKeepsSound | impl/rust/enclave-protocol/src/agent_boot_relay.rs:407-444 | every step, made-up commit requests included, keeps what is on record sound: one epoch per request id, every body and statement on record, acceptances in epoch order; and the lanes as well while versions rise |
| Replay.RunIsSound | impl/rust/enclave-protocol/src/agent_dispatch.rs:2415-2443 | so after every run |
| Replay.NoCapabilityTwice | impl/rust/enclave-protocol/src/agent_capability.rs:490-510 | over every run each acceptance has a later epoch and another request id than those before it, so no capability is accepted twice; and if no record's version is below an earlier one's, the counters accepted on one lane strictly increase |
| Replay.RunKeepsVersions | impl/rust/enclave-protocol/src/agent_boot_relay.rs:407-444 | versions rise over every run in which no made-up request lowers them, none at all included |
| Forgeries.Revive | impl/rust/enclave-protocol/src/agent_boot.rs:240-318 | with one made-up request any body ever handed out boots, adopts and is live again with its own marks |
| Forgeries.SpendsRollBack | impl/rust/enclave-protocol/src/agent_boot_relay.rs:407-444 | an input where a dispense was recorded and acknowledged, no version ever fell, and the live body has the lower spends of before |
| Forgeries.CounterRepeats | impl/rust/enclave-protocol/src/agent_capability.rs:490-510 | once a made-up request may lower the version, two capabilities with one counter of one lane are both accepted |
| AntiRollback.SpendsNeverFall | impl/rust/enclave-protocol/src/agent_boot.rs:287-318 | after every run without made-up requests or collisions, the live body's spends and recovery counter are at least those of every record of its structural version up to its epoch |
| AntiRollback.RunIsAuthentic | impl/rust/enclave-protocol/src/agent_capability.rs:445-463 | over every run each accepted capability verified under the key of the lane it drew from |
| AntiRollback.ClonesAcceptTwice | impl/rust/enclave-protocol/src/agent_dispatch.rs:2247-2273 | two live processes of one body can both have one capability accepted, so one process at a time is necessary |
| AntiRollback.FreshnessIsGenuine | impl/rust/enclave-protocol/src/agent_boot.rs:140-195 | a verified freshness reply states an epoch, version and digest that are on record |
| AntiRollback.AckIsGenuine | impl/rust/enclave-protocol/src/agent_anchor.rs:652-697 | a verified acknowledgement means that the proposed epoch is on record with the proposed version and digest |
| AntiRollback.AdoptedIsVouched | impl/rust/enclave-protocol/src/agent_boot.rs:240-318 | an adopted body carries exactly the marks of the record it was adopted from |
| AntiRollback.AckVouches | impl/rust/enclave-protocol/src/agent_dispatch.rs:2247-2273 | a body that goes live after an acknowledgement is the one on record for its epoch, also after lost and repeated messages |
| AntiRollback.OperationAdvances | impl/rust/enclave-protocol/src/agent_keystore.rs:970-1003 | an authorised operation lowers no lane and raises its own to its counter |
| AntiRollback.RestoreAdvances | impl/rust/enclave-protocol/src/agent_dispatch.rs:1692-1815 | so does an admitted restore |
| AntiRollback.HonestCommitCompletes | impl/rust/enclave-protocol/src/agent_boot_relay.rs:578-614 | once the anchor has recorded a pending operation, its canonical signed reply is accepted |
| AntiRollback.HonestBootCompletes | impl/rust/enclave-protocol/src/agent_boot.rs:140-195 | a process booting a current body becomes ready on the anchor's reply |
| AntiRollback.PendingCompletes | impl/rust/enclave-protocol/src/agent_dispatch.rs:2247-2273 | any run with a recordable pending operation extends by its record and acknowledgement to one where it is live and accepted |
| AntiRollback.ProposalCompletes | impl/rust/enclave-protocol/src/agent_dispatch.rs:2415-2443 | any run that can propose something recordable extends by the proposal, its record and its acknowledgement to a world where it is live and accepted |
| AntiRollback.SomeRunAccepts | impl/rust/enclave-protocol/src/agent_dispatch.rs:2415-2443 | for every valid genesis body that accepts a capability there is a run that accepts it |
| AntiRollback.EmittedBodiesNeverAhead | impl/rust/enclave-protocol/src/agent_anchor.rs:314-348 | against the anchor's current state an emitted body is fresh if and only if it is of the latest epoch, refused as a structural gap if and only if a structural operation came after it, and never anchor-behind or inconsistent |
| AntiRollback.EmittedBodiesBoot | impl/rust/enclave-protocol/src/agent_boot_driver.rs:218-336 | after every run without made-up requests or collisions, an emitted body of the anchor's structural version precedes the anchor's record, an honest responder exists, and every handshake it answers is `Ready` at the anchor's state after at most two freshness requests |
| AntiRollback.RunFits | impl/rust/enclave-protocol/src/agent_anchor.rs:434-439 | over every run all marks on record fit a marks reply |
| AntiRollback.LostCommit | impl/rust/enclave-protocol/src/agent_dispatch.rs:154-232 | when the sealed body of a commit is lost, a dispense is adopted back exactly and any operation with a capability is refused as a structural gap |
| Restore.SelectionIsIntersection | impl/rust/enclave-protocol/src/agent_backup.rs:445-454 | the selected refs are exactly the requested ones that the body has |
| Restore.PayloadEntries | impl/rust/enclave-protocol/src/agent_backup.rs:487-496 | succeeds if and only if the body has every ref, and then the entries are the body's, in the manifest's order |
| Backup.BuildRestoreIngressPayload | impl/rust/enclave-protocol/src/agent_backup.rs:482-531 | a built payload carries the body's entries in the refs' order and parses back; with a serialiser that round-trips it is built whenever the body has every ref |
| Backup.ParseRestoreIngress | impl/rust/enclave-protocol/src/agent_backup.rs:536-561 | magic and version before decoding, then exactly one value and no trailing bytes |
| Backup.PayloadReadsBack | impl/rust/enclave-protocol/src/agent_backup.rs:482-561 | what was framed for export parses to the same data |
| Backup.ExportIsAdmissible | impl/rust/enclave-protocol/src/agent_backup.rs:1004-1063 | a backup of the selected refs, re-wrapped for an enclave of the same scope, is admitted for every selector naming the same refs |
| Restore.ManifestInjective | impl/rust/enclave-protocol/src/agent_backup.rs:564-573 | the manifest determines the refs and their order |
| Restore.SelectorMatchIsSetEquality | impl/rust/enclave-protocol/src/agent_backup.rs:1050-1061 | comparing after sort and dedup is comparing the sets |
| Restore.RestoreSelectorExact | impl/rust/enclave-protocol/src/agent_backup.rs:1042-1061 | a restore selector passes if and only if it names the export selector's refs that the body has, in any order and multiplicity |
| Restore.VerifyRestoreIngress | impl/rust/enclave-protocol/src/agent_backup.rs:1004-1063 | admits if and only if measurement, identity of envelope and of payload, backup digest, manifest hash and selector set all match; otherwise reports the first mismatch |
| Restore.RecoveryHighWaterPreimage | impl/rust/enclave-protocol/src/agent_backup.rs:1307-1333 | the emitter's output, with its truncating length prefixes |
| Restore.RecoveryPreimageInjective | impl/rust/enclave-protocol/src/agent_backup.rs:1307-1333 | within the 16-bit prefixes the preimage determines all four fields |
| Restore.LongEnvironmentCollides | impl/rust/enclave-protocol/src/agent_backup.rs:1307-1333 | a 65536-byte environment that shares its preimage with an empty one |
| Restore.LongRequestIdCollides | impl/rust/enclave-protocol/src/agent_backup.rs:1307-1333 | a 65536-byte request id that shares its preimage with an empty one |
| Restore.RecoveryPreimageExact | impl/rust/enclave-protocol/src/agent_backup.rs:1307-1333 | for any limits on environment and request id, the preimage is injective within them if and only if both limits are at most 65535 |
| Restore.HandlerPreimagesBind | impl/rust/enclave-protocol/src/agent_dispatch.rs:1758-1768 | the preimages the handler can build fit the prefixes and are equal if and only if all four fields are |
| Restore.VerifyRecoveryHighWater | impl/rust/enclave-protocol/src/agent_backup.rs:1340-1360 | hands out m if and only if the recovery key signed the payload for this ceremony and it decodes to m; signature errors come first |
| Restore.CheckHighWaterDominates | impl/rust/enclave-protocol/src/agent_backup.rs:1211-1229 | true if and only if no row is dropped or lowered and no spend is lower |
| Restore.VerifyAc6HighWater | impl/rust/enclave-protocol/src/agent_backup.rs:1250-1274 | passes if and only if the attested marks cover both the backup and the destination; a stale backup is reported first |
| Restore.ApplyRestoreToBody | impl/rust/enclave-protocol/src/agent_backup.rs:921-966 | replaces the body as specified, or reports an error and leaves it as it was |
| Restore.AdoptAc6HighWater | impl/rust/enclave-protocol/src/agent_backup.rs:1370-1391 | installs the attested rows and spends and raises the recovery counter to at least the attested one |
| Restore.RestoreNeverLowers | impl/rust/enclave-protocol/src/agent_backup.rs:921-966 | after gate, apply and adopt every lane and both spends are at least those of destination and backup, the recovery counter exceeds both, and every audit record is below the next sequence number |
| Restore.RestoreLowersExactly | impl/rust/enclave-protocol/src/agent_backup.rs:921-966 | a restore lowers the treasury-configuration version, the authority epoch or the audit sequence exactly when the backup is behind in it |
| Restore.RestorableExactly | impl/rust/enclave-protocol/src/agent_dispatch.rs:1769-1808 | the transition yields a candidate if and only if the marks cover both sides, the audit ring holds the records, the lane has a row or room for one and no counter is at its limit |
| Restore.BuildRestoreCandidate | impl/rust/enclave-protocol/src/agent_dispatch.rs:1769-1808 | the handler's transition from the forward-only gate to the epoch bump, or no candidate |
| Restore.RestoreCandidateOnlyRaises | impl/rust/enclave-protocol/src/agent_dispatch.rs:1769-1808 | the finished candidate lowers no lane of destination or backup, burns the capability's counter, steps epoch and version by one and keeps anchor key, scope ids and wrapping key |
| Envelope.PutLp16 | impl/rust/enclave-protocol/src/agent_backup.rs:103-109 | appends a field behind its 16-bit length, or fails exactly when it does not fit |
| Envelope.PutLp32 | impl/rust/enclave-protocol/src/agent_backup.rs:111-117 | the same at 32 bits |
| Envelope.Reader.Take | impl/rust/enclave-protocol/src/agent_backup.rs:303-311 | reads exactly n bytes or reports truncation without reading past the end |
| Envelope.Reader.TakeInt | impl/rust/enclave-protocol/src/agent_backup.rs:312-327 | reads the one number whose big-endian form comes next |
| Envelope.Reader.TakeLp | impl/rust/enclave-protocol/src/agent_backup.rs:328-336 | reads the one field whose prefixed form comes next |
| Envelope.BuildHeader | impl/rust/enclave-protocol/src/agent_backup.rs:121-151 | the authenticated header, or an error exactly when a field does not fit its prefix |
| Envelope.StrictParse | impl/rust/enclave-protocol/src/agent_backup.rs:342-369 | succeeds with these fields and ciphertext if and only if the blob is built from them, header slice included; bad magic and version come before truncation |
| Envelope.BackupHeaderInjective | impl/rust/enclave-protocol/src/agent_backup.rs:121-151 | no two field tuples share authenticated header bytes |
| Backup.SealBackupBlob | impl/rust/enclave-protocol/src/agent_backup.rs:198-262 | fails, in order, on the random draw, the recovery key, a field length or the encryption, so the parse-back self-check never fires |
| Backup.SealedKeyId | impl/rust/enclave-protocol/src/agent_backup.rs:376-378 | the key id read back from a sealed blob is the one it was sealed under |
| Backup.OpenRestoreIngressEnvelope | impl/rust/enclave-protocol/src/agent_backup.rs:844-895 | opens exactly the framed envelopes whose ciphertext decrypts under their own header bytes |
| Backup.WrapThenOpen | impl/rust/enclave-protocol/src/agent_backup.rs:844-895 | what was encrypted under an envelope's header opens to the same payload and fields |
| Envelope.BuildIngressHeader | impl/rust/enclave-protocol/src/agent_backup.rs:711-741 | the authenticated header, or an error exactly when a field does not fit its prefix |
| Envelope.StrictParseIngressEnvelope | impl/rust/enclave-protocol/src/agent_backup.rs:763-807 | succeeds with these fields and ciphertext if and only if the blob is built from them |
| Envelope.IngressHeaderInjective | impl/rust/enclave-protocol/src/agent_backup.rs:711-741 | no two field tuples share authenticated header bytes |
| Envelope.FormatsDisjoint | impl/rust/enclave-protocol/src/agent_backup.rs:342-369 | no blob is of both formats, and each parser refuses the other's with bad magic |
| Keygen.DrawRef | impl/rust/enclave-protocol/src/agent_keygen.rs:72-155 | the retry loop returns the first untaken reference within eight draws |
| Keygen.GenerateKeys | impl/rust/enclave-protocol/src/agent_keygen.rs:72-155 | success appends exactly the staged entries and returns them in order with their addresses; every failure leaves the body as it was |
| Keygen.StagedIsUnique | impl/rust/enclave-protocol/src/agent_keygen.rs:72-155 | staged references differ from one another and from every existing one |
| Keygen.CallsKeepKeysOk | impl/rust/enclave-protocol/src/agent_keygen.rs:72-155 | over any sequence of calls and draws: distinct references, at most one treasury key, the total cap, and no entry ever lost |
| Keygen.GeneratedAreValid | impl/rust/enclave-protocol/src/agent_keystore.rs:1007-1120 | generated keys pass the validation of entries at rest |
| Sessions.StepKeepsOk | impl/rust/enclave-protocol/src/enclave_serve.rs:60-110 | every atomic step keeps the counter equal to live sessions plus at most one in flight |
| Sessions.CapHolds | impl/rust/enclave-protocol/src/enclave_serve.rs:60-110 | in every interleaving at most 32 sessions live, and the counter is zero once all have ended; after a failed spawn nothing more is accepted and exactly the lost slot stays counted |
| Sessions.RejectsOnlyWhenFull | impl/rust/enclave-protocol/src/enclave_serve.rs:72-110 | a connection is turned away if and only if all 32 slots were taken at its increment |
| Sessions.SessionServer.CountIn | impl/rust/enclave-protocol/src/enclave_serve.rs:94-94 | the increment as one atomic step |
| Sessions.SessionServer.SpawnOrReject | impl/rust/enclave-protocol/src/enclave_serve.rs:95-108 | spawns a session that owns the slot, or gives the slot back |
| Sessions.SessionServer.DropSlotGuard | impl/rust/enclave-protocol/src/enclave_serve.rs:60-66 | the guard's drop returns exactly its own slot |
| Sessions.SessionServer.RunIncomingAcceptLoop | impl/rust/enclave-protocol/src/enclave_serve.rs:72-110 | under any schedule, with accept, setup and spawn failures, the running loop stays within the cap and ends at zero |

## Left out

- SealBody: the serialiser and the authenticated encryption are arbitrary functions; resolving the provisioning root is part of the latter.
- RunAnchorCommit: deadlines are not modelled; the 4096-byte cap on reading the answer is one way for the channel to fail.
- HandleGenerateKeys: the wire decoder of the command envelope and the encoding of the response are not modelled.
- HandleRestoreBackup: decoding the request map, the hashes the attestation report commits to and the encoding of the response are not modelled.
- The sealed opt-out from the binding gate: the source fixes it at false.
- RunBootHandshake: wall-clock time is not modelled; a failed quote or a timeout is a failure of the transport.
- SealBackupBlob: key encapsulation and encryption are arbitrary functions; zeroisation is not modelled.
- EncodeMessage: allocation failure is not modelled, here and in the other encoders.
- Treasury configuration, backup export and the dispense handler: in the whole-system machine they are any candidate that moves the counters, spends, epoch and version as those handlers do.
- The request decoders of the relay: they are lenient decoders resting on a library parser.
- The minimal big-endian 256-bit reader: used only by the treasury and transfer handlers, which are not part of this model.
- Cryptographic internals and constant-time comparison: library calls.
- Sockets, deadlines, quote fetching, the host's relay pump, boot-file readers: platform I/O.
- Transfer signing, identity proofs and producer-side arming: separate features.
