# Verification model of the PQC-TLS USB firmware

A Dafny model of the parts of this firmware that carry a protocol, a state machine or an algorithm, with proofs of
what they promise. `dafny verify dfyconfig.toml` checks the whole project. The C code works on buffers, indices and
status words, so the model does too: entry points are methods over arrays or over an object's fields, each proved
against a function of its inputs or of the old state, and the promises are lemmas about those functions. Where code is
interleaved with interrupts, every statement (or every piece that is atomic in the source) is a step, and a run is an
arbitrary sequence of steps.

## What is modelled

**SPHINCS+ signatures** (`SphincsParams`, `BlockBuffer`, `Wots`, `Merkle`, `Fors`, `Hypertree`,
`SphincsVerify`, `SphincsSign`, `SphincsBinding`, `SphincsAddresses`, `SphincsInstance`). Key generation, signing, verification and the attached forms,
following FIPS 205, sections 5 to 9, in the revision of the code. Hash functions are fields of the parameter record, so
every statement holds for all of them; n, w, the heights and the number of layers are symbolic. WOTS+ chains, Merkle nodes and FORS trees are defined
recursively; the one-pass tree hash over either kind of leaf, its inner climb and the leaf generators are loops over the
caller's buffer, proved to write exactly the recursively defined signature. Addresses truncate their fields as the 22-byte form does.
Two main results say what a signature is worth: what is signed is accepted (`SphincsSign.SignatureVerifies`), and what is
accepted is what the signer makes, unless the verifier's own hash calls show a collision with the signer's or a chain value
the signer never shows (`SphincsBinding.AcceptedIffSigned`). Of the hash functions only their output lengths are assumed.
The C sources of the helpers (`wots.c`, `wotsx1.c`, `utilsx1.c`, `utils.c`, `fors.c`, `address.c`) are not in the
repository; they are cited by the assembly listings of their compiled form.

**Byte queues and the line editor** (`RingArithmetic`, `UartTx`, `UartRx`, `CyclicBuffer`, `UsbStream`, `TlsRing`,
`LineEditor`, `Tty`). The UART rings with free-running 32-bit counters, statement by statement against their interrupt
handler; the packet ring of the terminal, which commits a packet whole or not at all; the drop-tail ring of the TLS
task; and the editor that turns bytes into command strings, with the polled task that drains both terminal rings.
`char` is unsigned.

**The microsecond clock** (`Clock`). Counter, update flag and millisecond count, with ticks between any two statements.
The forced update event of `timer_init` counts as one period. Hypothesis of the monotonicity results: each overflow is
served before the counter reaches 100, and a read that sampled the counter below 100 tests the flag before the next
overflow; `Clock.ServiceBoundIff` shows that 100 is the exact bound. `timer_get_time_irq` runs with the timer interrupt kept out, as its
comment asks.

**Register-level code** (`AtomicRegister`, `MpuLoader`). The exclusive-access retry loops under a monitor model in which
a successful store, of any kind, drops all reservations and an exclusive store may also fail for no reason; the batch
loader of the MPU through the window of four alias register pairs, where pair 0 is the selected region itself and the
others replace the two low bits of RNR.

**Command lookup** (`CommandLookup`). The prefix scan over the command table against a dictionary lookup.

**The USB device controller driver** (`UsbStatus`, `UsbDriver`, `UsbSegments`, `UsbControlIn`, `UsbControlOut`,
`UsbSetupDispatch`, `UsbSetupRequests`, `UsbTornUpdates`, `UsbEndpoint`, `UsbTransfers`, `UsbSlots`), standalone mode with bidirectional
endpoints. A status word is the set of its bits. Two updates of the status word that the driver makes outside a critical
section (`ux_dcd_stm32_callback.c:184` and `ux_dcd_stm32_endpoint_stall.c:86`) are a load and a store with interrupts
between. A third (`ux_dcd_stm32_endpoint_create.c:97`) is one step: it is made on a descriptor not in use, for which no
callback comes.
Hypotheses: the device stack arms a control-IN transfer with the remaining length equal to the requested length and the
current pointer at the data; for the data stages, and for the other endpoints, the controller calls back once for each
packet or transfer it has been armed for (the dispatch results allow any callback at any time); the stack fills in a
request of another endpoint only while that endpoint has no transfer under way.

## Where the code differs from what one might expect

- SETUP kinds are ored into two bits, and the SETUP packet itself is overwritten by the next one. A request can be served
  by the handler of another kind, and one packet can be served twice. `UsbSetupRequests.ServedAsItselfIff`,
  `UsbSetupRequests.ServedAgainIff` and `UsbSetupRequests.ServedOnceIff` say exactly when, from what the driver's state
  shows as the packet arrives; `OvertakenRequestIsMisread` and `LateRequestIsServedTwice` are runs that reach it.
- An oversized control-OUT request is stalled and dispatched all the same, as a request without data
  (`UsbSetupRequests.OversizedIsStalledAndDispatchedIff`).
- Stalling an endpoint, and ending a dispatch, can overwrite a post, a completion or other flags
  (`UsbSetupDispatch.UpdateLosesIff`, `UsbTornUpdates.UpdateOverwritesIff`, `UsbEndpoint.StallLosesCompletionIff`, with runs
  from the start in `UsbTornUpdates` and `UsbEndpoint`).
- A reception can reach past the control buffer unless the packet size divides its length
  (`UsbControlOut.InsideIffPacketDivides`).
- `endpoint_reset` keeps the TRANSFER bit; `UsbEndpoint.ResetStrandsIff` says exactly when that leaves an endpoint waiting
  for ever.
- Destroying an endpoint twice can free the descriptor of another one (`UsbSlots.DeviceController.StaleDestroyHitsAnotherIff`),
  and creating one twice at different addresses leaves a descriptor in use that nothing points at.
- Where a message overlaps the place of its signature, the bytes digested and moved are those the signer has left there
  (`SphincsSign.SignedInPlace`); elsewhere the result is the signed message (`SphincsSign.BehindSignatureIsSignedMessage`).
- `time_delay_ms` multiplies in 32 bits; `Clock.DelayIsLongEnough` says exactly when a delay is long enough.
- The prefix scan of the command table is a lookup of the first word only for names of word characters
  shorter than 256 (`CommandLookup.NamesMustBeWords`).

## Model

| member | source | states |
|---|---|---|
| `Wots.WotsRoundTrip` | app/PQClean/crypto_sign/sphincs-sha2-128f-simple/clean/wots.lst:94-141 | completing every chain of a WOTS+ signature gives the WOTS+ public key, for every message block, key and hash function |
| `Wots.ChainSplit` | app/PQClean/crypto_sign/sphincs-sha2-128f-simple/clean/wots.lst:94-141 | walking a chain in two parts is walking it once |
| `Wots.ChainLengthsNotDominated` | app/PQClean/crypto_sign/sphincs-sha2-128f-simple/clean/wots.lst:54-93 | the checksum digits do their work: no message asks for chain walks that cover those of another message |
| `Wots.BaseWInjective` | app/PQClean/crypto_sign/sphincs-sha2-128f-simple/clean/wots.lst:54-93 | different messages have different base-w digits |
| `Wots.BaseWValue` | app/PQClean/crypto_sign/sphincs-sha2-128f-simple/clean/wots.lst:54-93 | the base-w digits of a message, and its bytes, stand for the same number, most significant first |
| `Wots.ChecksumComplements` | app/PQClean/crypto_sign/sphincs-sha2-128f-simple/clean/wots.lst:54-93 | the checksum is what the digits lack to their maximum |
| `Wots.ValueOfDigits` | app/PQClean/crypto_sign/sphincs-sha2-128f-simple/clean/wots.lst:54-93 | the checksum digits determine the checksum |
| `Wots.WalkChain` | app/PQClean/crypto_sign/sphincs-sha2-128f-simple/clean/wotsx1.lst:25-116 | one chain of the leaf generator: its end is computed, and the value at the signing position is copied out at exactly that position |
| `Wots.GenLeaf` | app/PQClean/crypto_sign/sphincs-sha2-128f-simple/clean/wotsx1.lst:25-116 | the leaf of any key, and the WOTS+ signature in the buffer when it is the signing leaf; nothing else in the buffer changes |
| `Merkle.AuthPathLeadsUp` | app/PQClean/crypto_sign/sphincs-sha2-128f-simple/clean/utils.lst:104-240 | climbing any authentication path from its own node gives the ancestor that the tree defines |
| `Merkle.AuthPathAt` | app/PQClean/crypto_sign/sphincs-sha2-128f-simple/clean/utilsx1.lst:25-150 | entry k of a path is the sibling of the k-th ancestor |
| `Merkle.PathComplete` | app/PQClean/crypto_sign/sphincs-sha2-128f-simple/clean/utilsx1.lst:25-150 | after the last leaf the path region holds the authentication path of the signed leaf, or is untouched when no leaf of the tree was signed |
| `Merkle.ClimbFrom` | app/PQClean/crypto_sign/sphincs-sha2-128f-simple/clean/utilsx1.lst:25-150 | the inner loop: joins a new leaf with the waiting left siblings, keeps the stack of waiting nodes, and copies path nodes out as they appear |
| `Merkle.GenTreeLeaf` | app/PQClean/crypto_sign/sphincs-sha2-128f-simple/clean/fors.lst:63-92 | the leaf of a WOTS+ or FORS tree from its generator; nothing but the signing leaf's WOTS+ signature is written |
| `Merkle.TreeHash` | app/PQClean/crypto_sign/sphincs-sha2-128f-simple/clean/utilsx1.lst:25-150 | for WOTS+ and FORS trees, at any place of a shared index space: one pass gives the root of the recursively defined tree, whichever leaf is signed, and writes what the generator emits and the authentication path of that leaf; a leaf outside the tree writes nothing |
| `Merkle.MerkleSign` | liboqs/src/sig/sphincs/pqclean_sphincs-sha2-128f-simple_clean/merkle.c:22-54 | root of the subtree, and one layer of signature under the chain lengths of the incoming root; the rest of the buffer is unchanged |
| `Merkle.MerkleGenRoot` | liboqs/src/sig/sphincs/pqclean_sphincs-sha2-128f-simple_clean/merkle.c:57-80 | the root of the single top tree, whatever bytes the root buffer held before |
| `Fors.ForsRoundTrip` | app/PQClean/crypto_sign/sphincs-sha2-128f-simple/clean/fors.lst:203-274 | a FORS signature on any digest leads back to the roots of all FORS trees |
| `Fors.ForsIndexTop` | app/PQClean/crypto_sign/sphincs-sha2-128f-simple/clean/fors.lst:99-202 | the leaf a digest selects in tree t lies below the root of tree t in the shared index space |
| `Fors.BlocksFromTotal` | liboqs/src/sig/sphincs/pqclean_sphincs-sha2-128f-simple_clean/sign.c:163-164 | the FORS part fills k(a+1) blocks |
| `Fors.BitsValueBit` | app/PQClean/crypto_sign/sphincs-sha2-128f-simple/clean/fors.lst:26-53 | bit j of the number taken from a group of message bits is bit j of the group |
| `Fors.ByteOfBits` | app/PQClean/crypto_sign/sphincs-sha2-128f-simple/clean/fors.lst:26-53 | the eight bits of a byte, the first one counting least, add up to that byte |
| `Fors.SameLeavesIffSameBits` | app/PQClean/crypto_sign/sphincs-sha2-128f-simple/clean/fors.lst:26-53 | two digests select the same leaf in every tree if and only if they agree in their first k*a bits |
| `Fors.SignatureShowsSelectedSecret` | app/PQClean/crypto_sign/sphincs-sha2-128f-simple/clean/fors.lst:99-202 | the first block of part t of a FORS signature is the secret of the leaf whose number the digest spells from bit t*a on |
| `SphincsSign.ForsSignTree` | app/PQClean/crypto_sign/sphincs-sha2-128f-simple/clean/fors.lst:141-174 | one FORS tree: the selected secret and its authentication path are written by the tree hash over the leaves of that tree, and its root is returned |
| `SphincsSign.ForsSignInto` | app/PQClean/crypto_sign/sphincs-sha2-128f-simple/clean/fors.lst:99-202 | the FORS signature of the digest is written to the buffer and nothing else, and the FORS public key is returned |
| `Hypertree.LayerRoundTrip` | liboqs/src/sig/sphincs/pqclean_sphincs-sha2-128f-simple_clean/sign.c:232-259 | on one layer the verifier recomputes the signer's subtree root, whatever block was signed |
| `Hypertree.HtRoundTrip` | liboqs/src/sig/sphincs/pqclean_sphincs-sha2-128f-simple_clean/sign.c:166-179 | by induction over the layers, the verifier's last root is the root of the signer's last subtree |
| `Hypertree.TopTreeIsZero` | liboqs/src/sig/sphincs/pqclean_sphincs-sha2-128f-simple_clean/sign.c:177-178 | D-1 shifts bring every tree index below 2^(height(D-1)) to 0 |
| `Hypertree.SuffixOnlyFromPosition` | liboqs/src/sig/sphincs/pqclean_sphincs-sha2-128f-simple_clean/sign.c:163-179 | from layer k up, a signature is a function of the seeds and of the key position reached on layer k: a WOTS+ key signs one value only |
| `Hypertree.PositionDigits` | liboqs/src/sig/sphincs/pqclean_sphincs-sha2-128f-simple_clean/sign.c:176-178 | tree and leaf of each layer are quotient and remainder of one global leaf index by 2^height |
| `Hypertree.TreeIsQuotient` | liboqs/src/sig/sphincs/pqclean_sphincs-sha2-128f-simple_clean/sign.c:176-178 | shifting layer by layer is one division of the global index |
| `SphincsSign.SignatureVerifies` | liboqs/src/sig/sphincs/pqclean_sphincs-sha2-128f-simple_clean/sign.c:122-270 | for all hash functions, seeds, messages and randomizers, what is signed is accepted under the key pair of the seed |
| `SphincsSign.SharedKeySharedSuffix` | liboqs/src/sig/sphincs/pqclean_sphincs-sha2-128f-simple_clean/sign.c:163-179 | two signatures that share tree and leaf on some layer are equal from that layer up |
| `SphincsBinding.PathBinds` | app/PQClean/crypto_sign/sphincs-sha2-128f-simple/clean/utils.lst:104-240 | a climb ends in the ancestor and shows no collision if and only if it starts at the own node of the tree, along its own path |
| `SphincsBinding.WotsBinds` | app/PQClean/crypto_sign/sphincs-sha2-128f-simple/clean/wots.lst:94-141 | a signature completes to the public key without a collision in any chain if and only if it shows the own chain values of the key |
| `SphincsBinding.OtherBlockUncovers` | app/PQClean/crypto_sign/sphincs-sha2-128f-simple/clean/wots.lst:54-93 | a key signs a block other than its own if and only if the signature shows a chain value nearer to the secret than its own signature does |
| `SphincsBinding.LayerBinds` | liboqs/src/sig/sphincs/pqclean_sphincs-sha2-128f-simple_clean/sign.c:232-259 | a layer leads to the root of its subtree without a break if and only if it is the layer of the signer, on the block its key signs |
| `SphincsBinding.HtBinds` | liboqs/src/sig/sphincs/pqclean_sphincs-sha2-128f-simple_clean/sign.c:232-259 | by induction from the top layer down: the same for the whole hypertree signature |
| `SphincsBinding.ForsBinds` | app/PQClean/crypto_sign/sphincs-sha2-128f-simple/clean/fors.lst:203-274 | a FORS signature leads to the roots of the key without a collision if and only if it is the one of the signer on that digest |
| `SphincsBinding.AcceptedIffSigned` | liboqs/src/sig/sphincs/pqclean_sphincs-sha2-128f-simple_clean/sign.c:191-270 | for every key, message and byte string: accepted, and none of the hash calls of the verifier shows a collision with the own input of the signer or a chain value nearer to the secret, if and only if it is the signature the signer makes under that digest |
| `SphincsBinding.OneRootOnly` | liboqs/src/sig/sphincs/pqclean_sphincs-sha2-128f-simple_clean/sign.c:264-267 | a signature is accepted under one digest with at most one root: a change in the root half of the public key is always noticed |
| `SphincsAddresses.PositionKeepsLowBits` | liboqs/src/sig/sphincs/pqclean_sphincs-sha2-128f-simple_clean/sign.c:155-159 | masking keeps the low bits of the tree and leaf numbers, and numbers in range are the position itself |
| `SphincsAddresses.CallsAreAtTheirAddress` | app/PQClean/crypto_sign/sphincs-sha2-128f-simple/clean/address.lst:25-190 | chain steps, chain starts and public-key compressions are hashed at the address of their use |
| `SphincsAddresses.TreeCallsAreAtTheirAddress` | app/PQClean/crypto_sign/sphincs-sha2-128f-simple/clean/address.lst:25-190 | tree nodes, FORS leaves, secrets and public keys are hashed at the address of their use |
| `SphincsAddresses.AddressReadsBack` | app/PQClean/crypto_sign/sphincs-sha2-128f-simple/clean/address.lst:25-190 | the numbers an address is written with, for each kind of hash call; from them the call can be read back |
| `SphincsAddresses.SeparatedIff` | app/PQClean/crypto_sign/sphincs-sha2-128f-simple/clean/address.lst:25-190 | no two hash calls of different keys, positions or purposes share an address, if and only if leaves and chains fit one byte and FORS leaves four |
| `SphincsSign.BlocksPartition` | liboqs/src/sig/sphincs/pqclean_sphincs-sha2-128f-simple_clean/sign.c:157-183 | the offsets of the FORS part and of the layers add up to exactly SPX_BYTES |
| `SphincsSign.SignBlocksLength` | liboqs/src/sig/sphincs/pqclean_sphincs-sha2-128f-simple_clean/sign.c:153-183 | every block of a signature has n bytes |
| `SphincsSign.OpenRecoversMessage` | liboqs/src/sig/sphincs/pqclean_sphincs-sha2-128f-simple_clean/sign.c:275-314 | opening a signed message gives back the message |
| `SphincsSign.CryptoSignSeedKeypair` | liboqs/src/sig/sphincs/pqclean_sphincs-sha2-128f-simple_clean/sign.c:54-91 | the two keys hold seeds and top root in the promised places |
| `SphincsSign.SignLayers` | liboqs/src/sig/sphincs/pqclean_sphincs-sha2-128f-simple_clean/sign.c:166-179 | the signing loop writes the signature of the fold over the layers and nothing else |
| `SphincsVerify.WotsPkFromSig` | app/PQClean/crypto_sign/sphincs-sha2-128f-simple/clean/wots.lst:94-141 | the completed chains are the public key the signature stands for, with the address of the signed key |
| `SphincsVerify.ClimbPath` | app/PQClean/crypto_sign/sphincs-sha2-128f-simple/clean/utils.lst:104-240 | the climb with a pair of blocks, the tree address and the offset of a shared index space is the climb along the path |
| `SphincsVerify.ForsPkFromSig` | app/PQClean/crypto_sign/sphincs-sha2-128f-simple/clean/fors.lst:203-274 | the FORS public key of a signature, with the addresses copied from the WOTS+ key above |
| `SphincsVerify.VerifyLayer` | liboqs/src/sig/sphincs/pqclean_sphincs-sha2-128f-simple_clean/sign.c:234-254 | one layer of the verifying loop, with its three addresses, computes the root of that layer |
| `SphincsVerify.VerifyLayers` | liboqs/src/sig/sphincs/pqclean_sphincs-sha2-128f-simple_clean/sign.c:232-259 | the verifying loop computes the verifier's fold over the layers, at the same offsets as the signer |
| `SphincsSign.CryptoSignSignature` | liboqs/src/sig/sphincs/pqclean_sphincs-sha2-128f-simple_clean/sign.c:122-186 | the buffer holds the signature, bytes behind it are unchanged, the length is SPX_BYTES, wherever the message lies; if it lies in the buffer, the digest reads it with the randomizer written over the front |
| `SphincsSign.CryptoSignVerify` | liboqs/src/sig/sphincs/pqclean_sphincs-sha2-128f-simple_clean/sign.c:191-270 | 0 if and only if the length is SPX_BYTES and the recomputed root is the root of the public key; otherwise -1 |
| `SphincsSign.CryptoSign` | liboqs/src/sig/sphincs/pqclean_sphincs-sha2-128f-simple_clean/sign.c:275-286 | signature, then the message as the moment of the move finds it; bytes behind them are unchanged; the message may lie anywhere, also in the output buffer |
| `SphincsSign.BehindSignatureIsSignedMessage` | liboqs/src/sig/sphincs/pqclean_sphincs-sha2-128f-simple_clean/sign.c:275-286 | where the message does not overlap the place of the signature, the result is the signed message |
| `SphincsSign.CryptoSignOpen` | liboqs/src/sig/sphincs/pqclean_sphincs-sha2-128f-simple_clean/sign.c:291-314 | the message at the front of the buffer on success, also when both buffers are the same; cleared bytes, length 0 and -1 on every failure |
| `SphincsInstance.Sha2_128fIsValid` | liboqs/src/sig/sphincs/pqclean_sphincs-sha2-128f-simple_clean/sign.c:183 | the SHA2-128f parameters satisfy all hypotheses, and SPX_BYTES is 17088 |
| `SphincsInstance.Sha2_128fExists` | liboqs/src/sig/sphincs/pqclean_sphincs-sha2-128f-simple_clean/sign.c:183 | hash functions meeting all hypotheses exist |
| `RingArithmetic.CountersHave32Bits` | sdk/drv_u5/uart.h:16-19 | the counters have 32 bits, and the depths of both rings divide their range |
| `RingArithmetic.WrappedDistance` | sdk/drv_u5/uart.c:36 | the wrapped difference of two 32-bit counters is their true distance |
| `RingArithmetic.IndexOfWrapped` | sdk/drv_u5/uart.c:43-46 | an index equals its wrapped counter modulo the depth, because the depth divides 2^32 |
| `RingArithmetic.DifferentSlots` | sdk/drv_u5/uart.c:41-44 | positions less than one depth apart use different slots |
| `UartTx.TaskKeeps` | sdk/drv_u5/uart.c:67-85 | every statement of putchar keeps the invariant |
| `UartTx.IrqKeeps` | sdk/drv_u5/uart.c:87-97 | the interrupt keeps the invariant, sends the oldest byte, and switches off only an empty ring |
| `UartTx.RunKeeps` | sdk/drv_u5/uart.c:67-117 | the invariant holds over every interleaving of statements and interrupts |
| `UartTx.NoLostWakeup` | sdk/drv_u5/uart.c:67-117 | a non-empty ring outside putchar implies tx_run and TXEIE |
| `UartTx.FifoThroughWrapAround` | sdk/drv_u5/uart.c:67-117 | what was sent is a prefix of what was accepted, occupancy is the wrapped difference and at most the depth, indices are the counters modulo the depth |
| `UartTx.Drains` | sdk/drv_u5/uart.c:106-117 | once putchar stays out, one interrupt for each byte sends everything and the next one switches off |
| `UartTx.PutcharIsItsStatements` | sdk/drv_u5/uart.c:67-85 | the eight statements without an interrupt between them are one append, or nothing when full |
| `UartTx.Uart.PutChar` | sdk/drv_u5/uart.c:67-85 | true exactly when there was room; the new state is the append |
| `UartTx.Uart.TxInterrupt` | sdk/drv_u5/uart.c:87-117 | the new state is the interrupt step, and the byte written is the next one of the history |
| `UartRx.ReceivedRefines` | sdk/drv_u5/uart.c:34-47 | an interrupt anywhere inside getchar offers its byte to a bounded queue whose capacity is the whole depth |
| `UartRx.TaskRefines` | sdk/drv_u5/uart.c:58-64 | statements of getchar leave the queue alone until the count is advanced; then the front goes, and it is the byte returned |
| `UartRx.CallRefines` | sdk/drv_u5/uart.c:53-56 | getchar starts exactly when the queue is not empty |
| `UartRx.RingIsBoundedQueue` | sdk/drv_u5/uart.c:34-65 | under every interleaving the ring delivers exactly what a bounded queue of that capacity delivers |
| `UartRx.Uart.RxByte` | sdk/drv_u5/uart.c:34-47 | the queue takes the byte unless full |
| `UartRx.Uart.GetChar` | sdk/drv_u5/uart.c:49-65 | the front of the queue, or -1 exactly when it is empty |
| `TlsRing.RingBuffer.WriteByte` | app/tls_pqc.c:46-59 | one producer step is a step of the drop-tail queue of capacity size-1 |
| `TlsRing.RingBuffer.Write` | app/tls_pqc.c:43-60 | the longest prefix that fits is queued, the rest is counted as lost |
| `TlsRing.RingBuffer.ReadByte` | app/tls_pqc.c:67-70 | one consumer step is a step of the queue |
| `TlsRing.RingBuffer.Read` | app/tls_pqc.c:62-72 | the oldest bytes, as many as asked for or as there are; the rest of the buffer is unchanged |
| `TlsRing.RingBuffer.IsEmpty` | app/tls_pqc.c:74-76 | true exactly when nothing is queued |
| `TlsRing.RingBuffer.Available` | app/tls_pqc.c:78-81 | the number of queued bytes, across the wrap |
| `TlsRing.RingBuffer.EmbedReceive` | app/tls_pqc.c:162-177 | reads, or asks to be called again exactly when the ring is empty; the overflow report is cleared |
| `TlsRing.RingBuffer.Reset` | app/tls_pqc.c:205-229 | empties the ring |
| `TlsRing.QueueConserves` | app/tls_pqc.c:43-72 | over every interleaving: offered = accepted + lost, and what was read followed by what is queued is what was accepted |
| `TlsRing.BurstKeepsPrefix` | app/tls_pqc.c:43-60 | a burst without reads loses exactly its tail |
| `CyclicBuffer.ArcPush` | sdk/hal/tty.c:89-102 | appending to a cyclic buffer that keeps one slot free |
| `UsbStream.Stream.RxHandler` | sdk/hal/tty.c:79-105 | a packet is queued whole or not at all; neither unread bytes nor the byte getchar is about to load are disturbed |
| `UsbStream.Stream.GetChar` | sdk/hal/tty.c:107-119 | the oldest unread byte, or -1 |
| `UsbStream.Stream.Flush` | sdk/hal/tty.c:186-191 | forgets everything unread |
| `LineEditor.CommandsHead` | sdk/hal/tty.c:121-148 | the reference editor, taken one byte at a time |
| `LineEditor.ControlBytes` | sdk/hal/tty.c:121-148 | 0, 10 and 13 end a line and nothing else does; 8 takes back the last character; anything else is added if it fits |
| `LineEditor.CommandsConcat` | sdk/hal/tty.c:150-168 | cutting the input into pieces does not change the commands |
| `LineEditor.CommandsAreClean` | sdk/hal/tty.c:121-148 | every command is non-empty, at most 1023 characters for a buffer of 1024, and free of NUL, line ends and backspaces |
| `LineEditor.TypedWithoutBackspace` | sdk/hal/tty.c:146-147 | without backspaces a line is what was typed, cut off at the limit |
| `LineEditor.BackspaceUndoes` | sdk/hal/tty.c:129-134 | a backspace removes the character typed before it |
| `LineEditor.TtyBuf.Feed` | sdk/hal/tty.c:121-148 | every store is in bounds, and the callback gets exactly the edited line as a C string |
| `Tty.StepConsistent` | sdk/hal/tty.c:79-168 | a packet, or one byte taken by the loop, keeps delivered plus pending equal to the commands of the accepted bytes |
| `Tty.DeliveredIsCommandsOfAccepted` | sdk/hal/tty.c:79-168 | with packets arriving between any two bytes, the strings delivered are the commands of the accepted bytes whenever the ring is empty: neither packet boundaries nor polling times show |
| `Tty.DeliveredIsPrefix` | sdk/hal/tty.c:79-168 | at any other moment they are an initial part of those commands |
| `Tty.TakesDrain` | sdk/hal/tty.c:157-161 | the loop, byte by byte, is the editing of everything queued |
| `Tty.SerialDeliversCommandsOfAccepted` | sdk/hal/tty.c:163-167 | the serial side under every interleaving of interrupts and statements: delivered strings are an initial part of the commands of the accepted bytes, and all of them when the queue is empty |
| `Tty.Terminal.OnPacket` | sdk/hal/tty.c:79-105 | a packet is a step of the reference session |
| `Tty.Terminal.RxTask` | sdk/hal/tty.c:150-168 | polling without arrivals drains the reference session, and empties both rings through their editors |
| `Clock.PeriodsShownAsThousands` | sdk/drv_u5/time.c:20-57 | the clock shows the count through a period of 1001 ticks, and each period as 1000 |
| `Clock.IdealIsMonotone` | sdk/drv_u5/time.c:46-57 | the clock with its 1001-tick period never goes backwards and never runs faster than the ticks |
| `Clock.EveryOverflowCountedOnce` | sdk/drv_u5/time.c:10-18 | over every timely run, timer_ms plus a pending update is the number of update events |
| `Clock.EachCallReadsOnce` | sdk/drv_u5/time.c:46-75 | every call of either read function yields exactly one reading, and an interrupt none |
| `Clock.ClockIsMonotone` | sdk/drv_u5/time.c:46-75 | over every timely run, readings by either entry point never go backwards and never advance by more than the ticks between |
| `Clock.ServiceBoundIff` | sdk/drv_u5/time.c:46-57 | over all runs that serve every overflow before the counter reaches a bound, the clock never goes backwards if and only if the bound is at most 100 |
| `Clock.Timer.IrqHandler` | sdk/drv_u5/time.c:10-18 | afterwards the millisecond count alone is the number of update events |
| `Clock.Timer.GetTime` | sdk/drv_u5/time.c:46-66 | the ideal time of the moment CNT was read, with any ticks between the loads |
| `Clock.Timer.GetTimeIrq` | sdk/drv_u5/time.c:68-73 | the same after forced servicing |
| `Clock.TimeDelay` | sdk/drv_u5/time.c:76-95 | the loop leaves at the first reading that is far enough |
| `Clock.DelayIsLongEnough` | sdk/drv_u5/time.c:76-95 | a delay is never too short exactly when the argument in microseconds fits 32 bits |
| `AtomicRegister.StepKeeps` | sdk/stm32/CMSIS/device/STM32U5xx/inc/stm32u5xx.h:189-213 | every instruction of every agent keeps the invariant of the monitor model |
| `AtomicRegister.Linearizable` | sdk/stm32/CMSIS/device/STM32U5xx/inc/stm32u5xx.h:189-213 | any number of retry loops in any interleaving leave the register as their operations one after the other, and no operation is lost or repeated |
| `AtomicRegister.CommitsKeepTheirOrder` | sdk/stm32/CMSIS/device/STM32U5xx/inc/stm32u5xx.h:189-213 | real-time order: an operation that took effect before another one was committed, so one that completed before the other began, comes before it in the order of effects |
| `AtomicRegister.LeftAloneCommits` | sdk/stm32/CMSIS/device/STM32U5xx/inc/stm32u5xx.h:189-213 | progress: an agent that is left alone completes its operation in at most three steps, on the value of its last load |
| `AtomicRegister.OwnBitsAreUndisturbed` | sdk/stm32/CMSIS/device/STM32U5xx/inc/stm32u5xx.h:189-213 | bits only one agent changes end as if it had run alone |
| `AtomicRegister.TouchedBits` | sdk/stm32/CMSIS/device/STM32U5xx/inc/stm32u5xx.h:189-213 | setting leaves the bits of the mask set, clearing leaves them clear, and a modification clears first and sets afterwards |
| `AtomicRegister.Register.Update` | sdk/stm32/CMSIS/device/STM32U5xx/inc/stm32u5xx.h:189-213 | one retry loop: as many failures as disturbed attempts, then one update of the value the others left |
| `MpuLoader.SetOneByOneAt` | sdk/stm32/CMSIS/inc/mpu_armv8.h:255-260 | setting regions one by one changes exactly those regions |
| `MpuLoader.WindowPairs` | sdk/stm32/CMSIS/inc/mpu_armv8.h:310-322 | pair 0 of the window is the selected region, pairs 1 to 3 are the regions of its group of four |
| `MpuLoader.SetInTwoParts` | sdk/stm32/CMSIS/inc/mpu_armv8.h:289-327 | a table may be loaded in two parts |
| `MpuLoader.WindowSetsRegions` | sdk/stm32/CMSIS/inc/mpu_armv8.h:289-295 | with an aligned RNR, words copied to the alias window set the regions behind it |
| `MpuLoader.SingleSetsRegion` | sdk/stm32/CMSIS/inc/mpu_armv8.h:305-307 | with a count of one, any region number works |
| `MpuLoader.Mpu.OrderedMemcpy` | sdk/stm32/CMSIS/inc/mpu_armv8.h:289-295 | every word is stored once, in order |
| `MpuLoader.Mpu.SetRegionEx` | sdk/stm32/CMSIS/inc/mpu_armv8.h:255-260 | sets one region |
| `MpuLoader.Mpu.SetRegions` | sdk/stm32/CMSIS/inc/mpu_armv8.h:255-260 | the reference: one call for each entry |
| `MpuLoader.Mpu.LoadEx` | sdk/stm32/CMSIS/inc/mpu_armv8.h:303-327 | for every first region and count, the same table as setting the regions one by one |
| `CommandLookup.Strnicmp` | sdk/common/util.c:3-26 | zero exactly when the first characters agree up to case; otherwise the 8-bit difference at the first place where they do not |
| `CommandLookup.Letters` | sdk/common/util.c:17-38 | the letters are 65 to 90 and 97 to 122, 32 apart; nothing else has a case; word characters are the letters, 48 to 57, 42 and 35 |
| `CommandLookup.SameNameIff` | sdk/common/util.c:3-25 | equal up to case means equal byte by byte but for the case of letters |
| `CommandLookup.CaseDoesNotMatter` | app/cmd.c:372-397 | whatever letters of the text change their case, the same row is found |
| `CommandLookup.LengthsWrap` | app/cmd.c:372-388 | the scan keeps name lengths modulo 65536, compares modulo 256 of them, and stops at a multiple of 65536 |
| `CommandLookup.Token` | sdk/common/util.c:28-40 | the maximal word at the beginning of a text |
| `CommandLookup.FindCmd` | app/cmd.c:374-397 | the first row that matches, with the 16-bit length and the 8-bit comparison length of the code, and the rest of the text |
| `CommandLookup.MatchIsTokenEquality` | app/cmd.c:386-393 | for a name of word characters shorter than 256, the prefix test is equality with the first word up to case |
| `CommandLookup.NamesMustBeWords` | app/cmd.c:386-393 | that holds for all texts if and only if the name is of word characters and shorter than 256 |
| `CommandLookup.FoundIsLookup` | app/cmd.c:374-397 | the scan is a dictionary lookup of the first word ignoring case |
| `CommandLookup.OrderDoesNotMatter` | app/cmd.c:374-397 | tables with the same distinct words, in any order, find the same name |
| `UsbDriver.Endpoint.OnSetup` | sdk/stm32/STM32_USBX_Library/common/usbx_stm32_device_controllers/ux_dcd_stm32_callback.c:231-343 | the new state is the SETUP callback's |
| `UsbDriver.SetupPacketDecides` | sdk/stm32/STM32_USBX_Library/common/usbx_stm32_device_controllers/ux_dcd_stm32_callback.c:256-343 | by the bytes of the packet, the length low byte first: a read or a request without data is posted, a write that fits is received with exactly its length, and a longer one stalls the endpoint |
| `UsbDriver.HandlersByKind` | sdk/stm32/STM32_USBX_Library/common/usbx_stm32_device_controllers/ux_dcd_stm32_callback.c:49-142 | what a dispatch does, kind by kind: a read goes on to its data stage, an accepted write or request without data is answered with one empty packet, one that is not accepted is left alone |
| `UsbDriver.ResetEndsDataStages` | sdk/stm32/STM32_USBX_Library/common/usbx_stm32_device_controllers/ux_dcd_stm32_endpoint_reset.c:79-115 | after a reset the data stage callbacks of endpoint 0 find nothing to do |
| `UsbDriver.CallbacksComplete` | sdk/stm32/STM32_USBX_Library/common/usbx_stm32_device_controllers/ux_dcd_stm32_callback.c:508-691 | the callbacks of the other endpoints: one empty packet behind data that asks for it, otherwise the transfer is done, with the requested length or the length that came |
| `UsbSetupDispatch.ControlPipe.OnSetup` | sdk/stm32/STM32_USBX_Library/common/usbx_stm32_device_controllers/ux_dcd_stm32_callback.c:231-343 | the object of endpoint 0 keeps the invariant of the dispatch runs, and its history makes that step |
| `UsbSetupDispatch.ControlPipe.SetupIsrPending` | sdk/stm32/STM32_USBX_Library/common/usbx_stm32_device_controllers/ux_dcd_stm32_callback.c:131-185 | a whole dispatch is claim, handler and release in a row; nothing happens exactly when another is active or nothing is posted |
| `UsbEndpoint.Transfers.Poll` | sdk/stm32/STM32_USBX_Library/common/usbx_stm32_device_controllers/ux_dcd_stm32_transfer_run.c:86-166 | the object of another endpoint keeps the transfer protocol |
| `UsbEndpoint.Transfers.Complete` | sdk/stm32/STM32_USBX_Library/common/usbx_stm32_device_controllers/ux_dcd_stm32_callback.c:508-541 | the completion of an armed transfer keeps it |
| `UsbDriver.Endpoint.OnDataIn` | sdk/stm32/STM32_USBX_Library/common/usbx_stm32_device_controllers/ux_dcd_stm32_callback.c:393-541 | the new state is the DataIn callback's, on endpoint 0 and on the others |
| `UsbDriver.Endpoint.OnDataOut` | sdk/stm32/STM32_USBX_Library/common/usbx_stm32_device_controllers/ux_dcd_stm32_callback.c:589-697 | the new state is the DataOut callback's, on endpoint 0 and on the others |
| `UsbDriver.Endpoint.Run` | sdk/stm32/STM32_USBX_Library/common/usbx_stm32_device_controllers/ux_dcd_stm32_transfer_run.c:86-166 | new state and verdict of one poll |
| `UsbDriver.Endpoint.SetupIsrPending` | sdk/stm32/STM32_USBX_Library/common/usbx_stm32_device_controllers/ux_dcd_stm32_callback.c:131-185 | one dispatch, when nothing interrupts it |
| `UsbSegments.SegmentsCoverData` | sdk/stm32/STM32_USBX_Library/common/usbx_stm32_device_controllers/ux_dcd_stm32_callback.c:429-502 | packets are consecutive slices that make up the data, and only the last may be short |
| `UsbControlIn.CallbackSendsSlice` | sdk/stm32/STM32_USBX_Library/common/usbx_stm32_device_controllers/ux_dcd_stm32_callback.c:479-502 | one callback with data left sends the next slice, and the remaining length strictly decreases |
| `UsbControlIn.SentSoFar` | sdk/stm32/STM32_USBX_Library/common/usbx_stm32_device_controllers/ux_dcd_stm32_callback.c:429-502 | after n callbacks exactly the first n+1 packets have been sent, inside the data, and nothing is reported done |
| `UsbControlIn.ControlInDelivers` | sdk/stm32/STM32_USBX_Library/common/usbx_stm32_device_controllers/ux_dcd_stm32_callback.c:429-502 | in the end all packets, and one empty packet at the end if and only if it was wanted; the transfer is reported complete once; later callbacks change nothing |
| `UsbControlIn.BytesOnTheBus` | sdk/stm32/STM32_USBX_Library/common/usbx_stm32_device_controllers/ux_dcd_stm32_callback.c:429-502 | the bytes on the bus are exactly the requested bytes |
| `UsbSegments.AssembleSegments` | sdk/stm32/STM32_USBX_Library/common/usbx_stm32_device_controllers/ux_dcd_stm32_callback.c:617-655 | reassembly undoes segmentation and completes with the last packet |
| `UsbSegments.AssembleShortTransfer` | sdk/stm32/STM32_USBX_Library/common/usbx_stm32_device_controllers/ux_dcd_stm32_callback.c:632-648 | a short transfer is understood exactly when its last packet is short, or after a zero-length packet |
| `UsbControlOut.SetupStartsReceiving` | sdk/stm32/STM32_USBX_Library/common/usbx_stm32_device_controllers/ux_dcd_stm32_callback.c:298-340 | a SETUP packet for data that fits arms the first reception at the beginning of the buffer |
| `UsbControlOut.CallbacksReassemble` | sdk/stm32/STM32_USBX_Library/common/usbx_stm32_device_controllers/ux_dcd_stm32_callback.c:617-655 | for all packets: posted exactly on reaching the length or on a short packet, overflow exactly when too much came, waiting otherwise |
| `UsbControlOut.PointerCountsPackets` | sdk/stm32/STM32_USBX_Library/common/usbx_stm32_device_controllers/ux_dcd_stm32_callback.c:645-652 | while waiting, pointer offset = actual length = packets times packet size |
| `UsbControlOut.BufferHoldsPackets` | sdk/stm32/STM32_USBX_Library/common/usbx_stm32_device_controllers/ux_dcd_stm32_callback.c:617-655 | the buffer holds exactly the packets up to where the stage ended, in order |
| `UsbControlOut.InsideIffPacketDivides` | sdk/stm32/STM32_USBX_Library/common/usbx_stm32_device_controllers/ux_dcd_stm32_callback.c:617-655 | no reception reaches past the control buffer if and only if the packet size divides its length |
| `UsbControlOut.HonestStaysInside` | sdk/stm32/STM32_USBX_Library/common/usbx_stm32_device_controllers/ux_dcd_stm32_callback.c:617-655 | whatever the packet size, a host that sends no more than it announced never leaves the buffer |
| `UsbControlOut.ControlOutReceives` | sdk/stm32/STM32_USBX_Library/common/usbx_stm32_device_controllers/ux_dcd_stm32_callback.c:298-340 | a host that sends what it announced finds its data in the buffer and its request posted, whatever the packet size |
| `UsbSetupDispatch.SetupPosts` | sdk/stm32/STM32_USBX_Library/common/usbx_stm32_device_controllers/ux_dcd_stm32_callback.c:254-320 | a SETUP packet adds its post, and leaves the endpoint stalled if and only if it is a write that does not fit the buffer |
| `UsbSetupDispatch.StepKeeps` | sdk/stm32/STM32_USBX_Library/common/usbx_stm32_device_controllers/ux_dcd_stm32_callback.c:131-185 | every callback, dispatcher piece and stack call, and the load and the store of each update outside a critical section, keeps the invariant and the account of posts |
| `UsbSetupDispatch.DispatchIsExclusive` | sdk/stm32/STM32_USBX_Library/common/usbx_stm32_device_controllers/ux_dcd_stm32_callback.c:144-184 | at most one activation exists, exactly while TASK_PENDING is set; another call does nothing |
| `UsbSetupDispatch.EachPostConsumedAtMostOnce` | sdk/stm32/STM32_USBX_Library/common/usbx_stm32_device_controllers/ux_dcd_stm32_callback.c:144-184 | every post is in exactly one dispatched or dropped window, pending, or overwritten; without the last, in order |
| `UsbSetupDispatch.UpdateLosesIff` | sdk/stm32/STM32_USBX_Library/common/usbx_stm32_device_controllers/ux_dcd_stm32_endpoint_stall.c:86-93 | the unprotected updates of stall and of callback.c:184 lose posts if and only if one with a bit of its own comes between load and store; nothing else loses posts |
| `UsbTornUpdates.UpdateOverwritesIff` | sdk/stm32/STM32_USBX_Library/common/usbx_stm32_device_controllers/ux_dcd_stm32_endpoint_stall.c:86-93 | for any interrupts between load and store: exactly when a completion or the stall of an oversized write is lost, and exactly when TRANSFER, DONE and STALLED come back after a SETUP packet has cleared them |
| `UsbTornUpdates.StallLosesRequest` | sdk/stm32/STM32_USBX_Library/common/usbx_stm32_device_controllers/ux_dcd_stm32_endpoint_stall.c:86-93 | a run from the start: a read that arrives while the task stalls the endpoint is served in no run without another packet |
| `UsbTornUpdates.ReleaseLosesRequest` | sdk/stm32/STM32_USBX_Library/common/usbx_stm32_device_controllers/ux_dcd_stm32_callback.c:183-184 | a run from the start: a read that arrives while a dispatch ends is lost |
| `UsbTornUpdates.ReleaseLosesCompletion` | sdk/stm32/STM32_USBX_Library/common/usbx_stm32_device_controllers/ux_dcd_stm32_callback.c:183-184 | a run from the start: a read whose last packet is sent while its dispatch ends loses DONE |
| `UsbSetupDispatch.DropIff` | sdk/stm32/STM32_USBX_Library/common/usbx_stm32_device_controllers/ux_dcd_stm32_transfer_run.c:126-136 | pending posts are dropped if and only if the endpoint is reset or a poll reports a completed transfer |
| `UsbSetupRequests.MergedCases` | sdk/stm32/STM32_USBX_Library/common/usbx_stm32_device_controllers/ux_dcd_stm32.h:82-85 | which posts merge into which kind |
| `UsbSetupRequests.HandlerFollowsPosts` | sdk/stm32/STM32_USBX_Library/common/usbx_stm32_device_controllers/ux_dcd_stm32_callback.c:166-181 | over every run, the device stack finds the latest SETUP packet, and the handler entered is the one of the posts the claim merged |
| `UsbSetupRequests.EachDispatchHandlesOne` | sdk/stm32/STM32_USBX_Library/common/usbx_stm32_device_controllers/ux_dcd_stm32_callback.c:144-184 | every dispatched window puts exactly one request before the device stack |
| `UsbSetupRequests.ServedAsItselfIff` | sdk/stm32/STM32_USBX_Library/common/usbx_stm32_device_controllers/ux_dcd_stm32_callback.c:144-294 | from the arrival of a SETUP packet to the next one, in all runs, everything served is that packet through its own handler if and only if, on arrival, a dispatch about to enter has claimed its kind, the SETUP field holds its kind or nothing, and no data stage is open unless it is a write |
| `UsbSetupRequests.ServedAgainIff` | sdk/stm32/STM32_USBX_Library/common/usbx_stm32_device_controllers/ux_dcd_stm32_callback.c:144-184 | from any moment on, some run without a new packet serves the latest packet (again) if and only if a dispatch is entering, a post is pending that no update will overwrite, or a data stage is open |
| `UsbSetupRequests.ServedOnceIff` | sdk/stm32/STM32_USBX_Library/common/usbx_stm32_device_controllers/ux_dcd_stm32_callback.c:144-184 | from any moment on, every run without a new packet serves at most one request if and only if no data stage is open, and not both a dispatch is entering and a post is pending |
| `UsbSetupRequests.OversizedIsStalledAndDispatchedIff` | sdk/stm32/STM32_USBX_Library/common/usbx_stm32_device_controllers/ux_dcd_stm32_callback.c:307-320 | whenever a request arrives at a free dispatcher, the next claim is active on a stalled endpoint if and only if the request is a write that does not fit; its handler is the one of requests without data if and only if only such requests were pending with it |
| `UsbSetupRequests.StatusStageOnce` | sdk/stm32/STM32_USBX_Library/common/usbx_stm32_device_controllers/ux_dcd_stm32_callback.c:49-86 | once a request with no data left is accepted, exactly one empty packet is sent and nothing more comes before the stack, however the run goes on until the next SETUP packet |
| `UsbSetupRequests.OvertakenRequestIsMisread` | sdk/stm32/STM32_USBX_Library/common/usbx_stm32_device_controllers/ux_dcd_stm32_callback.c:266-294 | a read overtaken by a request without data is served as a write; a write overtaking a read is served as a read and its data ignored |
| `UsbSetupRequests.LateRequestIsServedTwice` | sdk/stm32/STM32_USBX_Library/common/usbx_stm32_device_controllers/ux_dcd_stm32_callback.c:144-184 | a packet that arrives between a claim and its handler is served twice |
| `UsbEndpoint.PollByPhase` | sdk/stm32/STM32_USBX_Library/common/usbx_stm32_device_controllers/ux_dcd_stm32_transfer_run.c:101-166 | what a poll answers and does in each state of a transfer |
| `UsbEndpoint.StepKeeps` | sdk/stm32/STM32_USBX_Library/common/usbx_stm32_device_controllers/ux_dcd_stm32_callback.c:508-541 | the status word is a state of the transfer protocol, through every callback, poll, reset, abort and release, and the load and the store of a stall |
| `UsbEndpoint.StallLosesCompletionIff` | sdk/stm32/STM32_USBX_Library/common/usbx_stm32_device_controllers/ux_dcd_stm32_endpoint_stall.c:86-93 | a stall loses a completion if and only if the transfer finishes between its load and its store |
| `UsbEndpoint.StallLosesCompletion` | sdk/stm32/STM32_USBX_Library/common/usbx_stm32_device_controllers/ux_dcd_stm32_endpoint_stall.c:86-93 | a run from the creation of the endpoint that loses one |
| `UsbEndpoint.OneTransferAtATime` | sdk/stm32/STM32_USBX_Library/common/usbx_stm32_device_controllers/ux_dcd_stm32_transfer_run.c:101-166 | DONE implies TRANSFER, and at most one HAL transfer is outstanding |
| `UsbEndpoint.ReportConsumesItsCompletion` | sdk/stm32/STM32_USBX_Library/common/usbx_stm32_device_controllers/ux_dcd_stm32_transfer_run.c:126-136 | every completion reported came directly before and completed a transfer started after everything reported earlier, with at most one empty packet between |
| `UsbTransfers.FirstPollStarts` | sdk/stm32/STM32_USBX_Library/common/usbx_stm32_device_controllers/ux_dcd_stm32_transfer_run.c:140-162 | the first poll of an endpoint that is not stalled arms exactly one transfer of the requested length, sending for an endpoint that sends and receiving for one that receives |
| `UsbTransfers.RunTraffic` | sdk/stm32/STM32_USBX_Library/common/usbx_stm32_device_controllers/ux_dcd_stm32_transfer_run.c:140-162 | over every run, the data calls are exactly one start for each transfer, in the direction of the endpoint and with the length filled in last, and one empty packet behind the data of each that was to have one |
| `UsbTransfers.RunOneWay` | sdk/stm32/STM32_USBX_Library/common/usbx_stm32_device_controllers/ux_dcd_stm32_transfer_run.c:140-162 | over every run, an endpoint that sends never receives, and one that receives never sends, not even an empty packet |
| `UsbTransfers.ReportedLengths` | sdk/stm32/STM32_USBX_Library/common/usbx_stm32_device_controllers/ux_dcd_stm32_callback.c:508-691 | over every run, the length found at a reported completion is the requested one on an endpoint that sends, and the count of the last callback on one that receives |
| `UsbEndpoint.AbortLosesIff` | sdk/stm32/STM32_USBX_Library/common/usbx_stm32_device_controllers/ux_dcd_stm32_transfer_abort.c:79-100 | an abort leaves nothing outstanding, and loses the transfer if and only if one was in flight |
| `UsbEndpoint.ResetStrandsIff` | sdk/stm32/STM32_USBX_Library/common/usbx_stm32_device_controllers/ux_dcd_stm32_endpoint_reset.c:79-115 | after a reset polling answers Wait for ever if and only if the reset found a completed transfer or one already stuck, or cancelled one in flight |
| `UsbEndpoint.ResetStrands` | sdk/stm32/STM32_USBX_Library/common/usbx_stm32_device_controllers/ux_dcd_stm32_endpoint_reset.c:79-115 | a run from the creation of the endpoint after which polling waits for ever |
| `UsbSlots.SlotsAreDistinct` | sdk/stm32/STM32_USBX_Library/common/usbx_stm32_device_controllers/ux_dcd_stm32.h:141-158 | different addresses never share a descriptor |
| `UsbSlots.SlotExistsIff` | sdk/stm32/STM32_USBX_Library/common/usbx_stm32_device_controllers/ux_dcd_stm32.h:141-158 | an address has a descriptor if and only if its number is below the length of the tables and the endpoints of the device, and it is the one of its direction and number |
| `UsbSlots.CallbackReachesOwnSlot` | sdk/stm32/STM32_USBX_Library/common/usbx_stm32_device_controllers/ux_dcd_stm32_callback.c:409-415 | a callback finds the descriptor of its endpoint's address, if and only if that is not the IN address of endpoint 0 |
| `UsbSlots.DeviceController.Create` | sdk/stm32/STM32_USBX_Library/common/usbx_stm32_device_controllers/ux_dcd_stm32_endpoint_create.c:76-127 | succeeds exactly when the address has a descriptor that nobody holds for it; only that descriptor changes; exactly the descriptor the endpoint pointed at before, if it held it, becomes unreachable |
| `UsbSlots.DeviceController.Destroy` | sdk/stm32/STM32_USBX_Library/common/usbx_stm32_device_controllers/ux_dcd_stm32_endpoint_destroy.c:76-93 | frees the descriptor the endpoint points at, whoever has it, and nothing else |
| `UsbSlots.DeviceController.StaleDestroyHitsAnotherIff` | sdk/stm32/STM32_USBX_Library/common/usbx_stm32_device_controllers/ux_dcd_stm32_endpoint_destroy.c:76-93 | another live endpoint loses its descriptor if and only if the pointer is stale and the descriptor is in use by an endpoint that points at it |
| `UsbSlots.DestroyTwice` | sdk/stm32/STM32_USBX_Library/common/usbx_stm32_device_controllers/ux_dcd_stm32_endpoint_destroy.c:76-93 | create, destroy, create another at the address, destroy the first again: the second is no longer live |
| `UsbSlots.DeviceController.Exclusive` | sdk/stm32/STM32_USBX_Library/common/usbx_stm32_device_controllers/ux_dcd_stm32_endpoint_create.c:76-127 | endpoints that hold what they point at never share a descriptor |

## Left out

- SHA-2, randombytes, and the set-up and release of the hash context: hashes are arbitrary functions, random bytes are a parameter, debug printing is dropped.
- Merkle.MerkleGenRoot: the uninitialized root buffer is an arbitrary block, so that no value of it matters.
- The liboqs dispatch wrapper, key-pair generation from fresh randomness, and the size getters: thin forwarding.
- UartRx and UartTx: the peripheral is its data register and the TXEIE bit; error flags and the DMA variant are left out.
- TlsRing: one iteration of the read or write loop is one atomic step; wolfSSL, the handshake loop, certificates and sending are foreign library and plumbing.
- Tty: routing to the TLS ring while a handshake is active, and all output paths, are left out.
- Clock.Timer.GetTime: the 64-bit wrap of milliseconds and microseconds after some hundred thousand years is not modelled.
- AtomicRegister: the 16-bit macros are the same loops on half words.
- MpuLoader.Mpu.LoadEx: region numbers must exist in the unit; writes to missing regions and reserved register bits are not modelled.
- CommandLookup.FindCmd: a name of 256 characters or more needs a text longer than it, because the code tests the byte behind without having compared up to it; tables are terminated within the range of the 16-bit row counter.
- The command handlers (switching power and chip select, setting the SPI prescaler and the automatic response mode, printing identification, starting the TLS task), the number and hexadecimal parsers, and the help text. The AUTO setter does not read what the AUTO getter prints.
- UsbDriver: tracing, completion functions, the endpoint address in HAL calls, and the threaded variant are left out; HAL calls are a log.
- UsbControlIn.ControlInDelivers: between the callbacks of one transfer tasks may change the status word in any way, but a new SETUP packet or an endpoint reset there ends the transfer and is covered by the dispatch results only.
- UsbSetupDispatch: no liveness is claimed; what the device stack does inside the dispatcher is any sequence of the modelled calls, and a torn update is the only access that is split further than into the source's critical sections and statements.
- UsbEndpoint.ReportConsumesItsCompletion: about transfers, not request objects; after a stall and a reset a new request may be told of an older transfer's end.
- UsbSlots.DeviceController.Create: opening and closing endpoints in the HAL, packet sizes and types are left out.
- Connect, suspend, resume and start-of-frame callbacks, descriptor building, LED sequencing and the peripheral drivers: fixed configuration and register pokes.
