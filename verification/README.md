# Verified models of node-dlc

Dafny models of nine independent parts of node-dlc, each with the methods proved against a
specification and the properties of the specification proved for all inputs or all runs. Check
them with `dafny verify dfyconfig.toml`.

* **Revocation secrets** (`CommitmentSecret`, `CommitmentSecretStore`, `CommitmentSecretRuns`): the
  49-slot store of BOLT #3, section "Efficient Per-commitment Secret Storage", refines the map of up
  to 2^48 secrets it replaces, with an arbitrary hash function and an arbitrary counterparty.
* **CET compression** (`CETCalculator`, `CETPartition`, `CETCover`, `CETWhole`): an outcome interval
  becomes an exact, ordered and smallest set of digit prefixes.
* **BOLT #8 transport** (`Noise` in `NoiseState.dfy`, `NoiseAuth`, `NoiseRuns`, `NoiseOrder`,
  `NoiseNonces`, `NoiseSocket`, `NoiseConnect`, `NoiseStreams`, `NoiseBackpressure`, `NoiseLaws`):
  handshake, key rotation, nonces and the sockets over honest and arbitrary byte streams, with DH,
  HKDF and AEAD as parameters.
* **CRC32C** (`Crc32c`, `Crc32cConstants`, `Crc32cTheory`): the table-driven form, polynomial
  division and what it detects.
* **DLC funding** (`Sorting`, `TxFinalizer`, `CoinSelect`, `CoinSelectTypes`, `TxBuilder`,
  `TxBuilderOutputs`): coin selection, fees and the funding transaction.
* **Reorgs** (`BlockDiffer`): the lowest common ancestor of two tips.
* **Gossip** (`GossipRelay`, `GossipMemoryStore`, `GossipFilter`, `GossipFilterRuns`,
  `GossipBroadcasts`, `GossipProgress`, `GossipDelivery`, `GossipRemovals`): the relay queue, the
  indexed store and the validation filter over two stores.
* **Transactions** (`Bufio`, `Script`, `Tx`, `TxCodec`, `TxRoundTrip`, `TxBytes`): the legacy and
  segwit codec and the size calculator.
* **Base32 and queues** (`Base32`, `Base32Groups`, `LinkedList`, `Queue`, `AsyncProcessingQueue`).

`Numbers`, `Bits`, `Sequences` and `Wrappers` hold the arithmetic, list operations and result types they
share.

Objects that the source updates in place are classes whose methods state their whole new state
through a specification function of the old one; what the source promises is proved about these
functions and about runs of them.

## Where the code falls short of its promise

These properties do not hold of the code on all inputs. The code is modelled as it is, and the exact
condition is proved.

* BOLT #8 rotations: both directions take their keys from one chaining key
  (packages/noise/lib/noise-state.ts:466-480), so two-way traffic can lose its keys. A packet decrypts
  exactly when both ends rotated in one order (`NoiseRuns.ReceiveIffSameOrder`;
  `NoiseOrder.RunOkIff` for whole runs;
  `NoiseRuns.CrossedRotationsFail` is one that fails).
* `diff` needs a new tip that is not lower than the old one, as the comment at
  packages/chainmon/lib/BlockDiffer.ts:50-53 says; without it the walk passes the ancestor
  (`BlockDiffer.BlockDiffer.Diff`).
* An accepter without inputs of value has its collateral paid out of nothing
  (`TxBuilder.AcceptPaysIff`, `TxBuilder.CollateralFromNowhere`); `TxBuilder.FeeNonNegativeIff` says when
  the fee as a whole is negative. An output offered by both sides is spent twice
  (`TxBuilder.SpendsOnceIff`).
* With a taproot output and another one, greedy selection may take too many inputs or none; without
  one it never does (`CoinSelectTypes.SmallestIff`, `CoinSelectTypes.MixedTypesNotSmallest`,
  `CoinSelectTypes.TaprootNotSmallest`).
* Replacing a queued message does not shift the peers' positions
  (packages/wire/lib/gossip/GossipRelay.ts:191-193), so a peer can miss a message
  (`GossipRelay.DeliveryIff`, `GossipRelay.UpdateNeverSent`).
* A badly signed message that waits for a channel announcement keeps those behind it waiting
  (`GossipFilterRuns.AwaitingIff`, `GossipFilterRuns.ForgedUpdateStrands`), and the announcement itself
  is stored and never broadcast (`GossipBroadcasts.SilentIff`, `GossipBroadcasts.AllBroadcastIff`).
* A message that waits for its channel gives way to whichever comes next, even an older or a forged one
  (packages/wire/lib/gossip/GossipFilter.ts:264-267), so a valid update can be lost
  (`GossipDelivery.UpdateStoredIff`, `GossipDelivery.WaitingIsDisplaced`).
* Removing a channel (packages/wire/lib/gossip/GossipManager.ts:116-123) deletes the update of its first
  direction twice and leaves the other one (`GossipRemovals.RemovedIff`).
* A script with an opcode in 0x01..0x4d is not read back (`Script.ScriptRoundTripIff`,
  `TxRoundTrip.RoundTripIff`).
* The processing queue can sleep over items (`AsyncProcessingQueue.StaysAwakeIff`).

## Model

| member | source | states |
|---|---|---|
| CommitmentSecret.FlipInPlace | packages/core/lib/lightning/CommitmentSecret.ts:33-35 | changes bit `b` of the buffer, counted from the lowest bit of its first byte, and no other |
| CommitmentSecret.DeriveSecret | packages/core/lib/lightning/CommitmentSecret.ts:26-40 | the loop that flips a bit of the buffer in place and hashes computes the flip-and-hash walk from the highest bit down |
| CommitmentSecret.FlipDiffers | packages/core/lib/lightning/CommitmentSecret.ts:33-35 | flipping bit `b` changes that bit and no other; only one buffer differs so (`DifferUnique`) |
| CommitmentSecret.FlipAdds | packages/core/lib/lightning/CommitmentSecret.ts:33-35 | the number that the buffer holds, lowest byte first, changes by `2^b` |
| CommitmentSecret.DeriveHighest | packages/core/lib/lightning/CommitmentSecret.ts:26-40 | for an index with highest bit `b` the buffer with bit `b` changed is hashed and the rest of the index derived from there |
| CommitmentSecret.DeriveSmallest | packages/core/lib/lightning/CommitmentSecret.ts:26-40 | index 0 gives the base secret itself, index `2^b` the hash of the buffer with bit `b` changed |
| CommitmentSecret.DeriveThroughPrefix | packages/core/lib/lightning/CommitmentSecret.ts:26-40 | composition: for every index `j` of the aligned block of `2^b` that starts at `i`, the walk to `j` is the walk to `i` followed by the walk over the low `b` bits |
| CommitmentSecretStore.Store.CalcIndex | packages/core/lib/lightning/CommitmentSecretStore.ts:21-26 | returns the number of trailing zero bits of the index, 48 at most |
| CommitmentSecretStore.TrailingZerosExact | packages/core/lib/lightning/CommitmentSecretStore.ts:21-26 | that number is `b` exactly when `2^b` divides the index and the next power does not, or the index is zero and `b` is 48 |
| CommitmentSecretStore.Store.constructor | packages/core/lib/lightning/CommitmentSecretStore.ts:30-35 | 49 slots at index 0 without a secret |
| CommitmentSecretStore.Store.Check | packages/core/lib/lightning/CommitmentSecretStore.ts:50-56 | tells whether the new secret derives the secret of every lower slot |
| CommitmentSecretStore.Store.InsertSecret | packages/core/lib/lightning/CommitmentSecretStore.ts:45-61 | replaces the one slot of the index, or throws and leaves all slots as they were |
| CommitmentSecretStore.Store.DeriveIndex | packages/core/lib/lightning/CommitmentSecretStore.ts:69-83 | derives from the first slot whose index is the masked index, or throws |
| CommitmentSecretRuns.LookupRefines | packages/core/lib/lightning/CommitmentSecretStore.ts:69-83 | slots that represent the secrets received answer like the plain map: the received secret for every received index, the error for every other |
| CommitmentSecretRuns.AcceptsExactly | packages/core/lib/lightning/CommitmentSecretStore.ts:45-56 | an insert is accepted if and only if the secret derives every received secret of its block, not only those still held in slots |
| CommitmentSecretRuns.InsertRefines | packages/core/lib/lightning/CommitmentSecretStore.ts:45-61 | an accepted insert keeps the slots a representation of all secrets received |
| CommitmentSecretRuns.RunRepresents | packages/core/lib/lightning/CommitmentSecretStore.ts:45-61 | the slots after any run of accepted inserts represent all the secrets |
| CommitmentSecretRuns.StoreRefinesMap | packages/core/lib/lightning/CommitmentSecretStore.ts:45-83 | for every run of inserts with arbitrary, possibly dishonest secrets: if none threw, `derive` returns exactly the secret inserted, for every inserted index, and throws for all others |
| CommitmentSecretRuns.SlotHoldsLowest | packages/core/lib/lightning/CommitmentSecretStore.ts:45-61 | after such a run the slot of each depth holds the lowest received index with that many trailing zeros, and its secret |
| CommitmentSecretRuns.HonestRunAccepted | packages/core/lib/lightning/CommitmentSecretStore.ts:45-61 | secrets generated from one seed in descending order are never refused |
| CommitmentSecretRuns.HonestLookup | packages/core/lib/lightning/CommitmentSecretStore.ts:69-83 | after such a run `derive` equals the derivation from the seed for every received index and throws for every index not yet received |
| CETCalculator.DecomposeNumber | packages/core/lib/dlc/CETCalculator.ts:20-33 | the loop gives the digits of the number, most significant first |
| CETCalculator.DecomposeValue | packages/core/lib/dlc/CETCalculator.ts:20-33 | those digits have the number as their value |
| CETCalculator.SeparatePrefix | packages/core/lib/dlc/CETCalculator.ts:35-60 | splits the digits of both ends after their longest common prefix |
| CETCalculator.CommonPrefixAgrees | packages/core/lib/dlc/CETCalculator.ts:35-60 | the prefixes split off are equal and the next digits differ |
| CETCalculator.DropUntil | packages/core/lib/dlc/CETCalculator.ts:11-18 | drops exactly the elements before the first that satisfies the check |
| CETCalculator.FrontGroupingsOf | packages/core/lib/dlc/CETCalculator.ts:62-86 | the loops build the specified front groupings |
| CETCalculator.BackGroupingsOf | packages/core/lib/dlc/CETCalculator.ts:88-114 | the loops build the specified back groupings |
| CETCalculator.MiddleGroupings | packages/core/lib/dlc/CETCalculator.ts:116-125 | one group for each first digit strictly between the two |
| CETCalculator.GroupByIgnoringDigits | packages/core/lib/dlc/CETCalculator.ts:127-167 | the method returns the groupings that the theorems below are about |
| CETPartition.FrontChain | packages/core/lib/dlc/CETCalculator.ts:62-86 | the front groupings tile, in ascending order, the outcomes from the number to the end of its first digit |
| CETPartition.BackChain | packages/core/lib/dlc/CETCalculator.ts:88-114 | the back groupings tile, in ascending order, the outcomes from the start of the first digit to the number |
| CETPartition.GroupingsPartition | packages/core/lib/dlc/CETCalculator.ts:127-167 | for every base of at least 2 and every interval of the outcome space, the blocks of the prefixes are in ascending order, contiguous, and cover exactly the interval |
| CETPartition.GroupingsMaximal | packages/core/lib/dlc/CETCalculator.ts:127-167 | unless the interval is the whole outcome space, no returned prefix can lose its last digit without leaving the interval |
| CETCover.GroupingsDigits | packages/core/lib/dlc/CETCalculator.ts:127-167 | every returned prefix consists of digits of the base |
| CETCover.PrefixIsBlock | packages/core/lib/dlc/CETCalculator.ts:127-167 | the outcomes whose digits start with a prefix are exactly the block of numbers attributed to it |
| CETCover.ReturnedBlock | packages/core/lib/dlc/CETCalculator.ts:127-167 | every returned prefix stands for a non-empty block inside the interval |
| CETCover.GroupingsExact | packages/core/lib/dlc/CETCalculator.ts:127-167 | an outcome starts with a returned prefix if and only if it lies in the interval |
| CETCover.GroupingsDisjoint | packages/core/lib/dlc/CETCalculator.ts:127-167 | no outcome starts with two returned prefixes |
| CETCover.GroupingsMinimal | packages/core/lib/dlc/CETCalculator.ts:127-167 | no set of digit prefixes that covers exactly the interval is smaller, unless the interval is the whole outcome space |
| CETWhole.WholeSpace | packages/core/lib/dlc/CETCalculator.ts:127-167 | the whole outcome space of at least one digit gives exactly the one-digit prefixes, one for each digit of the base |
| CETWhole.NoEmptyPrefix | packages/core/lib/dlc/CETCalculator.ts:127-167 | no returned prefix is empty, unless there are no digits |
| CETWhole.MinimalWithoutEmpty | packages/core/lib/dlc/CETCalculator.ts:127-167 | for every interval, the whole space included, no smaller set of non-empty digit prefixes covers exactly it |
| Noise.NoiseState.DoInitialize | packages/noise/lib/noise-state.ts:438-452 | sets the hash and the chaining key of the protocol name, prologue and responder key |
| Noise.NoiseState.DoInitiatorAct1 | packages/noise/lib/noise-state.ts:133-163 | the new fields and the message are those of act 1 |
| Noise.NoiseState.DoReceiveAct1 | packages/noise/lib/noise-state.ts:262-295 | the new fields, or the error, are those of receiving act 1 |
| Noise.NoiseState.DoReceiveAct2 | packages/noise/lib/noise-state.ts:301-329 | the new fields and the message are those of act 2 |
| Noise.NoiseState.DoInitiatorAct2 | packages/noise/lib/noise-state.ts:172-205 | the new fields, or the error, are those of receiving act 2 |
| Noise.NoiseState.DoInitiatorAct3 | packages/noise/lib/noise-state.ts:213-255 | the new fields and the message are those of act 3, with the transport keys |
| Noise.NoiseState.DoReceiveAct3 | packages/noise/lib/noise-state.ts:337-380 | the new fields, or the error, are those of receiving act 3, with the transport keys |
| Noise.NoiseState.IncrementSendingNonce | packages/noise/lib/noise-state.ts:454-458 | adds one to the sending nonce and returns it |
| Noise.NoiseState.IncrementReceivingNonce | packages/noise/lib/noise-state.ts:460-464 | adds one to the receiving nonce and returns it |
| Noise.NoiseState.RotateSendingKeys | packages/noise/lib/noise-state.ts:466-472 | takes the sending key and the shared chaining key from HKDF and resets the nonce |
| Noise.NoiseState.RotateReceivingKeys | packages/noise/lib/noise-state.ts:474-480 | takes the receiving key and the same chaining key from HKDF and resets the nonce |
| Noise.NoiseState.Encrypt | packages/noise/lib/noise-state.ts:388-407 | seals the length and the body under consecutive nonces, rotates the sending key when the count reaches 1000, and gives the cipher exactly these two keys and nonces; a message above 65535 bytes throws and changes nothing |
| Noise.NoiseState.DoDecryptLength | packages/noise/lib/noise-state.ts:413-419 | opens a length packet and rotates the receiving key when the count reaches 1000, or throws |
| Noise.NoiseState.DoDecryptMessage | packages/noise/lib/noise-state.ts:425-431 | opens a body packet and rotates likewise, or throws |
| Noise.HandshakeAgrees | packages/noise/lib/noise-state.ts:133-380 | for every commutative DH and correct AEAD, acts 1 to 3 between honest parties never fail; both ends have the same chaining key, swapped sending and receiving keys and each other's static key |
| NoiseAuth.SendsAct1 | packages/noise/lib/noise-state.ts:133-163 | the message and the new state in hashes, key derivations and seals over the literal protocol name and prologue |
| NoiseAuth.AcceptsAct1 | packages/noise/lib/noise-state.ts:262-295 | whatever the message: accepted if and only if it has 50 bytes, version 0 and the tag that seals the transcript hash under the key of the responder's static secret; the new state and which error else |
| NoiseAuth.SendsAct2 | packages/noise/lib/noise-state.ts:301-329 | likewise |
| NoiseAuth.AcceptsAct2 | packages/noise/lib/noise-state.ts:172-205 | whatever the message: accepted if and only if it has 50 bytes, version 0 and the tag under the key of the initiator's ephemeral secret |
| NoiseAuth.SendsAct3 | packages/noise/lib/noise-state.ts:213-255 | likewise, with the two keys of the transport |
| NoiseAuth.AcceptsAct3 | packages/noise/lib/noise-state.ts:337-380 | whatever the message: accepted if and only if it has 66 bytes, version 0, some static key sealed under the transcript and the tag sealed under the key of that static key; that key becomes the peer's and the transport keys are those of the chain |
| NoiseAuth.ResponderIff | packages/noise/lib/noise-state.ts:262-380 | whatever the two messages: a responder ends the handshake if and only if they are genuine acts |
| NoiseAuth.InitiatorIff | packages/noise/lib/noise-state.ts:133-205 | whatever the message: an initiator goes on if and only if it is a genuine act 2 |
| NoiseAuth.SendsMessage | packages/noise/lib/noise-state.ts:388-480 | the two packets of a message, their nonces, the two bytes of its length and the keys after it, with a rotation after each thousandth use |
| NoiseAuth.ReadsLength | packages/noise/lib/noise-state.ts:413-480 | whatever the 18 bytes: read as a length if and only if they seal it in the next use of the receiving key |
| NoiseAuth.ReadsBody | packages/noise/lib/noise-state.ts:425-480 | whatever the bytes: read as a body if and only if they seal it in the next use |
| NoiseRuns.HandshakeStarts | packages/noise/lib/noise-state.ts:213-380 | the ends of an honest handshake satisfy the invariant of the transport runs |
| NoiseRuns.SameKeyIffSameOrder | packages/noise/lib/noise-state.ts:454-480 | over a free HKDF chain two ends agree on a key of a direction if and only if they made the same rotations of both directions, in the same order, up to it: both directions share one chaining key |
| NoiseRuns.EpochKeysDistinct | packages/noise/lib/noise-state.ts:466-480 | no two keys coincide, neither over time nor across the directions, even between ends that have made different rotations |
| NoiseNonces.SealUsesAre | packages/noise/lib/noise-state.ts:388-407 | the two keys and nonces of the next encrypted message are the next two uses in the count of its direction |
| NoiseNonces.UsesDiffer | packages/noise/lib/noise-state.ts:388-464 | two uses share key and nonce only if they are one use of one direction, whichever rotations the two ends have made |
| NoiseNonces.TransportUsesDiffer | packages/noise/lib/noise-state.ts:388-480 | in every run, whatever packets arrive, no key and nonce is given to the cipher twice, by one end or by both |
| NoiseNonces.NoPairUsedTwice | packages/noise/lib/noise-state.ts:133-480 | from the first act of every honest handshake on and over every run of the transport after it, no key and nonce is given to the cipher twice, by one end or by both |
| NoiseLaws.LawsHoldTogether | packages/noise/lib/noise-state.ts:133-480 | the laws asked of DH, HKDF and AEAD hold together, authenticity included: a symbolic instance satisfies all of them, with keys as the handshake leaves them |
| NoiseRuns.SendKeepsInv | packages/noise/lib/noise-state.ts:388-407 | sending keeps the invariant of keys, nonces, rotations and packets under way |
| NoiseRuns.ReceiveKeepsInv | packages/noise/lib/noise-state.ts:413-431 | receiving in the same order of rotations succeeds and keeps it |
| NoiseRuns.ReceiveIffSameOrder | packages/noise/lib/noise-state.ts:413-480 | the next packet decrypts if and only if the receiver has rotated in the sender's order |
| NoiseRuns.SameOrderRun | packages/noise/lib/noise-state.ts:388-480 | in every run in which both ends rotate in the same order no packet fails to decrypt and each end has received a prefix of what the other sent |
| NoiseOrder.RunOkIff | packages/noise/lib/noise-state.ts:388-480 | a run succeeds if and only if every packet in it is read by an end that has rotated in the sender's order up to it; each end has then received a prefix of what the other sent |
| NoiseRuns.OneWayRun | packages/noise/lib/noise-state.ts:388-480 | every run with one sender: each message is decrypted exactly as sent, and once all are, both ends have made the same rotations |
| NoiseRuns.CrossedRotationsFail | packages/noise/lib/noise-state.ts:466-480 | a concrete two-way run in which both ends rotate before they have heard of the other's rotation, and whose next message cannot be decrypted |
| NoiseSocket.NoiseSocket.DoPacketLength | packages/noise/lib/noise-socket.ts:289-313 | reads and decrypts 18 bytes when they are there and moves on to the body |
| NoiseSocket.NoiseSocket.DoPacketBody | packages/noise/lib/noise-socket.ts:315-348 | reads the body when it is there, pushes the message and blocks when the consumer is full |
| NoiseSocket.NoiseSocket.DoInitiateHandshake | packages/noise/lib/noise-socket.ts:210-219 | writes act 1 and waits for the reply |
| NoiseSocket.NoiseSocket.DoProcessInitiator | packages/noise/lib/noise-socket.ts:221-240 | reads act 1 when it is there and writes act 2, or destroys the socket |
| NoiseSocket.NoiseSocket.DoProcessInitiatorReply | packages/noise/lib/noise-socket.ts:242-262 | reads act 3 when it is there and is ready with the remote key, or destroys the socket |
| NoiseSocket.NoiseSocket.DoProcessResponderReply | packages/noise/lib/noise-socket.ts:264-287 | reads act 2 when it is there, writes act 3 and is ready, or destroys the socket |
| NoiseSocket.NoiseSocket.DoWrite | packages/noise/lib/noise-socket.ts:369-376 | writes the encrypted message, or nothing when encryption throws |
| NoiseSocket.NoiseSocket.DoOnData | packages/noise/lib/noise-socket.ts:158-208 | the do-while loop over all handshake and read states computes the specified processing of what has arrived; a failure destroys the socket |
| NoiseSocket.NoiseSocket.DoRead | packages/noise/lib/noise-socket.ts:351-366 | a ready socket unblocks and schedules one reading callback; before that nothing happens |
| NoiseSocket.OnDataFramed | packages/noise/lib/noise-socket.ts:158-208 | one `_onData` pushes some further messages in order and stops only when blocked or short of bytes |
| NoiseSocket.StepKeepsInv | packages/noise/lib/noise-socket.ts:158-376 | arrivals, callbacks, reads and writes that do not use up the sending key keep the state in step with the stream of packets |
| NoiseSocket.RunKeepsInv | packages/noise/lib/noise-socket.ts:158-366 | so does every run |
| NoiseSocket.SocketDelivers | packages/noise/lib/noise-socket.ts:158-376 | for every fragmentation of the stream and every interleaving of arrivals, blocked pushes, reads and writes that do not use up the sending key: no failure, the messages pushed are a prefix of those sent, and all of them once everything has arrived and reading is not blocked |
| NoiseConnect.HandshakeCompletes | packages/noise/lib/noise-socket.ts:142-287 | two sockets over two byte streams, however the acts are cut into fragments and whenever callbacks fire: none is destroyed, and when all is quiet after connecting both are ready with the states of the handshake and each reads where the other writes |
| NoiseStreams.OnlyGenuine | packages/noise/lib/noise-socket.ts:158-348 | for every stream of bytes, its fragmentation, callbacks, reads and writes that do not use up the sending key: a socket is ready only behind genuine acts, for a responder those of the owner of the key it has for its peer; it has pushed exactly what is sealed in order behind them; and it is destroyed only in front of a forged act or packet |
| NoiseStreams.GenuineOrDestroyed | packages/noise/lib/noise-socket.ts:158-348 | once all has arrived and been looked at: ready if and only if the stream begins with genuine acts, destroyed before that if and only if it begins with others, and when not blocked destroyed after it if and only if a forged packet follows what was pushed |
| NoiseBackpressure.OnDataStopsInTime | packages/noise/lib/noise-socket.ts:158-348 | one `_onData` pushes until the consumer wants no more: all pushes but the last were wanted, and the socket is blocked if and only if the last was not |
| NoiseBackpressure.BlockedPushesNothing | packages/noise/lib/noise-socket.ts:315-348 | in every run without a read of the consumer a blocked socket stays blocked, pushes nothing and drops no byte |
| NoiseBackpressure.ReadResumes | packages/noise/lib/noise-socket.ts:351-366 | a read unblocks a ready socket and schedules a callback, and does nothing before |
| Crc32c.TableEntry | packages/checksum/lib/crc32c.ts:47-62 | the inner loop shifts a byte eight times through the reflected generator |
| Crc32c.GenerateReversedTable | packages/checksum/lib/crc32c.ts:47-62 | the table holds that value for every byte |
| Crc32c.Crc32c | packages/checksum/lib/crc32c.ts:20-29 | the loop computes the table-driven checksum |
| Crc32c.UpdateIsSerial | packages/checksum/lib/crc32c.ts:20-29 | one table step equals eight bit steps |
| Crc32c.RegisterIsSerial | packages/checksum/lib/crc32c.ts:20-62 | for every buffer the table-driven register equals the bit-at-a-time one |
| Crc32cTheory.BurstDetected | packages/checksum/lib/crc32c.ts:20-62 | messages that differ within 32 consecutive bits have different registers |
| Crc32cTheory.FourByteErrorsDetected | packages/checksum/lib/crc32c.ts:20-62 | equal-length buffers that differ only within four consecutive bytes always have different checksums |
| Crc32cTheory.DivideIsRemainder | packages/checksum/lib/crc32c.ts:47-62 | the bit-at-a-time division leaves the remainder: the dividend is a multiple of the generator plus it |
| Crc32cTheory.GeneratorIs | packages/checksum/lib/crc32c.ts:47-62 | the reflected constant of the table stands for the generator of section 12.1 of RFC 3720, given by its 18 exponents |
| Crc32cTheory.RemainderUnique | packages/checksum/lib/crc32c.ts:20-62 | division by the generator leaves one remainder |
| Crc32cTheory.CrcIsStandard | packages/checksum/lib/crc32c.ts:20-62 | for every buffer and 32 coefficients: they are the complement of the checksum if and only if they are the remainder, by the generator, of the message with 32 zeros appended and its first 32 bits complemented |
| BlockDiffer.BlockDiffer.Diff | packages/chainmon/lib/BlockDiffer.ts:36-73 | over every block tree: succeeds if and only if the new tip is not lower than the old one and both have one root; the ancestor is the lowest common one, the disconnects are the old path downwards and the connects the new path upwards from it |
| BlockDiffer.ForkIsLowest | packages/chainmon/lib/BlockDiffer.ts:44-72 | where two paths fork is their lowest common ancestor |
| BlockDiffer.WalkEnds | packages/chainmon/lib/BlockDiffer.ts:44-72 | the walk ends at that ancestor |
| TxFinalizer.FundingFeePerContract | packages/core/lib/dlc/TxFinalizer.ts:73-114 | the funding fee covers at least 21 satoshi a contract unless it is zero |
| CoinSelect.DualFundingCoinSelect | packages/core/lib/dlc/CoinSelect.ts:27-162 | the greedy loop over the sorted copy returns the specified selection and its fee, with script types stated or found from script and address |
| CoinSelect.SelectFunds | packages/core/lib/dlc/CoinSelect.ts:112-162 | a non-empty selection is drawn from the given outputs and covers collaterals, dust threshold and its own fee, for any mixture of script types |
| CoinSelect.SelectExact | packages/core/lib/dlc/CoinSelect.ts:112-162 | the selection is the shortest beginning of the outputs, ranked by value less own fee, that pays and has no output costing more than it brings; it is empty if and only if there is none |
| CoinSelect.TypeOfScript | packages/core/lib/dlc/CoinSelect.ts:32-46 | a 34-byte script of version 1 is taproot, one of version 0 a witness script hash |
| CoinSelect.TypeOfAddress | packages/core/lib/dlc/CoinSelect.ts:49-51 | without a script, addresses of the three networks with version 1 are taproot, in either case; those of version 0 are not |
| CoinSelect.TopWeighsMost | packages/core/lib/dlc/CoinSelect.ts:112-162 | of all selections of one size, the first of the sorted candidates weigh most |
| CoinSelect.SelectSmallest | packages/core/lib/dlc/CoinSelect.ts:112-162 | if every input has a 108-byte witness, no non-empty choice that covers the same has fewer inputs, and an empty selection means there is none |
| CoinSelectTypes.MixedTypesNotSmallest | packages/core/lib/dlc/CoinSelect.ts:61-63 | two outputs, one of them taproot, for which the selection is not the single output that would do, among any outputs of value 0 |
| CoinSelectTypes.TaprootNotSmallest | packages/core/lib/dlc/CoinSelect.ts:61-63 | two taproot outputs that pay together and for which nothing is selected, among any outputs of value 0 |
| CoinSelectTypes.SmallestIff | packages/core/lib/dlc/CoinSelect.ts:112-162 | for every list of script types: the selection is a smallest one for all values, collaterals and fee rates if and only if no output is taproot or there are fewer than two outputs |
| TxBuilder.BatchDlcTxBuilder.EnsureSameFundingInputs | packages/core/lib/dlc/TxBuilder.ts:278-316 | tells whether all offers, and all accepts, list the same funding inputs |
| TxBuilder.BatchDlcTxBuilder.BuildFundingTransaction | packages/core/lib/dlc/TxBuilder.ts:105-276 | the method returns the specified transaction or the specified error, unreadable change scripts included |
| TxBuilderOutputs.BuiltOutputs | packages/core/lib/dlc/TxBuilder.ts:105-276 | every built transaction has one output for each contract, for both keys of its offer and its accept with the smaller one first, holding its two collaterals and an equal share of the closing fees; one change output to each side's own script from 1000 satoshi on; and no other; inputs and outputs ascend in serial id |
| TxBuilderOutputs.LockedToKeys | packages/core/lib/dlc/TxBuilder.ts:119-133 | as many outputs are locked to two keys as there are contracts between them, whichever side has which |
| TxBuilderOutputs.KeysExchanged | packages/core/lib/dlc/TxBuilder.ts:119-133 | exchanging the sides' keys gives the same transaction |
| TxBuilderOutputs.BeforeIff | packages/core/lib/dlc/TxBuilder.ts:119-128 | one key is before another if and only if it is smaller in the first byte that differs or ends there |
| TxBuilderOutputs.BuildsIff | packages/core/lib/dlc/TxBuilder.ts:110-229 | a transaction is built if and only if none of the stated reasons holds; otherwise the first of them is the error |
| TxBuilderOutputs.TermsWrittenOut | packages/core/lib/dlc/TxBuilder.ts:134-207 | what each side owes for closing and funding and gets back, as formulas over its script lengths, inputs, fee rate and number of contracts |
| TxBuilderOutputs.OneInputOwes | packages/core/lib/dlc/TxFinalizer.ts:73-114 | the fees of one input at 450 satoshi a virtual byte, as numbers |
| TxBuilder.FundingOutputsSum | packages/core/lib/dlc/TxBuilder.ts:153-276 | the funding outputs hold both collaterals and the closing fees, rounded up for each contract |
| TxBuilder.FeeIsTwoSides | packages/core/lib/dlc/TxBuilder.ts:153-276 | conservation: inputs minus outputs is the sum of what the two sides pay |
| TxBuilder.SideBounds | packages/core/lib/dlc/TxBuilder.ts:153-276 | a side with non-negative change pays its funding fee, short of at most a satoshi for each further contract and over by less than the dust limit |
| TxBuilder.FundingFeeBounds | packages/core/lib/dlc/TxBuilder.ts:153-276 | for every built transaction of a solvent accepter the fee is non-negative and lies between the two funding fees minus 2(n-1) and plus 2(DUST_LIMIT-1) |
| TxBuilder.AcceptPaysIff | packages/core/lib/dlc/TxBuilder.ts:153-276 | the accepter pays a non-negative share if and only if its inputs have value or it owes nothing |
| TxBuilder.FeeNonNegativeIff | packages/core/lib/dlc/TxBuilder.ts:153-276 | the fee of the transaction is non-negative if and only if the accepter is solvent or what the offerer leaves to the fee covers the accepter's collateral and closing fees |
| TxBuilder.SpendsOnceIff | packages/core/lib/dlc/TxBuilder.ts:153-276 | the transaction spends no output twice if and only if neither side lists one twice and the sides have none in common |
| TxBuilder.SharedOutpointBuilds | packages/core/lib/dlc/TxBuilder.ts:153-276 | two sides that list the same outpoint are not refused |
| TxBuilder.CollateralFromNowhere | packages/core/lib/dlc/TxBuilder.ts:153-276 | a concrete accepter without inputs whose collateral is paid out by nobody |
| TxBuilder.OutputKinds | packages/core/lib/dlc/TxBuilder.ts:153-276 | every change output is at least DUST_LIMIT; all others are the funding outputs |
| TxBuilder.MaxCollateralIsExact | packages/core/lib/dlc/TxBuilder.ts:66-103 | an offer of the maximal collateral is built without change |
| GossipRelay.GossipRelay.Start | packages/wire/lib/gossip/GossipRelay.ts:107-113 | activates the relay |
| GossipRelay.GossipRelay.Stop | packages/wire/lib/gossip/GossipRelay.ts:118-123 | deactivates the relay |
| GossipRelay.GossipRelay.Add | packages/wire/lib/gossip/GossipRelay.ts:129-131 | puts a new peer at the end of the queue |
| GossipRelay.GossipRelay.Remove | packages/wire/lib/gossip/GossipRelay.ts:137-139 | forgets the peer |
| GossipRelay.GossipRelay.FindSubject | packages/wire/lib/gossip/GossipRelay.ts:233-270 | finds the queued message on the same channel, channel direction or node |
| GossipRelay.GossipRelay.EnqueueMessage | packages/wire/lib/gossip/GossipRelay.ts:145-227 | appends a message on a new subject, replaces an older one at the back, ignores the rest |
| GossipRelay.GossipRelay.FlushToPeer | packages/wire/lib/gossip/GossipRelay.ts:290-296 | sends the peer the queue from its position on, in order, and moves it to the end |
| GossipRelay.GossipRelay.OnTimer | packages/wire/lib/gossip/GossipRelay.ts:276-283 | flushes every peer, in any order, and prunes |
| GossipRelay.GossipRelay.PruneQueue | packages/wire/lib/gossip/GossipRelay.ts:301-319 | drops the oldest messages beyond the limit and moves every position by as many |
| GossipRelay.FindFinds | packages/wire/lib/gossip/GossipRelay.ts:233-270 | the search returns the first message on the subject, or there is none |
| GossipRelay.EnqueueByTopic | packages/wire/lib/gossip/GossipRelay.ts:145-227 | on the messages' own fields: a message of a new channel, direction or node is queued at the end; an update displaces only an older one of the same channel and direction, a node announcement only an older one of the node; otherwise nothing changes |
| GossipRelay.EnqueueIgnores | packages/wire/lib/gossip/GossipRelay.ts:145-146 | an inactive relay and messages of other kinds change nothing |
| GossipRelay.EnqueueKeepsInv | packages/wire/lib/gossip/GossipRelay.ts:145-227 | keeps: positions within the queue, one message a subject, and what was sent followed by what is pending rising in order of enqueueing, for every peer |
| GossipRelay.AddPeerKeepsInv | packages/wire/lib/gossip/GossipRelay.ts:129-131 | keeps the same |
| GossipRelay.RemovePeerKeepsInv | packages/wire/lib/gossip/GossipRelay.ts:137-139 | keeps the same |
| GossipRelay.FlushKeepsInv | packages/wire/lib/gossip/GossipRelay.ts:290-296 | keeps the same, whichever peers are flushed |
| GossipRelay.PruneKeepsInv | packages/wire/lib/gossip/GossipRelay.ts:301-319 | keeps the same |
| GossipRelay.Run | packages/wire/lib/gossip/GossipRelay.ts:107-319 | the invariant holds after every run of starts, stops, joins, leaves, messages and ticks |
| GossipRelay.TickFlushes | packages/wire/lib/gossip/GossipRelay.ts:276-319 | a tick sends every peer exactly what was pending for it, leaves all positions at the end of the queue and drops the oldest messages beyond the limit and no others |
| GossipRelay.SentOnce | packages/wire/lib/gossip/GossipRelay.ts:145-296 | in every run no peer is sent an enqueued message twice, and messages come in the order of enqueueing |
| GossipRelay.DeliveryIff | packages/wire/lib/gossip/GossipRelay.ts:185-195 | after a message is accepted a peer will be sent what it should if and only if nothing in front of its position was replaced |
| GossipRelay.UpdateNeverSent | packages/wire/lib/gossip/GossipRelay.ts:185-195 | a peer that has been sent the whole queue never gets an update that replaces a queued message |
| GossipRelay.EnqueueKeepsNewest | packages/wire/lib/gossip/GossipRelay.ts:145-227 | afterwards the queue holds the new message or the old one on its subject, whichever is newer |
| GossipMemoryStore.ScidRoundTrip | packages/common/lib/ShortChannelIdUtils.ts:55-60 | the numeric channel key can be turned back into the short channel id |
| GossipMemoryStore.ScidOrder | packages/common/lib/ShortChannelIdUtils.ts:5-22 | numeric keys are ordered by block, transaction and output |
| GossipMemoryStore.FindsSaved | packages/wire/lib/gossip/GossipMemoryStore.ts:33-75 | after each kind of saving the lookup finds what was saved, and otherwise what it found before |
| GossipMemoryStore.FindsDeleted | packages/wire/lib/gossip/GossipMemoryStore.ts:129-139 | after a deletion the lookup finds nothing, and otherwise what it found before |
| GossipMemoryStore.UpdKeysDiffer | packages/wire/lib/gossip/GossipMemoryStore.ts:155-161 | two updates share a numeric key only for the same direction of the same channel |
| GossipMemoryStore.GossipMemoryStore.SaveChannelAnnouncement | packages/wire/lib/gossip/GossipMemoryStore.ts:33-46 | stores the announcement, its outpoint if extended, and its link from both nodes |
| GossipMemoryStore.GossipMemoryStore.SaveChannelUpdate | packages/wire/lib/gossip/GossipMemoryStore.ts:48-53 | stores the update under its channel and direction |
| GossipMemoryStore.GossipMemoryStore.SaveNodeAnnouncement | packages/wire/lib/gossip/GossipMemoryStore.ts:55-59 | stores the announcement under its node |
| GossipMemoryStore.GossipMemoryStore.FindChannelsForNode | packages/wire/lib/gossip/GossipMemoryStore.ts:61-69 | returns exactly the channels linked from the node, each once, in the order of its index |
| GossipMemoryStore.GossipMemoryStore.FindNodeAnnouncement | packages/wire/lib/gossip/GossipMemoryStore.ts:71-75 | finds what is stored for the node |
| GossipMemoryStore.GossipMemoryStore.FindChannelAnnouncement | packages/wire/lib/gossip/GossipMemoryStore.ts:87-91 | finds what is stored for the channel |
| GossipMemoryStore.GossipMemoryStore.FindChannelAnnouncementByOutpoint | packages/wire/lib/gossip/GossipMemoryStore.ts:93-98 | finds the announcement of the channel that the outpoint leads to |
| GossipMemoryStore.GossipMemoryStore.FindChannelUpdate | packages/wire/lib/gossip/GossipMemoryStore.ts:100-105 | finds what is stored for the channel and direction |
| GossipMemoryStore.GossipMemoryStore.DeleteChannelUpdate | packages/wire/lib/gossip/GossipMemoryStore.ts:129-134 | removes that update and nothing else |
| GossipMemoryStore.GossipMemoryStore.DeleteNodeAnnouncement | packages/wire/lib/gossip/GossipMemoryStore.ts:136-139 | removes that node announcement and nothing else |
| GossipMemoryStore.GossipMemoryStore.DeleteChannelAnnouncement | packages/wire/lib/gossip/GossipMemoryStore.ts:107-127 | removes the announcement, its outpoint, its links and one of the two updates |
| GossipRemovals.RemovedIff | packages/wire/lib/gossip/GossipMemoryStore.ts:107-127 | removing a stored channel leaves nothing about it if and only if there is no update of its second direction, which stays; everything else is kept if and only if no other channel has taken over its outpoint |
| GossipRemovals.RunRemovedIff | packages/wire/lib/gossip/GossipMemoryStore.ts:107-127 | so it is after every run of validations |
| GossipFilter.GossipFilter.ValidateMessage | packages/wire/lib/gossip/GossipFilter.ts:60-74 | dispatches on the kind of message |
| GossipFilter.GossipFilter.ValidateNodeAnnouncement | packages/wire/lib/gossip/GossipFilter.ts:81-108 | the two stores and the result are the specified ones |
| GossipFilter.GossipFilter.ValidateChannelUpdate | packages/wire/lib/gossip/GossipFilter.ts:251-292 | the two stores and the result are the specified ones |
| GossipFilter.GossipFilter.ValidateChannelAnnouncement | packages/wire/lib/gossip/GossipFilter.ts:114-243 | the two stores and the result are the specified ones, on-chain checks and waiting messages included |
| GossipFilter.GossipFilter.ReleaseWaitingUpdates | packages/wire/lib/gossip/GossipFilter.ts:211-226 | the loop over the two waiting updates; an error ends it |
| GossipFilter.GossipFilter.ReleaseWaitingNodes | packages/wire/lib/gossip/GossipFilter.ts:228-240 | the loop over the two waiting node announcements; an error ends it |
| GossipProgress.UpdateIff | packages/wire/lib/gossip/GossipFilter.ts:251-292 | an update becomes the stored one and is returned if and only if its channel is announced, none at least as new is stored and the node of its direction has signed it |
| GossipProgress.UpdateElse | packages/wire/lib/gossip/GossipFilter.ts:251-280 | otherwise it waits, is ignored or is an error, with the exact stores |
| GossipProgress.NodeIff | packages/wire/lib/gossip/GossipFilter.ts:81-108 | a node announcement becomes the stored one and is returned if and only if the node has a channel, none at least as new is stored and it is well signed |
| GossipProgress.NodeElse | packages/wire/lib/gossip/GossipFilter.ts:81-101 | otherwise it waits, is ignored or is an error, with the exact stores |
| GossipProgress.AnnouncementElse | packages/wire/lib/gossip/GossipFilter.ts:114-206 | an announcement of a known channel is ignored, a badly signed one or one whose output is not on the chain refused with its reason, and nothing changes; any other is valid |
| GossipProgress.AcceptExact | packages/wire/lib/gossip/GossipFilter.ts:205-240 | what is stored and what waits after a valid announcement, for every channel, direction and node |
| GossipProgress.AcceptReleases | packages/wire/lib/gossip/GossipFilter.ts:205-243 | if no badly signed message waits for it, the announcement and every message that waits are stored and returned, unless a newer node announcement is stored |
| GossipDelivery.ChannelStoredIff | packages/wire/lib/gossip/GossipFilter.ts:114-206 | after every run a channel is announced if and only if some call announced it validly |
| GossipDelivery.UpdateStoredIff | packages/wire/lib/gossip/GossipFilter.ts:205-292 | after every run an update of at least a given timestamp is stored if and only if one was received that is well signed by its channel's node and was looked at: its channel was announced before, or its announcement came with no other update of the direction in between and no badly signed one in front |
| GossipDelivery.NodeStoredIff | packages/wire/lib/gossip/GossipFilter.ts:81-243 | the same for node announcements |
| GossipDelivery.WaitingIsDisplaced | packages/wire/lib/gossip/GossipFilter.ts:264-267 | a concrete run in which an older update takes the place of a newer one that waits |
| GossipFilterRuns.AcceptIsNew | packages/wire/lib/gossip/GossipFilter.ts:117-206 | an announcement that is saved was verified, is new, and is extended if there is a chain client: a stored announcement is never replaced |
| GossipFilterRuns.AcceptIff | packages/wire/lib/gossip/GossipFilter.ts:117-206 | an announcement is saved if and only if its channel is new, its signatures are valid and, with a chain client, the output its id names is unspent and locked to both keys |
| GossipFilterRuns.SaveAnnInv | packages/wire/lib/gossip/GossipFilter.ts:205-206 | saving it keeps the invariant of the shared store |
| GossipFilterRuns.SaveUpdInv | packages/wire/lib/gossip/GossipFilter.ts:251-292 | saving a checked update keeps it |
| GossipFilterRuns.SaveNodeInv | packages/wire/lib/gossip/GossipFilter.ts:81-108 | saving a checked node announcement keeps it |
| GossipFilterRuns.ValidateKeeps | packages/wire/lib/gossip/GossipFilter.ts:60-292 | every call keeps the invariant, announcements stay, timestamps only increase, and a call that succeeds broadcasts exactly what it has stored; `GossipBroadcasts.SilentIff` is about those that fail |
| GossipBroadcasts.SilentIff | packages/wire/lib/gossip/GossipFilter.ts:205-243 | a call stores a message without broadcasting it if and only if it accepts an announcement for which a badly signed message waits; the announcement is one |
| GossipBroadcasts.SilencedForGood | packages/wire/lib/gossip/GossipFilter.ts:114-243 | an announcement stored so is broadcast by no call of the run, before or after |
| GossipBroadcasts.AllBroadcastIff | packages/wire/lib/gossip/GossipFilter.ts:60-292 | after a run everything stored has been broadcast if and only if no call did that |
| GossipFilterRuns.RunKeepsInv | packages/wire/lib/gossip/GossipFilter.ts:81-292 | after every run from empty stores each stored update has its announcement and a signature of the right node, each node announcement a channel and a valid signature, and the node index is exactly the set of announcements naming the node |
| GossipFilterRuns.RunGrows | packages/wire/lib/gossip/GossipFilter.ts:81-292 | over every run announcements never change and stored timestamps for a key only increase |
| GossipFilterRuns.BroadcastOnce | packages/wire/lib/gossip/GossipFilter.ts:81-292 | no message is broadcast by two calls of a run |
| GossipFilterRuns.FoundByOutPoint | packages/wire/lib/gossip/GossipMemoryStore.ts:93-98 | after every run an outpoint finds an announcement extended with it, if there is any |
| GossipFilterRuns.AwaitingIff | packages/wire/lib/gossip/GossipFilter.ts:205-240 | a call leaves messages waiting for a channel that is there if and only if it accepts an announcement for which a badly signed message waits in front of another |
| GossipFilterRuns.RunAwaits | packages/wire/lib/gossip/GossipFilter.ts:205-240 | over every run: nothing ever waits for a channel that is there if and only if no call does that |
| GossipFilterRuns.ForgedUpdateStrands | packages/wire/lib/gossip/GossipFilter.ts:211-226 | a concrete run in which a forged waiting update strands the genuine one of the other direction |
| Bufio.StreamReader.ReadBytes | packages/bufio/lib/StreamReader.ts:85-91 | takes the bytes off the stream or throws |
| Bufio.StreamReader.ReadUInt | packages/bufio/lib/StreamReader.ts:116-159 | reads a little-endian integer of the width |
| Bufio.StreamReader.ReadVarInt | packages/bufio/lib/StreamReader.ts:38-44 | reads a variable-length integer |
| Bufio.BufferWriter.WriteVarInt | packages/bufio/lib/BufferWriter.ts:151-165 | appends a variable-length integer |
| Bufio.UIntReadBack | packages/bufio/lib/StreamReader.ts:116-159 | an integer that fits its width is read back |
| Bufio.VarIntReadBack | packages/bufio/lib/encodeVarInt.ts:11-41 | every 64-bit integer is read back, and its encoding has the length `varIntBytes` gives |
| TxBytes.CompactSizeIs | packages/bufio/lib/encodeVarInt.ts:11-41 | the bytes of each of the four forms |
| TxBytes.ReadsCompactSize | packages/bufio/lib/StreamReader.ts:38-44 | each form is read, also where a shorter one would do |
| Script.SerializeCmds | packages/bitcoin/lib/Script.ts:456-504 | fails if and only if some push is empty or longer than 520 bytes, and otherwise writes the specified bytes |
| Script.ParseCommands | packages/bitcoin/lib/Script.ts:333-375 | the loop reads the specified commands or fails |
| Script.Parse | packages/bitcoin/lib/Script.ts:304-315 | reads a length and the commands in so many bytes |
| Script.ParseRaw | packages/bitcoin/lib/Script.ts:320-326 | reads the commands in the whole buffer, which must not be empty |
| Script.ScriptRoundTripIff | packages/bitcoin/lib/Script.ts:333-504 | a serializable script is read back if and only if none of its opcodes is in 0x01..0x4d |
| Script.ScriptReadBack | packages/bitcoin/lib/Script.ts:304-315 | whatever its commands are read as, a script leaves the reader at its end |
| TxBytes.WritableIff | packages/bitcoin/lib/Script.ts:456-504 | commands can be written if and only if each push is of 1 to 520 bytes |
| TxBytes.CommandIs | packages/bitcoin/lib/Script.ts:456-504 | an opcode is its byte, a push is written in its shortest form |
| TxBytes.ReadsCommand | packages/bitcoin/lib/Script.ts:333-375 | each form of push is read at any length, by position; any other byte is an opcode |
| TxCodec.SerializeInput | packages/bitcoin/lib/TxIn.ts:96-102 | writes outpoint, script and sequence, or fails on the script |
| TxCodec.SerializeOutput | packages/bitcoin/lib/TxOut.ts:74-79 | writes value and script, or fails on the script |
| TxCodec.SerializeLegacy | packages/bitcoin/lib/Tx.ts:301-323 | writes the form without witnesses, or fails if and only if a script cannot be written |
| TxCodec.SerializeSegWit | packages/bitcoin/lib/Tx.ts:325-360 | writes the form of BIP 144 whether or not an input has a witness, or fails likewise |
| TxCodec.SerializeTx | packages/bitcoin/lib/Tx.ts:245-248 | writes the segwit form if and only if some input has a witness |
| TxCodec.ParseInputs | packages/bitcoin/lib/Tx.ts:96-109 | reads the counted inputs or throws |
| TxCodec.ParseOutputs | packages/bitcoin/lib/Tx.ts:116-126 | reads the counted outputs or throws |
| TxCodec.ReadWitness | packages/bitcoin/lib/Tx.ts:76-83 | appends to every input the items read for it |
| TxCodec.ParseTransaction | packages/bitcoin/lib/Tx.ts:47-89 | reads a transaction of either form or throws |
| TxCodec.DecodeTx | packages/bitcoin/lib/Tx.ts:30-37 | tries the segwit form first and the legacy form next |
| TxCodec.CalcSize | packages/bitcoin/lib/Tx.ts:394-472 | size is the length of the serialization, weight three times the legacy length plus the total length, vsize a quarter of it rounded up; fails if and only if a script cannot be written |
| TxRoundTrip.ManyReadBack | packages/bitcoin/lib/Tx.ts:96-126 | a list whose elements read back one by one reads back as a whole |
| TxBytes.LegacyBytes | packages/bitcoin/lib/Tx.ts:301-323 | the bytes of a transaction of two inputs and two outputs, in order |
| TxBytes.SegWitBytes | packages/bitcoin/lib/Tx.ts:325-360 | likewise with marker, flag and witnesses |
| TxRoundTrip.LegacyReadBack | packages/bitcoin/lib/Tx.ts:47-89 | the legacy form is read as the transaction with its scripts as parsed, with or without witnesses allowed |
| TxRoundTrip.SegWitReadBack | packages/bitcoin/lib/Tx.ts:47-89 | so is the segwit form when witnesses are allowed |
| TxRoundTrip.FlagReadBack | packages/bitcoin/lib/Tx.ts:47-89 | behind the marker every flag but 0 is read, and witnesses follow if and only if it is odd |
| TxRoundTrip.SegWitAsLegacy | packages/bitcoin/lib/Tx.ts:47-89 | read without witnesses the segwit form is never a transaction with inputs |
| TxRoundTrip.RoundTripIff | packages/bitcoin/lib/Tx.ts:30-360 | for every transaction with at least one input and writable scripts, `decode(serialize(tx))` gives it back if and only if no script has an opcode in 0x01..0x4d |
| Base32.Encode | packages/common/lib/Base32.ts:9-114 | the accumulator loop computes the digits of the padded number in base 32 |
| Base32.PrependChars | packages/common/lib/Base32.ts:97-110 | the inner loop gives out five bits at a time; the accumulator never has more than 12 |
| Base32.Decode | packages/common/lib/Base32.ts:120-221 | for every input computes the bytes of the number its characters spell, without the padding bits; a character outside the alphabet and all in front of it count as 31 |
| Base32.UnshiftWords | packages/common/lib/Base32.ts:204-216 | the inner loop gives out eight bits at a time; the accumulator never has more than 12 |
| Base32.TakeIn | packages/common/lib/Base32.ts:81-93 | or-ing in a shifted word adds it above what the accumulator holds |
| Base32.GiveOut | packages/common/lib/Base32.ts:97-110 | masking and shifting gives out the lowest word and loses nothing |
| Base32.RoundTrip | packages/common/lib/Base32.ts:9-221 | `decode(encode(b))` equals `b` for every buffer |
| Base32.EncodedLength | packages/common/lib/Base32.ts:24-67 | the encoding has eight characters for every five bytes begun |
| Base32.EncodesByGroups | packages/common/lib/Base32.ts:9-114 | groups of five bytes are encoded each on its own, as section 6 of RFC 4648 has it |
| Base32Groups.AlphabetIs | packages/common/lib/Base32.ts:2-3 | the character of each 5-bit value, as table 3 of RFC 4648 lists them |
| Base32Groups.FiveBytes | packages/common/lib/Base32.ts:9-114 | five bytes are encoded as the eight characters of their bits, written out |
| Base32Groups.ShortGroup | packages/common/lib/Base32.ts:9-114 | one to four bytes are encoded as with zero bytes behind them, with only the characters that hold their bits, and padding |
| LinkedList.LinkedList.Add | packages/core/lib/LinkedList.ts:17-34 | appends the value, with all links, head and tail right |
| LinkedList.LinkedList.NodeAt | packages/core/lib/LinkedList.ts:47-62 | finds the node, throws outside 0..length, and has none at the length |
| LinkedList.LinkedList.ValueAt | packages/core/lib/LinkedList.ts:39-42 | the value at the position |
| LinkedList.LinkedList.Remove | packages/core/lib/LinkedList.ts:69-110 | takes the value at the position out of the sequence; throws a range error outside 0..length and a type error at the length, with the list unchanged |
| LinkedList.SpliceLinks | packages/core/lib/LinkedList.ts:104-107 | linking the neighbours keeps every other link right |
| Queue.Queue.Peek | packages/core/lib/Queue.ts:12-14 | the oldest value, if there is one |
| Queue.Queue.Enqueue | packages/core/lib/Queue.ts:26-28 | appends |
| Queue.Queue.Dequeue | packages/core/lib/Queue.ts:33-35 | takes the oldest value; on an empty queue throws and changes nothing |
| AsyncProcessingQueue.AsyncProcessingQueue.EnqueueItem | packages/core/lib/AsyncProcessingQueue.ts:26-32 | enqueues and schedules a flush unless the handle is set |
| AsyncProcessingQueue.AsyncProcessingQueue.OnImmediate | packages/core/lib/AsyncProcessingQueue.ts:42-50 | the flush up to its first handler |
| AsyncProcessingQueue.AsyncProcessingQueue.OnSettled | packages/core/lib/AsyncProcessingQueue.ts:48-61 | the flush from the settling of a handler to the next one or its end |
| AsyncProcessingQueue.HandledInOrder | packages/core/lib/AsyncProcessingQueue.ts:26-62 | in every run each enqueued item is handed to the handler at most once, in first-in-first-out order, none is dropped, and at most one handler runs |
| AsyncProcessingQueue.StaysAwakeIff | packages/core/lib/AsyncProcessingQueue.ts:42-62 | a turn leaves a non-empty queue without a flush scheduled or running if and only if a listener of 'flushed' enqueues on an empty queue, an unheard error ends the flush with items left, or something is enqueued after one |
| AsyncProcessingQueue.AwakeIff | packages/core/lib/AsyncProcessingQueue.ts:26-62 | over every run: the queue is always awake if and only if no turn does that |
| AsyncProcessingQueue.TameStaysAwake | packages/core/lib/AsyncProcessingQueue.ts:26-62 | in particular if no listener of 'flushed' enqueues and every error is heard |
| AsyncProcessingQueue.Drains | packages/core/lib/AsyncProcessingQueue.ts:42-61 | from a scheduled or a running flush, while handlers settle in any mix of successes and heard errors and nothing is enqueued, every item gets its handler and the queue becomes idle |

## Left out

- SHA-256, HKDF, Diffie-Hellman, AEAD and signature checks are function parameters with the laws each theorem names; a law is only required of the keys that a run uses.
- CommitmentSecretStore.Store.InsertSecret: indices are natural numbers below 2^48 inserted from the top down in the theorems about runs; the object keeps secrets by value, so a caller that later changes a buffer it passed in is not modelled.
- CETCalculator: `splitIntoRanges`, `mergePayouts`, rounding and the payout curves, which rest on decimal and floating-point libraries that are not part of this model.
- Noise.NoiseState.DoInitiatorAct1: the temporary keys of the three acts are one field, and the nonces are counters of which the twelve bytes are a function.
- NoiseSocket.NoiseSocket.DoOnData: ended sockets and the events emitted; a destroyed stream gives no more bytes, as the comment at packages/noise/lib/noise-socket.ts:126-132 has it; every arrival of data schedules one 'readable' callback.
- NoiseSocket.SocketDelivers: writes that use up the socket's own sending key, after which the two ends may have rotated in different orders; `NoiseOrder.RunOkIff` says for whole messages when such runs succeed.
- Crc32c.Crc32c: the table is built anew and not shared between calls.
- CoinSelect.DualFundingCoinSelect: the spelling of a script in hexadecimal; values are whole numbers.
- TxBuilder.BatchDlcTxBuilder.BuildFundingTransaction: JavaScript numbers above 2^53; a funding script is the number of signatures and the keys it asks for, not its hash.
- GossipRelay.GossipRelay.OnTimer: the timer itself is a step; delivery by a peer's `sendMessage` is the append to its outbox.
- GossipMemoryStore.GossipMemoryStore.FindNodeAnnouncement: node ids stand for their hex form.
- GossipMemoryStore: the two methods that list all messages, and the counters.
- GossipFilter.GossipFilter.ValidateMessage: each call runs to its end before the next begins; interleavings at its awaits are not modelled. The answers of the chain client may differ from call to call.
- Bufio: the doubling buffer behind the writer, and big-endian formats.
- Script.SerializeCmds: `equals` and the script factories.
- TxCodec.SerializeTx: cached ids and sizes; transactions without inputs and bytes after the lock time, which the format leaves ambiguous; arrays of 2^32 elements or more and buffers of 2^53 bytes or more, which the platform does not have.
- AsyncProcessingQueue.AsyncProcessingQueue.OnSettled: listeners that throw.
- Sockets, RPC, ZeroMQ, LevelDB, logging, IRC, the command line, JSON conversion, the DLC and Lightning message classes, `BitField`, `Sequence`, `LockTime`, `Value`, Base58.
