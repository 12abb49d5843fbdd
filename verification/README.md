# A verified model of lnd's core protocols

This project models the parts of the Lightning Network daemon that carry the most state and
arithmetic, and proves what they are for. Each module stands for one component; crypto libraries,
sockets and the wallet backend appear as function-valued parameters, outcomes or explicit laws.

| files | component |
|---|---|
| `MerklePositions.dfy`, `MerkleBlock.dfy`, `MerkleProofs.dfy`, `MerkleSoundness.dfy`, `MerkleRows.dfy`, `MerkleClaims.dfy` | the BIP 37 merkle-block checker of `uspv/mblock.go`: a stack machine over bit-twiddled positions, the recursive traversal it refines, the construction it inverts, and what acceptance is worth on arbitrary messages and under an arbitrary claimed size |
| `Elkrem.dfy` | the reverse Merkle tree of `elkrem/elkrem.go`: sender, receiver and the logarithmic store |
| `Script.dfy`, `ScriptBytes.dfy`, `CommitScripts.dfy`, `CommitTx.dfy`, `CommitBytes.dfy` | a Bitcoin Script interpreter, scripts as bytes, the commitment output scripts of `lnwallet/script_utils.go`, the transactions of `lnwallet/channel.go` that carry them, and the scripts byte by byte |
| `PeerPipeline.dfy` | the two goroutines and three channels behind a peer's send queue in `peer.go` |
| `WireElements.dfy`, `WireMessages.dfy`, `WireFrames.dfy`, `WireBytes.dfy`, `WirePlaces.dfy`, `WireSizes.dfy` | the codec, messages and framing of `lnwire`, validation and field order as offsets into the payload, and which messages fit their caps |
| `HeaderFile.dfy` | the append, check and truncate log of block headers in `uspv/eight333.go` and `uspv/header.go` |
| `TxStore.dfy` | the unspent outputs of `uspv/txstore.go`, with the slice that is deleted from while it is ranged over |
| `Lndc.dfy` | the encrypted record stream of `lndc/conn.go` and `lndc/netio.go` |
| `Reservations.dfy` | the funding reservations of `lnwallet/wallet.go` |
| `Basics.dfy`, `Powers.dfy` | shared types and powers of two |

Conventions. A Go run-time panic is an outcome (`IndexPanic`, `SlicePanic`), not a precondition.
uint32 and uint64 wrap-around is written out, except where "Left out" names it. Hash functions are
arbitrary functions; where a property needs a law (collision-free, no txid is itself the hash of two
hashes, no left hash is a right hash, or "a record opens under its own nonce only") the law is a
precondition of that lemma. `TermsAreFree`, `BindingCanHold` and `LawCanHold` give instances of such
laws. Objects the source updates in place are classes whose methods are proved against functions of
the old state; the lemmas are about those functions.

Where code and comments disagree, the code is modelled. The comment in `addHTLC` calls the receiving
side the sender; the branches are followed. The comment on the incoming HTLC speaks of the HTLC
timeout, but the script checks that value with CHECKSEQUENCEVERIFY; `PayeeSideTimeoutIsRelative`
states what follows. The overview in `elkrem.go` has the sender start with leaf 0, but `Next` starts
at index 1; `NextStreamAccepted` states for which trees a receiver takes that stream. The same
overview gives a tree of height h 2^h - 1 nodes; the code's has 2^(h+1) - 1. The payload cap of a funding request counts 32 bytes for a public key that encodes to 33;
`LargestFundingRequestRefused` states which requests that hits. The caps of the two closing messages leave 72 bytes for a
signature of which the writer allows 73; `CloseSent` states so. `LNDConn.Write` returns a byte count
that includes the length prefix and the cipher's overhead, and the count returned by `ReadMessage`
leaves out skipped payloads; both are modelled so.

## Model

| member | source | states |
|---|---|---|
| MerklePositions.TreeDepth | uspv/mblock.go:42-46 | the counting loop ends on the least exponent whose power of two reaches n, for every n up to 2^31 |
| MerklePositions.InDeadZone | uspv/mblock.go:54-67 | the climbing loop answers true exactly for positions above the root or whose leftmost leaf is at or beyond the tree size |
| MerklePositions.LeftChildAt | uspv/mblock.go:142-144 | `(pos^msb)<<1` in uint32 is the left child in row and index coordinates, and both children are in their row |
| MerklePositions.ParentAt | uspv/mblock.go:137-138 | `pos>>1 \| msb` is the parent in row and index coordinates |
| MerklePositions.IndexBeyondLast | uspv/mblock.go:56-66 | in every row the last real node is the last leaf index shifted down by the row |
| MerkleBlock.Step | uspv/mblock.go:91-168 | every turn of the loop that goes on decreases twice the remaining flag bits plus the stack length |
| MerkleBlock.CloseSingle | uspv/mblock.go:103-109 | standing in the dead zone, the filled left child alone fills its parent and the walker moves on from it |
| MerkleBlock.CloseBoth | uspv/mblock.go:111-121 | two different filled children fill their parent and the walker is not in the dead zone |
| MerkleBlock.Simulate | uspv/mblock.go:91-168 | if the traversal of its subtree combines no equal siblings, opening any real node on a ready stack either fails exactly when its subtree's traversal runs short or ends with that node filled with the traversal's hash and its matches appended |
| MerkleBlock.MachineRefinesTraversal | uspv/mblock.go:74-170 | for 1 to 2^31 transactions and a traversal without equal siblings, the stack loop returns a list exactly when the recursive BIP 37 traversal yields the header's root, and it is that traversal's matches in order; on the way the stack stays within 2*depth+1, no index is out of range and a dead-zone step finds a filled left child |
| MerkleBlock.AcceptedIsValidIff | uspv/mblock.go:95-101 | for every message: if it is valid in the sense of BIP 37 it is accepted with its txids, and an accepted one is valid if and only if its traversal goes through, all hashes are used up and fewer than eight flag bits remain; the code looks at none of these three |
| MerkleBlock.LeftoversAccepted | uspv/mblock.go:95-101 | one transaction with one hash and one flag byte too many is accepted although it is not valid |
| MerkleBlock.CheckMBlock | uspv/mblock.go:74-170 | the loop over flag bytes and hashes rejects empty input and ends with the machine's outcome on any message; without equal siblings it accepts exactly if the traversal computes the root, and if nothing is left over exactly if the message is valid in the sense of BIP 37 |
| MerkleProofs.TraverseEncoded | uspv/mblock.go:74-170 | traversing an encoded partial tree recovers the true subtree hash and the selected txids and leaves what follows untouched |
| MerkleProofs.UnpackPacked | uspv/mblock.go:134-167 | flag bits packed into bytes and read lowest bit first come back unchanged, followed by fewer than eight padding bits |
| MerkleProofs.CheckBuiltBlock | uspv/mblock.go:74-170 | round trip: for any list of 1 to 2^31 txids without equal siblings in its tree, and any match vector, checking the block built per BIP 37 returns exactly the matched txids in order |
| MerkleProofs.BuiltBlockIsValid | uspv/mblock.go:74-170 | the block so built leaves nothing over, so it is valid in the sense of BIP 37 |
| MerkleProofs.AcceptedListIsFromBlock | uspv/mblock.go:74-170 | with a collision-free hash, for every message of the block's size whose traversal combines no equal siblings, a list accepted against a block's root is a selection of that block's txids in block order |
| MerkleProofs.EqualRootChildrenPanic | uspv/mblock.go:12-15 | when the root's two children come out equal, the nil parent makes the loop index its stack out of range instead of rejecting |
| MerkleSoundness.EightTransactions | uspv/mblock.go:12-15 | a counterexample to soundness: for a block of eight and any two different hashes e1, e2, a message of eleven flag bits and seven hashes is accepted with the list e1, e2 |
| MerkleSoundness.ForeignAccepted | uspv/mblock.go:103-121 | under every size from five up, against every root combined from freely chosen hashes and for any two different hashes, there are flag bytes and hashes that the loop accepts with just those two as txids although the traversal meets equal siblings |
| MerkleSoundness.ForeignTxidsAccepted | uspv/mblock.go:103-121 | for every block of five transactions and more and any two different hashes there are flag bytes and hashes accepted against the block's root with just those two as txids |
| MerkleSoundness.StuckIsNotMatched | uspv/mblock.go:91-168 | with three or four transactions, once a child of the root was left empty by equal leaves, no continuation of the message is accepted |
| MerkleSoundness.SoundIffSmall | uspv/mblock.go:74-170 | with a collision-free hash, txids that are not themselves hashes of two hashes, and no equal siblings in the block's tree: every message whose transaction count is the block's and that is accepted against the block's root yields a selection of its txids in block order, if and only if the block has at most four transactions |
| MerkleSoundness.AgreesIffSmall | uspv/mblock.go:74-170 | under the same premises and for messages whose transaction count is the block's, the loop accepts exactly as the recursive traversal does, equal siblings included, if and only if the block has at most four transactions |
| MerkleSoundness.TermsAreFree | uspv/mblock.go:25-32 | those premises on the hash can be met |
| MerkleRows.AcceptedUnderClaim | uspv/mblock.go:74-101 | the transaction count is the sender's claim: without equal siblings, a list accepted under any claimed size whose tree is no deeper than the block's is a selection, in order, of the row of the block's tree as deep below the root, which is the txids if the depths agree |
| MerkleRows.DeeperClaimIsEmpty | uspv/mblock.go:74-101 | a claimed tree deeper than the block's is accepted with an empty list only |
| MerkleRows.RowsAreAccepted | uspv/mblock.go:74-101 | every selection of every row of the block's tree without equal siblings is accepted, under the size of that row |
| MerkleClaims.SoundUnderAnyClaimIffOne | uspv/mblock.go:74-170 | over every claimed count from 1 to 2^31, all flag bytes and all hashes, what is accepted against a block's root is a selection of its txids if and only if the block has one transaction; the only premise is that no txid is the hash of two hashes |
| MerkleClaims.AgreesIffTwo | uspv/mblock.go:74-170 | a guard on the message alone: for all roots, flag bytes and hashes the loop accepts exactly what the recursive traversal accepts, with the same txids, if and only if the message claims at most two transactions; the only premise is that two different hashes exist |
| MerkleClaims.SmallForeign | uspv/mblock.go:103-121 | under a claim of three or four transactions any hash is accepted as the only txid, against every root of a given form |
| MerkleClaims.FourClaimed | uspv/mblock.go:103-121 | so under a claim of four any hash is accepted against the root of every block of five to eight transactions without equal siblings |
| Elkrem.Descend | elkrem/elkrem.go:73-91 | for an index of the subtree the loop ends on the hash at that place of the post-order after at most h hashings; for the index just below, on a hash under the leftmost leaf; otherwise it fails; at heights from 64 up, where the uint64 shift is 0, it first goes left without moving the index |
| Elkrem.Sender.constructor | elkrem/elkrem.go:94-104 | the uint64 shift loop gives the root index 2^(h+1)-2 up to height 63 and 2^64-2 above |
| Elkrem.Sender.AtIndex | elkrem/elkrem.go:122-125 | up to height 63 every index up to the root gives the post-order hash at that place and every other index fails; in a taller tree the top index gives the root and every lower one the hash of the tree of height 63 in the bottom left corner |
| Elkrem.Sender.Next | elkrem/elkrem.go:114-118 | the uint64 counter moves first, so the first hash is that of index 1 |
| Elkrem.AddExtends | elkrem/elkrem.go:128-152 | an accepted hash, leaf or parent, extends the list that the pruned store represents by exactly itself |
| Elkrem.Receiver.AddNext | elkrem/elkrem.go:128-152 | a hash is accepted unless the top two nodes are a pair it does not hash to; acceptance extends the log and moves the uint64 counter, and as long as that does not wrap the store represents the log; rejection changes nothing |
| Elkrem.Receiver.AtIndex | elkrem/elkrem.go:155-169 | every number from 1 to current gives back the hash accepted under it; beyond is an error, zero a hash never handed in, and an empty store a panic |
| Elkrem.ReceiverRemembers | elkrem/elkrem.go:128-169 | after any list of offers from any sender, each accepted hash is recovered by its number |
| Elkrem.StoreIsSmall | elkrem/elkrem.go:32-34 | after at most 2^(h+1)-1 accepted hashes from any sender, at most h+1 nodes are stored |
| Elkrem.ReceiverAgreesWithSender | elkrem/elkrem.go:73-169 | fed indices 0, 1, 2, ... of a sender's tree, the receiver accepts all of them up to the root, its heights fall strictly except for the top two, it stores at most h+1 nodes, and its number w is the sender's index w-1 |
| Elkrem.NextStreamAccepted | elkrem/elkrem.go:114-118 | if no left hash is a right hash, a receiver accepts the whole stream that starts at index 1 if and only if the tree has height 0 or 1; in every other tree it rejects the third hash |
| Script.NumRoundTrip | lnwallet/script_utils.go:151-153 | every integer pushed as a script number is read back unchanged |
| Script.TrueMeansNotZero | lnwallet/script_utils.go:136-141 | a stack value counts as true exactly if the number it stands for is not zero, negative zero included |
| Script.LockTimeMeansWait | lnwallet/script_utils.go:151-152 | a met CHECKLOCKTIMEVERIFY on a transaction that can be mined means that the height, or from 500000000 up the time, is past the operand |
| Script.LockTimeCanBeMet | lnwallet/script_utils.go:151-152 | a transaction with just that lock time and an input that is not final meets it |
| Script.NumBytes | lnwallet/script_utils.go:151-153 | the bytes of script numbers at the sign and byte boundaries |
| ScriptBytes.ParseSerialized | lnwallet/script_utils.go:27-33 | the bytes of a script with pushes of at most 75 bytes are read back as the script with numbers replaced by the data they are encoded as |
| ScriptBytes.BytesMeanScript | lnwallet/script_utils.go:27-33 | running those bytes succeeds on exactly the stacks the script succeeds on |
| CommitScripts.ToSelfSpend | lnwallet/script_utils.go:215-240 | over all stacks, the pay-to-self script succeeds exactly for the revocation preimage with their signature, or after the relative delay with the owner's |
| CommitScripts.SenderHTLCSpend | lnwallet/script_utils.go:122-161 | over all stacks, the outgoing HTLC succeeds exactly for the payment or revocation preimage with the receiver's signature, or after both lock times with the sender's |
| CommitScripts.ReceiverHTLCSpend | lnwallet/script_utils.go:165-209 | over all stacks, the incoming HTLC succeeds exactly for the payment preimage after the relative delay with the receiver's signature, or with the sender's signature and the revocation preimage or the second relative lock |
| CommitScripts.UnencumberedSpend | lnwallet/script_utils.go:245-255 | over all stacks, the other party's output succeeds exactly for a key with the right hash and a signature under it |
| CommitTx.CreateCommitTx | lnwallet/channel.go:567-605 | the two outputs of a commitment in order, with the sequence number of its delay |
| CommitTx.CreateNewCommitmentTxns | lnwallet/channel.go:505-525 | the two commitments are mirror images: each pays its owner with a delay under the owner's own revocation hash |
| CommitTx.AddHTLC | lnwallet/channel.go:363-420 | whichever way a payment goes, each commitment gets the script in which its owner is the delayed side and the owner's revocation hash is the one that forfeits it |
| CommitTx.PaymentToUs | lnwallet/channel.go:363-420 | of the outputs appended for a payment to us: with the payment preimage and our key we take it from their commitment at once and from ours exactly once the delay is met; with neither preimage they take it back, with their key, from their commitment exactly when both locks are met, and from ours exactly when the timeout is met as a relative lock |
| CommitTx.PaymentToThem | lnwallet/channel.go:363-420 | the mirror image for a payment to them, with keys, commitments and locks exchanged |
| CommitTx.OurCommitment | lnwallet/channel.go:363-420 | with the preimage of our revocation hash and their key they take our delayed output at once, and the HTLC unless that hash is also the hash of a payment to us; without it we get our output exactly once the delay is met |
| CommitTx.TheirCommitment | lnwallet/channel.go:363-420 | the same of their commitment, with their revocation hash and our key |
| CommitTx.PayerWaitsForTimeout | lnwallet/channel.go:363-420 | from the payer's own commitment, whatever is pushed, nothing without a signature of the payee is mined before the height, or the time, of the timeout |
| CommitTx.SequenceIsLeast | lnwallet/channel.go:611-617 | the masked delay is the least sequence number that passes CHECKSEQUENCEVERIFY for it, and up to 65535 blocks it is the delay itself |
| CommitTx.OwnerMustWait | lnwallet/channel.go:363-420 | for delays below 65536, whatever bytes are revealed as redeem script and whatever stack is pushed, if no other bytes share the output's script hash: without the counterparty's signature the owner spends neither the pay-to-self output nor an HTLC before the delay has passed |
| CommitTx.RevokedCommitmentIsForfeit | lnwallet/channel.go:363-420 | with the revocation preimage and the bytes of the script the counterparty spends the pay-to-self output at once, and an HTLC output if and only if it is outgoing, or its payment hash is not the revocation hash, or the delay is met and the same signature is valid under the owner's key |
| CommitTx.PayeeSideTimeoutIsRelative | lnwallet/script_utils.go:193-201 | on the payee's commitment the lock time plays no part, and the payer's timeout branch opens exactly when the timeout passes as a relative lock |
| CommitTx.TimeoutExample | lnwallet/script_utils.go:193-201 | a timeout of 400000 opens the payer's branch for a transaction with sequence number 6784 and lock time 0, which the absolute check would refuse |
| CommitBytes.ToSelfBytes | lnwallet/script_utils.go:215-240 | the pay-to-self script for a delay of 144 blocks, byte by byte |
| CommitBytes.SenderBytes | lnwallet/script_utils.go:122-161 | the outgoing HTLC script for height 400000 and a delay of 144 blocks, byte by byte |
| CommitBytes.ReceiverBytes | lnwallet/script_utils.go:165-209 | the incoming HTLC script for the same values, byte by byte |
| CommitBytes.UnencumberedBytes | lnwallet/script_utils.go:245-255 | the script that pays the other side at once, byte by byte, for any 20-byte hash |
| PeerPipeline.TokenStep | peer.go:183-266 | every step of either handler, a producer or Stop keeps at most one token in sendQueue, the write, the sync channel and the forwarding case together, present exactly while waitOnSync is set or about to be |
| PeerPipeline.FlightStep | peer.go:183-266 | only enqueueing adds to the pipeline, at its end, and only writing removes from it, at its front |
| PeerPipeline.PipelineIsFifo | peer.go:183-266 | in every reachable state before Stop, written messages followed by those in the write, sendQueue, the forwarding case, pendingMsgs and outgoingQueue are exactly the enqueued ones in order; after Stop the written ones are still a prefix |
| PeerPipeline.HandlersNeverBlock | peer.go:183-262 | in every reachable state a handler about to send on sendQueue or sendQueueSync can send |
| PeerPipeline.QueueHoldsFifty | peer.go:36-97 | while the handlers stand still, producers can send a list of messages exactly if no more than fifty are then queued |
| PeerPipeline.InternalRunsAreShort | peer.go:189-262 | no run of the two handlers alone is longer than a weighted measure of the messages and tokens in the pipeline |
| PeerPipeline.QuiescentMeansDone | peer.go:189-266 | a reachable state in which neither handler can move has written every accepted message, or after Stop has both goroutines returned |
| PeerPipeline.HandlersFinish | peer.go:189-266 | from every state that keeps the token invariant, some run of the handlers alone ends quiescent within that measure |
| WireElements.DecodeEncoded | lnwire/lnwire.go:47-600 | for every type the codec switches on, reading a value that could be written and whose list counts do not wrap gives it back, up to an input's script and sequence, and leaves the rest of the stream |
| WireMessages.AssembleArrived | lnwire/funding_request.go:59-143 | Decode puts every field that Encode wrote into the field it came from |
| WireMessages.ArrivedIsValid | lnwire/funding_request.go:157-208 | a message that validates before it is sent validates on arrival |
| WireFrames.ReadStaysInStep | lnwire/message.go:234-291 | a complete frame is judged independently of what follows, the stream moves by exactly the frame if and only if the announced length is at most 32 MB, and the count returned is the frame's length only if its payload was read |
| WireFrames.BadFrameIsSkipped | lnwire/message.go:234-291 | behind a complete frame of at most 32 MB, accepted or refused for any reason, the stream is read as if the frame were absent |
| WireFrames.AcceptedCountsFit | lnwire/lnwire.go:170-184 | no message that WriteMessage accepts holds a list whose count wraps, although hash lists are not checked |
| WireFrames.ReadWritten | lnwire/message.go:179-291 | reading a written, valid message gives it back up to the fields never sent, and both sides count the same bytes |
| WireFrames.ConversationRoundTrip | lnwire/message.go:179-291 | any list of accepted, valid messages is read back from the concatenated frames, in order, with nothing left over |
| WireFrames.FundingRequestSize | lnwire/funding_request.go:109-143 | a valid funding request with a 33-byte key encodes to 114 bytes plus both scripts plus 36 for each input |
| WireFrames.LargestFundingRequestRefused | lnwire/funding_request.go:151-154 | WriteMessage refuses a valid funding request with a 33-byte key exactly if it has 127 inputs and two 25-byte scripts |
| WireFrames.DiscardInput | lnwire/message.go:162-176 | the chunked loop drops exactly n bytes, or all there are |
| WireFrames.WriteElements | lnwire/lnwire.go:295-303 | the loop writes the concatenated encodings, or fails exactly when one element cannot be encoded |
| WireFrames.ReadElements | lnwire/lnwire.go:602-610 | the loop reads the values of all fields, or fails exactly when one cannot be decoded |
| WireFrames.WriteMessage | lnwire/message.go:179-231 | a message's frame is written whole or not at all, and the count returned is its length |
| WireFrames.ReadMessage | lnwire/message.go:234-291 | outcome, byte count and stream position are those of reading one frame from the bytes at hand |
| WireBytes.HeaderBytes | lnwire/message.go:208-216 | a header is four bytes each for network, command and length, highest byte first |
| WireBytes.TemplateIff | lnwire/lnwire.go:613-641 | a script passes exactly if it is the P2PKH or the P2SH template around some 20 bytes |
| WireBytes.ReadAddRequest | lnwire/htlc_addrequest.go:96-111 | a decodable HTLC request of at most 8192 bytes is accepted exactly if byte 20 of the payload is below 128, and otherwise refused as invalid; a longer one is over its cap |
| WireBytes.ReadCommitSignature | lnwire/commit_signature.go:91-103 | a decodable commit signature of at most 8192 bytes is accepted exactly if the first byte of the fee, behind the counted keys and the hash, is below 128 |
| WireBytes.ReadCloseRequest | lnwire/close_request.go:64-77 | a decodable close request of at most 89 bytes is accepted exactly if the first byte of the fee, behind a signature of at most 73 bytes, is below 128 |
| WireBytes.ReadErrorGeneric | lnwire/error_generic.go:59-71 | a decodable error of at most 8208 bytes is accepted exactly if the length of its text is at most 8192 |
| WireBytes.ReadFundingRequest | lnwire/funding_request.go:151-208 | a decodable funding request of at most 4735 bytes is accepted exactly if the five amounts at offsets 9, 17, 78, 86 and 94 have a clear sign bit, the total at 17 is at least the amount at 9 and that at least the reserve at 78, and the two scripts from offset 111 on are of the two templates |
| WireBytes.ReadFundingResponse | lnwire/funding_response.go:135-182 | a decodable funding response of at most 4785 bytes is accepted exactly if the three amounts at 9, 70 and 78 have a clear sign bit, the one at 9 is at least the one at 70, and the two scripts from offset 95 on are of the two templates |
| WireBytes.OthersAreNeverInvalid | lnwire/htlc_settlerequest.go:76-79 | a frame of any other message type is never refused as invalid |
| WirePlaces.FundingRequestPlaces | lnwire/funding_request.go:79-100 | every field of an accepted funding request is what stands at its offset of the payload, and its inputs arrive without a script and with the final sequence number |
| WirePlaces.AddRequestPlaces | lnwire/htlc_addrequest.go:50-64 | channel, key, expiry, amount and contract type of an accepted HTLC request are at offsets 0, 8, 16, 20 and 24 |
| WirePlaces.CommitSignaturePlaces | lnwire/commit_signature.go:47-60 | channel and height are at offsets 0 and 8, the revocation hash and the fee behind the counted keys |
| WirePlaces.SettleRequestPlaces | lnwire/htlc_settlerequest.go:32-42 | channel and key are at offsets 0 and 8 |
| WirePlaces.SignCompletePlaces | lnwire/funding_signcomplete.go:27-36 | reservation and transaction id are at offsets 0 and 8 |
| WirePlaces.ErrorGenericPlaces | lnwire/error_generic.go:23-32 | the channel is at offset 0 and the text behind its length at 10 |
| WireSizes.SentIff | lnwire/message.go:179-231 | a message is sent exactly if each field is within its limit and the sizes of the fields add up to at most the cap |
| WireSizes.AddRequestSent | lnwire/htlc_addrequest.go:96-100 | an HTLC request is sent exactly if 29 bytes, 20 for each hash and the blob are at most 8192 |
| WireSizes.SettleRequestSent | lnwire/htlc_settlerequest.go:70-73 | a settle request is sent exactly if it has at most fifteen proofs |
| WireSizes.CommitSignatureSent | lnwire/commit_signature.go:91-93 | a commit signature is sent exactly if its signature has at most 73 bytes and 47 bytes, 8 for each key and the signature are at most 8192 |
| WireSizes.ErrorGenericSent | lnwire/error_generic.go:59-62 | an error is sent exactly if its text has at most 8198 bytes, so every valid one is |
| WireSizes.SignCompleteSent | lnwire/funding_signcomplete.go:63-66 | it is sent exactly if it has at most 127 signatures of at most 73 bytes and they fit 9311 bytes behind 41 others |
| WireSizes.SignAcceptSent | lnwire/funding_signaccept.go:66-69 | it is sent exactly if all its signatures are within those limits and fit 9352 bytes with 10 others |
| WireSizes.CloseSent | lnwire/close_request.go:64-67 | the two closing messages are sent exactly if the signature has at most 72 bytes |
| WireSizes.FixedSizeSent | lnwire/htlc_addaccept.go:55-58 | the messages of two numbers, or two numbers and a hash, are always sent, and their caps of 16 and 36 are their sizes |
| HeaderFile.DeserializeSerialized | uspv/eight333.go:254-259 | every header survives the trip through its 80-byte record |
| HeaderFile.RecordLayout | uspv/eight333.go:254-259 | the fields of a header stand at offsets 0, 4, 36, 68, 72 and 76 of its 80 bytes, lowest byte first |
| HeaderFile.File.CheckHeader | uspv/header.go:94-181 | reading three headers through the cursor decides linkage, difficulty and proof of work at that height, and leaves the cursor right behind the header |
| HeaderFile.OkMeansGenuine | uspv/header.go:34-181 | a height checks exactly if its header names the hash of the one before, its own hash is at most the target that its bits stand for, which is positive and at most the limit, and, except at a multiple of 2016, its bits are those of the first header of its 2016, or on a network that allows it the limit's bits more than 1200 seconds after the header before |
| HeaderFile.File.CheckRange | uspv/header.go:188-195 | true exactly if every height of the range is 0, or is held by the file and checks |
| HeaderFile.AppendAndCheck | uspv/eight333.go:254-264 | a header written at the end of the file is the next record, is checked in place, and the cursor is at the end again |
| HeaderFile.IngestHeaders | uspv/eight333.go:206-284 | a message is appended whole exactly if every new height is genuine in that sense; otherwise the file is cut back to a hundred headers fewer, or to genesis; an empty message changes nothing; and a file that starts with its genesis and checks at every height still does |
| HeaderFile.IngestKeepsChain | uspv/eight333.go:206-284 | after any message the genesis is still first, every stored height checks, and the chain is the old one extended by the message or the old one less exactly a hundred headers, but never less than its first |
| HeaderFile.IngestIffGenuine | uspv/eight333.go:206-284 | a message is appended whole if and only if at every new height the header links to the one before, meets its target and carries the right bits; otherwise exactly a hundred headers are cut, or all but the first |
| HeaderFile.EveryRunKeepsChain | uspv/eight333.go:206-284 | the same over every list of arbitrary header messages |
| HeaderFile.EveryRunIsGenuine | uspv/eight333.go:206-284 | from a chain whose headers are genuine, any list of arbitrary messages ends in a chain with the same first header whose every later one links, meets its target and carries the right bits |
| TxStore.SweepIsPass | uspv/txstore.go:134-143 | the range loop over the shifted backing array is a recursion over what is live and what is stale |
| TxStore.SweepIsFilterIff | uspv/txstore.go:134-143 | for one input the loop deletes exactly the outputs at that outpoint if and only if no two neighbours match and a match at the end is the only one; it slices out of range if and only if the last entry and an earlier one match; it keeps a match if and only if two neighbours match and the last does not |
| TxStore.SweepConserves | uspv/txstore.go:134-145 | in every loop that does not panic, what is kept and what is counted as lost add up to what was there |
| TxStore.ExpelIsFilter | uspv/txstore.go:127-147 | with distinct outpoints ExpellTx leaves the order-preserving filter by unspent outpoints and subtracts exactly the value that is gone |
| TxStore.ExpelIsFilterIff | uspv/txstore.go:127-147 | for any stored outputs and any inputs, repeated ones included, ExpellTx leaves the order-preserving filter by unspent outpoints if and only if no loop panics and the last loop for each outpoint meets no two neighbours at it |
| TxStore.RunIsExactIff | uspv/txstore.go:67-147 | for any run, re-sent transactions included, contents and sum are right after every transaction if and only if every transaction meets that condition on what the wallet should hold by then |
| TxStore.SumIsAlwaysRight | uspv/txstore.go:67-147 | after any run that does not panic, whatever was re-sent, the sum is the sum of the stored values |
| TxStore.SentAgain | uspv/txstore.go:127-147 | a payment to us ingested twice and then spent ends in a slice panic if the spending transaction pays us nothing, and keeps the spent output if it pays us one output |
| TxStore.SentAgainExample | uspv/txstore.go:127-147 | that panic on concrete transactions |
| TxStore.EveryRunIsExact | uspv/txstore.go:67-147 | from any wallet with distinct outpoints and a right sum, if no txid is ingested twice or stored already, after every run it holds exactly the unspent outputs paying us, each once, and its sum is the sum of their values |
| TxStore.ExpectedExactly | uspv/txstore.go:67-147 | what a run should leave: exactly the stored outputs never spent, and the outputs gained by some transaction and spent by neither it nor a later one |
| TxStore.ContainsMeansPays | uspv/txstore.go:101-104 | an output pays an address exactly if its script is some bytes, the address's bytes, and some bytes |
| TxStore.GainsAre | uspv/txstore.go:93-124 | an output is gained if and only if it pays one of our addresses; its entry carries that output and the key index of the first such address, and entries are in output order |
| TxStore.Store.AbsorbTx | uspv/txstore.go:93-124 | one entry is appended for each output that pays one of our addresses, keyed by the first such address, and its value is added to the sum |
| TxStore.Store.ExpellTx | uspv/txstore.go:127-147 | the in-place loops leave what the specification of the aliased deletion says, or panic when it does |
| TxStore.Store.IngestTx | uspv/txstore.go:67-90 | a transaction not asked for changes nothing; any other leaves contents and sum as absorbing and then the aliased deletion define them, or panics when that does; with distinct stored outpoints and a fresh txid, the contents become the unspent filter of old and gained outputs and the sum stays their value |
| Lndc.ReadWritten | lndc/netio.go:57-91 | a length-prefixed message is read back and what follows is left |
| Lndc.WriteKeepsInv | lndc/conn.go:299-322 | a write uses one nonce whether or not it is refused for length, and keeps the stream invariant |
| Lndc.ReadKeepsInv | lndc/conn.go:258-293 | a read of any size, from the buffer or after opening a record, keeps the stream invariant |
| Lndc.ReadOutcome | lndc/conn.go:264-292 | a read that opens a record fails exactly when a refused write put the nonces out of step, and signals end of file exactly for an empty record |
| Lndc.ReadReturnsWhatIsThere | lndc/conn.go:258-293 | over every interleaving, one more read returns at most what was asked for; if that many bytes are buffered it returns exactly the next ones of what was written, and if fewer, all of them |
| Lndc.LongestWrite | lndc/conn.go:299-322 | a write is sent exactly if it has at most 65514 bytes, and then as a two-byte length, highest byte first, and the sealed record |
| Lndc.StreamIsRebuilt | lndc/conn.go:258-322 | over every interleaving, the sender's nonce is the receiver's plus records in flight plus refused writes, and with nothing under way or buffered everything written before the first refusal was read |
| Lndc.ReadsArePrefixOfWrites | lndc/conn.go:258-322 | over every interleaving of writes and reads of any size, the bytes read are a prefix of the bytes written up to the first refused write |
| Lndc.EnoughReadsDeliverAll | lndc/conn.go:258-293 | if no write was empty or too long, then after any run k further reads of at least one byte each deliver k bytes or everything, and as many reads as bytes were written deliver everything |
| Lndc.NoncesStayDisjoint | lndc/conn.go:126-127 | with fewer than 2^63 writes each and any number of reads, the two directions seal under nonces from disjoint halves |
| Lndc.LNDConn.Accepted | lndc/listener.go:107-108 | the listener's side starts with the nonces of Dial exchanged |
| Lndc.LNDConn.Write | lndc/conn.go:299-322 | nil is refused without using a nonce; any other write is one step of the outgoing direction |
| Lndc.LNDConn.Read | lndc/conn.go:258-293 | a read that can return is one step of the incoming direction |
| Reservations.ReserveKeepsInv | lnwallet/wallet.go:444-603 | with coin selection offering distinct unlocked coins that cover the amount, a request at any stage of success leaves inputs disjoint, locks exact and value conserved, under an id not in use |
| Reservations.CancelKeepsInv | lnwallet/wallet.go:609-640 | cancelling frees exactly the reservation's coins and keeps all of that |
| Reservations.ContributeKeepsInv | lnwallet/wallet.go:648-821 | a contribution, which gives a pending reservation its funding and, if it gets that far, its commitment transaction, keeps the invariant |
| Reservations.CompleteKeepsInv | lnwallet/wallet.go:843-959 | signatures keep the invariant, in which the coins of completed reservations are locked; as far as modelled they make the program panic exactly if the id is in limbo and has no funding transaction, or the list is too short for an input that verifies, or the funding inputs pass and there is no commitment transaction |
| Reservations.EveryRunKeepsInv | lnwallet/wallet.go:383-405 | over every run up to a panic, inputs of pending and completed reservations are pairwise disjoint, exactly their union is locked, ids are unique, every successful reservation's inputs equal its funding amount plus change, every reservation's capacity is twice its funding amount, and what is completed had a funding and a commitment transaction |
| Reservations.CompletedStaysLocked | lnwallet/wallet.go:953-959 | no later request changes a completed reservation or releases its coins |
| Reservations.IdsNeverReused | lnwallet/wallet.go:446-453 | over every run an id issued earlier never names a different reservation in limbo; only a contribution can have been added |
| Reservations.LightningWallet.HandleFundingReserveRequest | lnwallet/wallet.go:444-603 | the handler makes that step, and a reservation it returns is for the amount asked, of twice that capacity, with the selected coins, whose value is the amount plus change |
| Reservations.LightningWallet.HandleFundingCancelRequest | lnwallet/wallet.go:609-640 | the handler makes that step and succeeds exactly for an id in limbo |
| Reservations.LightningWallet.HandleContributionMsg | lnwallet/wallet.go:648-833 | the handler makes the step of a contribution and succeeds exactly for an id in limbo whose contribution is handled to the end |
| Reservations.LightningWallet.HandleFundingCounterPartySigs | lnwallet/wallet.go:843-971 | the handler makes that step; an unknown id, those panics, bad signatures and completion are told apart exactly |

## Left out

- MachineRefinesTraversal: has no equal siblings as a precondition, and so has Simulate; on messages with equal siblings `AgreesIffTwo` and `AgreesIffSmall` say when agreement holds.
- AcceptedListIsFromBlock: has the same precondition; `SoundIffSmall` and `SoundUnderAnyClaimIffOne` say when it can be dropped.
- AcceptedUnderClaim and DeeperClaimIsEmpty: have it too; beyond `SoundUnderAnyClaimIffOne`, `ForeignAccepted` and `SmallForeign` the lists accepted from messages with equal siblings are not characterised.
- CheckMBlock: more than 2^31 transactions, where `treeDepth` does not end.
- Sender: a tree height of 255, where the constructor does not end.
- AddNext: nothing is claimed about the store once the uint64 counter has wrapped, after 2^64 accepted hashes.
- ScriptBytes: pushes of more than 75 bytes are written but not read back; no commitment script has one.
- Script: engine limits (operation count, stack and script size) and the minimal-push and signature-encoding rules of btcd's policy flags.
- AddHTLC: HTLCs re-added to a later commitment keep the revocation hashes of their own descriptor; the claims are about outputs built from one descriptor. Script-builder errors, which the source swallows, are not modelled.
- OwnerMustWait: the mining rule of BIP 68, that a transaction waits for its sequence number, is a precondition.
- PeerPipeline: write errors (the source ignores them), pings, and notification of `sentChan` while draining. The check for shutdown and the write that follows it are one step.
- WireMessages: ten of the sixteen message types are a command and a list of fields, not one constructor each.
- Encode and Decode: single elements are modelled on byte strings rather than on a reader or writer; the loops over elements, and frames, are modelled on streams.
- CheckHeader: the retarget computation `calcDiffAdjust`, whose result the source does not compare; I/O errors.
- IngestTx: int64 overflow of the sum, and nil transactions.
- Lndc: the handshake; a peer that closes the connection or forges records; partial writes. `Aead.Lawful` idealises the cipher.
- Reservations: of `handleContributionMsg` only how far it gets, not its own panics, such as a reservation whose keys were never made; key and address management. What coin selection offers is a precondition; the outcome of checking signatures is a parameter. Overflow of the uint64 id is left out.
- HandleFundingCounterPartySigs: the database error that the source may still return after the entry has left limbo.
- shachain, lnstate, chainntfs, channeldb, the RPC server and the command-line tools are not part of this model.
