# Vorticity: a verified model of its protocols

Vorticity is an end-to-end encrypted messenger. This project models the parts of it that
are hard to get right by reading and proves what they promise. `dafny verify dfyconfig.toml`
checks all of it.

| files | what they model |
|---|---|
| `RatchetCrypto`, `Ratchet`, `RatchetWorld`, `RatchetSteps`, `RatchetRun`, `RatchetOffers`, `RatchetDamage`, `RatchetOutcome`, `RatchetWitness` | The Triple Ratchet: one peer as an object updated in place, two peers and a network as a state machine, an invariant over every interleaving, and the theorems about whole runs. Cryptography is symbolic: every derivation is a free constructor, so keys are equal exactly when they were derived alike. |
| `RatchetWire`, `StateExport`, `StateFormat`, `RatchetTransfer`, `ByteCodec` | The bytes of a ratchet message header and of a whole exported ratchet state, and the tie between the exported fields and the live state. |
| `Merkle`, `MerkleProof` | Consistency proofs of the key transparency log: recursive prover, iterative verifier, and the level-by-level tree. Hashing is a parameter of which nothing is assumed. |
| `Ring`, `RingWire` | Linkable ring signatures over any group of points that scalars act on, and a concrete group that keeps the laws. |
| `Chat`, `ChatOrder` | The message lists of the two sides of a chat, their own and the incoming operations, their convergence and their order. |
| `Varint`, `Bhttp`, `BhttpGrammar` | QUIC variable-length integers, with JavaScript's 32-bit operators written out, and Binary HTTP messages of known length. |
| `Enrollment`, `EnrollmentHistory`, `Backup`, `ConvLog`, `ConvLogAnswers`, `Lease` | Four small concurrent services, each handler an atomic step or split where it awaits. |
| `Seal` | Sealed-sender envelopes and the size buckets that client and server compute independently. |

Code that the repository writes as updates is a method here, proved equal to a function of
its inputs or of the old state; the promises are then proved of that function. A run is a
sequence of steps, and a theorem about runs holds for every such sequence.

## What the code does not promise

Some promises fail on part of their inputs. The model keeps the code as it is, the theorem
says exactly when the promise holds, and where a run is needed to get there a lemma builds one.

- A message that overtakes the PQ ciphertext of its own chain fails authentication, although
  the module comment calls the chain-key mix safe (`RatchetRun.DeliveryOutcome`, reached by
  `RatchetWitness.AnswerGetsOvertaken`). The rest of that chain is then lost
  (`RatchetDamage.ChainIsLost`), and the next DH turn is not affected
  (`RatchetDamage.NextTurnHeals`).
- A pending PQ offer is still live if and only if no message carrying it has been overtaken
  (`RatchetOffers.OfferFate`, reached by `RatchetWitness.OfferGetsLost`); a lost one is never
  answered, and its sender never makes another (`RatchetOffers.LostForever`).
- A state export carries the peer's offer without its length: it imports back if and only if
  that offer is 1184 bytes and the counts fit four bytes (`StateExport.RoundTrip`). Header
  fields survive the wire if and only if they fit two-byte lengths
  (`RatchetWire.WireRoundTrip`).
- `seal` accepts two parts of up to 65535 bytes each but writes their joint length in two
  bytes: `unseal` gives both back if and only if they fit together (`Seal.SealThenUnseal`).
- A subscriber whose `since_seq` is beyond the log is sent later entries up to that number
  as well (`ConvLog.Delivery`, reached by `ConvLog.BeyondTheLog`), and a frame lost before a
  later one arrived is never sent again by reconnecting with the last number seen
  (`ConvLog.Resume`, reached by `ConvLog.GapHappens`), although the comment in `fanOut` says
  the device picks it up.
- A first backup write is unconditional: it sets the generation back to 0 over an object that
  appeared since its head read (`Backup.PutOutcome`, reached by `Backup.FirstWriteRollsBack`).
- The enrollment quota of 20 is a bound for serial requests only: with `k` requests of one
  account between read and write, 19 + k tickets can be counted, and no more
  (`Enrollment.QuotaUnderConcurrency`, reached by `Enrollment.QuotaBoundIsReached`).
- A text delivered again is dropped only while its message is still listed; after its
  deletion it comes back (`Chat.RedeliveredText`). A reaction to a message of the other side
  that is not shown keeps the two sides alike if and only if it makes no difference to the
  author (`Chat.EarlyReactionOutcome`). `handleReact` is offered on shown messages, so what
  can occur is a deletion racing with the reaction, and that is harmless
  (`Chat.LateReactionIsHarmless`); only while the message itself is on its way can a reaction
  go wrong (`Chat.EarlyReactionDiverges`).
- The claimed size of the newer log is not authenticated, as the module comment admits: two
  claimed sizes are accepted alike if and only if the climbs to them take the same decisions
  (`MerkleProof.SizeLabelIsNotBound`).
- The Binary HTTP decoder refuses a message cut before its body even when the body is empty,
  which section 3.8 of RFC 9292 lets a sender omit (`Bhttp.RequestRoundTrip`).

## Model

| member | source | states |
|---|---|---|
| RatchetRun.EveryDeliveryDecrypts | packages/vortic-core/src/ratchet.rs:577-733 | In every run of two peers from one handshake, for every interleaving and delivery order that leaves no PQ ciphertext overtaken, a delivered message decrypts to exactly the plaintext sent; the only refusal is a gap of more than 25 keys, and it leaves the message deliverable |
| RatchetRun.DeliveryOutcome | packages/vortic-core/src/ratchet.rs:687-733 | As long as no PQ ciphertext has been overtaken, the outcome of delivering any message in flight: too many skipped, authentication failure exactly when it overtakes its own chain's PQ ciphertext, otherwise the plaintext sent |
| RatchetDamage.OvertakingKills | packages/vortic-core/src/ratchet.rs:702-732 | After such a failure every key the receiver holds for the chain lacks the PQ secret |
| RatchetDamage.DeadForever | packages/vortic-core/src/ratchet.rs:687-733 | Whatever the receiver sends and receives from then on, no message its sender put on that chain ever decrypts |
| RatchetDamage.ChainIsLost | packages/vortic-core/src/ratchet.rs:687-733 | From the failed delivery on, no message of the chain in flight ever decrypts, the PQ answer included |
| RatchetDamage.NextTurnHeals | packages/vortic-core/src/ratchet.rs:598-618 | The failure leaves root key and secret as they should be: the DH turn to the chain the peer goes on to derives that chain's key |
| RatchetWitness.AnswerGetsOvertaken | packages/vortic-core/src/ratchet.rs:655-732 | A run from the handshake in which a message arrives before the PQ answer of its chain and fails |
| RatchetRun.DeliveryKeeps | packages/vortic-core/src/ratchet.rs:687-733 | A delivery keeps the whole world invariant (keys of both ends, messages in flight, caches, offers) whether it succeeds or is refused |
| RatchetRun.StepKeeps | packages/vortic-core/src/ratchet.rs:632-733 | Every admissible send or delivery keeps the world invariant |
| RatchetRun.RunKeeps | packages/vortic-core/src/ratchet.rs:325-364 | The invariant holds at every point of every run that starts from the two initial states |
| RatchetRun.CacheIsExact | packages/vortic-core/src/ratchet.rs:577-591 | In every reachable state the skipped-key cache has a slot for exactly the messages sent, in flight and overtaken, and the key in each slot opens its message |
| RatchetRun.RedeliveryIsRejected | packages/vortic-core/src/ratchet.rs:690-700 | A message number consumed from the current receiving chain is refused when delivered again, and the state does not change |
| RatchetRun.CaughtUpKeysAgree | packages/vortic-core/src/ratchet.rs:598-618 | When a receiver has caught up with the other's sending chain both hold the same chain key, PQ secrets folded in or not |
| RatchetRun.PqAgreement | packages/vortic-core/src/ratchet.rs:641-732 | In every run each PQ ciphertext in flight was made for the pair its receiver still holds pending, at most one is in flight each way, and the two remix counts differ by exactly the ciphertexts in flight |
| RatchetSteps.TakeMoves | packages/vortic-core/src/ratchet.rs:710-732 | Consuming the next message of a chain folds the sender's PQ secret into the same chain key, so the derived key opens the message |
| RatchetOffers.OvertakenOfferIsLost | packages/vortic-core/src/ratchet.rs:690-718 | An offer whose message has been overtaken can no longer reach the other peer |
| RatchetOffers.LostOnlyByOvertaking | packages/vortic-core/src/ratchet.rs:632-733 | A step that loses an offer overtakes a message that carries it: sends and every other delivery lose none |
| RatchetOffers.OfferFate | packages/vortic-core/src/ratchet.rs:641-732 | At any point of any run a pending offer is live, ahead of the peer, held by it or answered in flight, if and only if no message of its sender carrying an offer was ever overtaken |
| RatchetWitness.OfferGetsLost | packages/vortic-core/src/ratchet.rs:664-718 | A run from the handshake in which an offer is overtaken and so lost |
| RatchetOffers.LostForever | packages/vortic-core/src/ratchet.rs:664-673 | Over every continuation of a run a lost offer stays pending, and its sender makes no further offer |
| RatchetWorld.BeginInv | packages/vortic-core/src/ratchet.rs:325-364 | The two states after the handshake satisfy the world invariant |
| RatchetCrypto.MixedChainDiffers | packages/vortic-core/src/ratchet.rs:251-253 | A chain with a PQ secret folded in never again shares a key position with the chain without it |
| RatchetCrypto.AdvanceAdd | packages/vortic-core/src/ratchet.rs:239-243 | Skipping a chain in two stretches reaches the same key as in one |
| Ratchet.RatchetSession.SkipMessageKeysTo | packages/vortic-core/src/ratchet.rs:577-591 | The loop caches exactly the keys of the skipped numbers and advances the chain past them; too wide a gap changes nothing |
| Ratchet.RatchetSession.DhRatchetStep | packages/vortic-core/src/ratchet.rs:598-618 | The field-by-field turn derives the receiving chain, then a fresh sending chain, and resets the three counters |
| Ratchet.RatchetSession.RatchetEncrypt | packages/vortic-core/src/ratchet.rs:632-685 | A send equals its specification: answer and offer only at number 0, both recorded in header and state, nothing sent without a sending chain |
| Ratchet.RatchetSession.RatchetDecrypt | packages/vortic-core/src/ratchet.rs:687-733 | A receive equals its specification on every path, including the state left behind by each failure |
| RatchetOutcome.HeaderSent | packages/vortic-core/src/ratchet.rs:632-685 | Of every state: without a sending chain nothing is sent; otherwise the header carries an offer exactly at number 0, with no offer pending, in every third turn, and an answer exactly at number 0 when the peer's offer is held, one not excluding the other, and nothing else of the state moves |
| RatchetOutcome.EverySend | packages/vortic-core/src/ratchet.rs:632-685 | Over every run a send puts one message in flight, the next of its sender's newest chain; it offers exactly when it is the first of every third chain of its sender and no offer is pending, and answers exactly when it is the first of its chain and an offer is held |
| RatchetWitness.AnswerCarriesOffer | packages/vortic-core/src/ratchet.rs:655-673 | A run from the handshake in which one message carries both the answer to the peer's offer and an offer of its own |
| RatchetOutcome.RefusedBeforeOpening | packages/vortic-core/src/ratchet.rs:577-733 | Of every state and every message, honest or not: exactly which are refused as used up, as too far ahead (more than 25 keys) or for want of a chain, and what each refusal leaves; a cached key is gone after one use, opened or not |
| RatchetOutcome.AfterOpening | packages/vortic-core/src/ratchet.rs:687-733 | What an opened message leaves: its cache slot alone gone, or its number the last used, with a new sending chain exactly when its key was new |
| RatchetOutcome.NotTwice | packages/vortic-core/src/ratchet.rs:690-700 | A message opened on the receiving chain is refused at its next delivery, with nothing changed, in every state |
| RatchetWire.WriteHeader | packages/vortic-core/src/ratchet.rs:116-142 | The buffer holds the fixed fields, the flag byte and the length-prefixed optional fields |
| RatchetWire.ReadWire | packages/vortic-core/src/ratchet.rs:146-187 | The offset-driven parser equals the format's parse, with every truncation refused |
| RatchetWire.WireRoundTrip | packages/vortic-core/src/ratchet.rs:116-187 | Whatever ciphertext follows, the receiver reads back the header and cuts off exactly the sender's header bytes, if and only if both optional fields fit their two-byte lengths |
| RatchetWire.RewriteIsExact | packages/vortic-core/src/ratchet.rs:144-187 | The bytes taken as header and ciphertext make up the message, and rewriting the header gives its own bytes exactly when no spare flag bit is set |
| RatchetWire.ReadExactly | packages/vortic-core/src/ratchet.rs:144-187 | The parser accepts exactly the strings that begin with a header spelled in the format, spare flag bits free, and returns that header, its bytes and the rest |
| StateExport.Serialize | packages/vortic-core/src/ratchet.rs:399-456 | The writer lays out flags, fixed fields, the cache in the order it is walked, the offers and the handshake ciphertext |
| StateExport.Deserialize | packages/vortic-core/src/ratchet.rs:458-575 | The reader equals the format's parse, refusing every truncation |
| StateExport.RoundTrip | packages/vortic-core/src/ratchet.rs:399-575 | Importing an export gives back the state and the handshake ciphertext, the empty one as none, in whatever order the cache was walked, if and only if the peer's offer is 1184 bytes and the counts fit four bytes |
| StateExport.PrefixRejected | packages/vortic-core/src/ratchet.rs:458-575 | An export cut short anywhere is refused |
| RatchetTransfer.StoredIsFaithful | packages/vortic-core/src/ratchet.rs:399-456 | The stored fields determine the live state, for any coding that loses none of its values |
| RatchetTransfer.TransferKeepsWorld | packages/vortic-core/src/ratchet.rs:399-575 | A device that imports a peer's export holds that peer's own state, so the world and every continuation of the run stay the same |
| StateExport.ParsedExtends | packages/vortic-core/src/ratchet.rs:458-575 | What a byte string imports as, every longer one imports as: trailing bytes are ignored |
| StateFormat.ImportExactly | packages/vortic-core/src/ratchet.rs:380-575 | The importer accepts exactly the strings laid out as documented, spare flag bits, repeated slots (the last one counts) and left-over bytes included, and takes every field of the state from its documented place |
| ByteCodec.LeRoundTrip | packages/vortic-core/src/ratchet.rs:118-139 | A little-endian cast keeps the value modulo the width |
| ByteCodec.LeastFirst | packages/vortic-core/src/ratchet.rs:118-139 | The least significant byte comes first |
| Merkle.LargestPowerOfTwoBelow | workers/messaging/src/merkleConsistency.ts:48-52 | The loop ends with the power of two below n that is at least half of n |
| Merkle.LevelKeepsRoot | workers/messaging/src/merkleConsistency.ts:55-61 | Pairing neighbours and carrying up a lone last node keeps the recursive root |
| Merkle.ShapeEquivalence | workers/messaging/src/merkleConsistency.ts:20-25 | The carry-up tree and the recursive largest-power-of-two tree have the same root for every number of leaves |
| MerkleProof.VerifyConsistency | workers/messaging/src/merkleConsistency.ts:94-148 | The three loops decide acceptance as one climb from the older tree's last node to both roots |
| MerkleProof.Completeness | workers/messaging/src/merkleConsistency.ts:63-148 | For every hash and every log the prover answers for exactly the sizes 0 < m < n, and the verifier accepts each answer between the true roots |
| MerkleProof.SizesThatDoNotFit | workers/messaging/src/merkleConsistency.ts:102-103 | Sizes out of order are refused whatever the proof, and equal ones accepted only with the empty proof between equal roots |
| MerkleProof.Soundness | workers/messaging/src/merkleConsistency.ts:94-148 | A proof accepted against the true root of a log yields a computed collision of the hash, or the older root is the true root of the prefix and the proof is the prover's own |
| MerkleProof.WrongLengthIsRejected | workers/messaging/src/merkleConsistency.ts:116-147 | An accepted proof has the prover's length, whatever the roots |
| MerkleProof.ProofLength | workers/messaging/src/merkleConsistency.ts:63-86 | A log of at most 2^h leaves has proofs of at most h + 1 hashes |
| MerkleProof.SizeLabelIsNotBound | workers/messaging/src/merkleConsistency.ts:27-44 | For every older size and every two claimed newer sizes: they are accepted and refused alike by free hashing if and only if the climbs to them combine on the same sides |
| MerkleProof.SameDecisionsSameVerdict | workers/messaging/src/merkleConsistency.ts:105-147 | Two claimed sizes with the same decisions get the same verdict from every hash, on all roots and proofs |
| MerkleProof.OtherDecisionsOtherVerdict | workers/messaging/src/merkleConsistency.ts:105-147 | Two with different decisions are told apart by a proof over free hashing |
| MerkleProof.SizesFromOneLeaf | workers/messaging/src/merkleConsistency.ts:27-44 | From a single leaf all claimed sizes between two powers of two look alike |
| MerkleProof.SubProofUp | workers/messaging/src/merkleConsistency.ts:63-73 | For an even older size the proof is the one between the trees one level up |
| MerkleProof.SubProofOdd | workers/messaging/src/merkleConsistency.ts:63-73 | For an odd older size the proof is its last leaf followed by that leaf's audit path |
| MerkleProof.AuditIsPath | workers/messaging/src/merkleConsistency.ts:63-73 | The siblings collected by the recursive split are those met level by level |
| MerkleProof.ClimbComplete | workers/messaging/src/merkleConsistency.ts:125-147 | Fed the true siblings, the verifier's loops reach both true roots and use up exactly the path |
| MerkleProof.ClimbSound | workers/messaging/src/merkleConsistency.ts:125-147 | A climb that reaches the true root without a collision was fed exactly the true siblings |
| Ring.Sign | packages/vortic-core/src/ring.rs:140-189 | Signing succeeds exactly on a ring of two or more decompressible members, a valid position and successful draws; the key image depends on secret and context alone, the other responses are the draws in walk order, and the result is accepted when the signer's key is at its position |
| Ring.GoAround | packages/vortic-core/src/ring.rs:164-178 | The wrap-around loop visits every other member once, ends, and every member it passes hands its challenge to the next |
| Ring.Verify | packages/vortic-core/src/ring.rs:196-224 | The verifier's loop is the walk from position 0, with every malformed input refused |
| Ring.AcceptedIsCycle | packages/vortic-core/src/ring.rs:196-224 | A signature is accepted if and only if ring and signature are well formed and some sequence of challenges starts with the signature's and leads around the ring, each the hash of its predecessor's part |
| Ring.Binding | packages/vortic-core/src/ring.rs:94-122 | A signature accepted for two messages, rings or contexts is accepted for one message and one ring commitment, or two different inputs of the challenge hash with the same value are computed from it |
| Ring.WalkFollows | packages/vortic-core/src/ring.rs:215-223 | On a cycle in which every member hands on its challenge the verifier's walk meets each stored challenge and returns to the first |
| Ring.Closes | packages/vortic-core/src/ring.rs:172-182 | From the group laws and the action of scalars: the solved response and the challenge add up to the nonce on every point |
| Ring.SignerCloses | packages/vortic-core/src/ring.rs:180-182 | The solved response makes the signer's slot reproduce the commitments of its nonce |
| Ring.ModularGroupIsLawful | packages/vortic-core/src/ring.rs:172-182 | The laws are consistent: residues modulo a prime are a group on which scalars act, for every choice of hashes |
| RingWire.WriteSignature | packages/vortic-core/src/ring.rs:54-62 | Key image, first challenge and responses one after the other |
| RingWire.ReadSignature | packages/vortic-core/src/ring.rs:64-76 | The reader equals the format's parse for a ring of n |
| RingWire.ReadWrite | packages/vortic-core/src/ring.rs:54-76 | Reading and writing are inverse: exactly the strings of 64 + 32 n bytes are read, each as the one signature it is written from |
| Chat.ReactInPlace | apps/web/src/lib/chatReducer.ts:44-55 | The loop over a fresh copy drops the earlier reaction of one side under every emoji and adds the new one |
| Chat.InboundRefines | apps/web/src/lib/chatReducer.ts:8-63 | An incoming payload changes what is seen of its target id as the operation says and of no other id, and keeps ids unique and reactions tidy |
| Chat.OwnRefines | apps/web/src/pages/Chats.tsx:471-515 | The same for an own send, edit, deletion or reaction |
| Chat.ReactIsTidy | apps/web/src/lib/chatReducer.ts:42-83 | A reaction leaves no emoji without a reactor, none listed twice, and no side with two |
| Chat.StepKeeps | apps/web/src/lib/chatReducer.ts:8-83 | Every allowed operation or delivery keeps the two sides equal up to the payloads still in flight |
| Chat.Convergence | apps/web/src/lib/chatReducer.ts:8-83 | After any run in which ids are fresh, edits and deletions are of own messages and reactions are to messages that are shown, one's own, or unaffected by them, once everything is delivered both sides see the same of every id with the roles swapped |
| ChatOrder.SameOrder | apps/web/src/lib/chatReducer.ts:8-38 | After any such run, once everything a side sent has arrived, the other lists that side's messages in the same order |
| ChatOrder.EditSparesDeleted | apps/web/src/lib/chatReducer.ts:29-33 | An incoming edit changes every message with its id that is not marked as deleted, and no other |
| ChatOrder.ReactorsInOrder | apps/web/src/lib/chatReducer.ts:49-52 | A new reaction is listed after those already under its emoji |
| Chat.EarlyReaction | apps/web/src/lib/chatReducer.ts:39-83 | A reaction to a message not shown keeps the two sides in step if and only if it makes no difference to the author |
| Chat.EarlyReactionOutcome | apps/web/src/lib/chatReducer.ts:39-83 | After any run, such a reaction and any deliveries until nothing is in flight, both sides see the same of the message if and only if the reaction made no difference to the author |
| Chat.LateReactionIsHarmless | apps/web/src/lib/chatReducer.ts:34-56 | Once the message is no longer on its way, a reaction to it while it is not shown makes no difference |
| Chat.OneEmojiEach | apps/web/src/lib/chatReducer.ts:45-55 | Throughout every run no side has two emojis on a message, and no emoji has more than two reactors |
| Chat.OwnCommutes | apps/web/src/lib/chatReducer.ts:67-83 | An own operation commutes with the payloads still to come, the author's with reactions and a reaction with everything but the message itself |
| Chat.RedeliveredText | apps/web/src/lib/chatReducer.ts:10-17 | A text delivered again is dropped exactly while its message is listed, and comes back after its deletion |
| Chat.EarlyReactionDiverges | apps/web/src/lib/chatReducer.ts:39-56 | An instance: a reaction sent while the message is on its way stays with the author alone |
| Varint.EncodeVarint | packages/ohttp/src/varint.ts:21-51 | The branches on 32-bit operators produce the tagged big-endian form, with negative and unsafe values refused |
| Varint.DecodeVarint | packages/ohttp/src/varint.ts:54-71 | The masks and shifts on the bytes at any offset give the format's value and width, with truncated and unsafe values refused |
| Varint.RoundTrip | packages/ohttp/src/varint.ts:21-71 | Decoding an encoding, whatever follows, gives the value and ends at its last byte |
| Varint.Shortest | packages/ohttp/src/varint.ts:25-49 | The width chosen is the least that holds the value, and no accepted encoding of it is shorter |
| Varint.EncodeOutcome | packages/ohttp/src/varint.ts:21-51 | Exactly the integers from 0 to 2^53 - 1 are encoded |
| Varint.ReadOutcome | packages/ohttp/src/varint.ts:54-71 | A read fails exactly when bytes are missing or the number is 2^53 or more, and otherwise gives the big-endian number without its two tag bits |
| Varint.Examples | packages/ohttp/src/varint.ts:21-71 | The examples of section A.1 of RFC 9000 come out as printed there, the one beyond 2^53 refused |
| Varint.AndMask | packages/ohttp/src/varint.ts:61-64 | Masking with 2^k - 1 bit by bit is the remainder modulo 2^k |
| Varint.OrAbove | packages/ohttp/src/varint.ts:30-46 | Or-ing bits above a value adds them |
| Varint.ReadExtends | packages/ohttp/src/varint.ts:54-71 | What a prefix decodes to, every extension decodes to |
| Bhttp.EncodeVarintBytes | packages/ohttp/src/varint.ts:74-80 | The buffer holds the length and the bytes |
| Bhttp.DecodeVarintBytes | packages/ohttp/src/varint.ts:83-89 | The slice at any offset is the length-prefixed string there, or a truncation |
| Bhttp.EncodeHeaderSection | packages/ohttp/src/bhttp.ts:31-51 | The lines laid out after their joint length |
| Bhttp.DecodeLines | packages/ohttp/src/bhttp.ts:58-67 | The header loop ends on every input and reads exactly the fields of the section; a field that runs past its end is a mismatch |
| Bhttp.DecodeHeaderSection | packages/ohttp/src/bhttp.ts:53-69 | A section at an offset, refused when it is longer than what is there |
| Bhttp.Assemble | packages/ohttp/src/bhttp.ts:102-109 | Setting parts at a moving offset into a buffer of their joint length lays them one after the other |
| Bhttp.EncodeBhttpRequest | packages/ohttp/src/bhttp.ts:91-110 | The request encoder produces the format |
| Bhttp.DecodeBhttpRequest | packages/ohttp/src/bhttp.ts:112-145 | The request decoder equals the format's parse, trailer optional, with the code's errors |
| Bhttp.EncodeBhttpResponse | packages/ohttp/src/bhttp.ts:147-163 | The response encoder produces the format |
| Bhttp.DecodeBhttpResponse | packages/ohttp/src/bhttp.ts:165-189 | The response decoder equals the format's parse, informational statuses refused |
| Bhttp.SectionBack | packages/ohttp/src/bhttp.ts:31-69 | A header section decodes to its field list, whatever follows it |
| Bhttp.RequestRoundTrip | packages/ohttp/src/bhttp.ts:91-145 | Every encodable request decodes to itself, with or without its trailer byte, and cut anywhere earlier it is refused |
| Bhttp.ResponseRoundTrip | packages/ohttp/src/bhttp.ts:147-189 | The same for every response whose status is not 100 to 199; those are never decoded, however cut |
| BhttpGrammar.RequestsOfTheGrammar | packages/ohttp/src/bhttp.ts:112-145 | The decoder accepts a byte string as a request if and only if the grammar spells that request with it: integers of any width, any trailer or none |
| BhttpGrammar.ResponsesOfTheGrammar | packages/ohttp/src/bhttp.ts:165-189 | The same for responses that are not informational |
| BhttpGrammar.WrongKind | packages/ohttp/src/bhttp.ts:112-180 | Exactly which strings are refused as the other kind of message and as informational, rather than as malformed |
| BhttpGrammar.RequestEncodes | packages/ohttp/src/bhttp.ts:91-110 | A request is encoded unless one of its strings, or its header lines together, reach 2^53 bytes |
| BhttpGrammar.ResponseEncodes | packages/ohttp/src/bhttp.ts:147-163 | The same for a response, whose status must be from 0 to 2^53 - 1 |
| Enrollment.EnrollmentWorker.CallbackRead | workers/enrollment/src/index.ts:86-92 | The quota check refuses an account at 20 and otherwise remembers whether its row existed |
| Enrollment.EnrollmentWorker.CallbackWrite | workers/enrollment/src/index.ts:94-105 | The update or insert decided earlier, with a racing insert refused by the primary key |
| Enrollment.EnrollmentWorker.CallbackMint | workers/enrollment/src/index.ts:112-113 | One ticket with a fresh id for the account |
| Enrollment.EnrollmentWorker.IssueVerify | workers/enrollment/src/index.ts:148-151 | A ticket minted here that has not run out passes on to be spent, any other is refused with 401 |
| Enrollment.EnrollmentWorker.IssueSpend | workers/enrollment/src/index.ts:157-166 | The insert spends a ticket at most once |
| Enrollment.EnrollmentWorker.IssueSign | workers/enrollment/src/index.ts:168-183 | A spent ticket yields one signature or, for a malformed message, none |
| Enrollment.Conservation | workers/enrollment/src/index.ts:80-183 | Over every interleaving: signatures at most tickets spent, spent at most minted, no ticket signed for twice, and per account tickets and signatures at most its counter |
| EnrollmentHistory.OnlyFreshTicketsAreSigned | workers/enrollment/src/ticket.ts:68-103 | Over every run each ticket signed for was minted by an event of the run, then presented by some request less than ten minutes after its minting, then spent and then signed for by that request |
| EnrollmentHistory.VerifyOutcome | workers/enrollment/src/index.ts:148-151 | After any run a ticket passes if and only if an event of the run minted it less than ten minutes before; any other gets 401 and changes nothing |
| EnrollmentHistory.FreshTicketIsSigned | workers/enrollment/src/index.ts:148-183 | After any run a ticket minted less than ten minutes before and not yet spent, presented with a well-formed message, gets exactly one blind signature; presented again it is refused with 409 |
| EnrollmentHistory.StepOutcome | workers/enrollment/src/index.ts:86-183 | The answer of every step as an if-and-only-if: 403 from 20 counted tickets on, 500 for a racing insert, 409 for a spent ticket, 400 for a malformed message, and what each leaves |
| Enrollment.QuotaUnderConcurrency | workers/enrollment/src/index.ts:86-105 | With at most k requests of an account between read and write its counter never passes 19 + k |
| Enrollment.QuotaBoundIsReached | workers/enrollment/src/index.ts:86-105 | For every k of at least 1 a run with at most k such requests takes the counter to 19 + k |
| Backup.BackupBucket.BeginPut | workers/messaging/src/index.ts:363-412 | Every check in order, then the head read and the generation check against it |
| Backup.BackupBucket.FinishPut | workers/messaging/src/index.ts:413-436 | The put, conditional on the etag read or unconditional for a first write |
| Backup.BackupBucket.Delete | workers/messaging/src/index.ts:494-496 | The object goes, pending writes stay |
| Backup.PutThenGet | workers/messaging/src/index.ts:413-469 | After any run, what a write stored is what a reader gets, with the generation it was stored under, until the next accepted write or deletion |
| Backup.PutOutcome | workers/messaging/src/index.ts:402-433 | After any run: a refused write changes nothing, a replacement is stored exactly over the version it read, and a stored write raises the generation by one if and only if its head saw an object |
| Backup.BeginOutcome | workers/messaging/src/index.ts:363-412 | Over any stored object, metadata malformed or not: exactly when a write goes on to its put and which of 400, 413, 502, 429 and 409 it gets otherwise, with nothing changed |
| Backup.UncontestedPut | workers/messaging/src/index.ts:363-436 | After any run a well-formed write that names the expected generation is stored under it, provided no other write is accepted and nothing deleted between its two halves |
| Backup.DeleteThenGet | workers/messaging/src/index.ts:472-497 | After any run a deleted backup is gone until the next accepted write |
| Backup.FirstWriteRollsBack | workers/messaging/src/index.ts:424-433 | A run in which an accepted first write sets the generation from 1 back to 0 |
| Backup.GenerationCounts | workers/messaging/src/index.ts:402-433 | Once an object exists and no first write is outstanding, over every interleaving without deletion the generation grows by exactly the accepted writes |
| Backup.OneWinner | workers/messaging/src/index.ts:413-423 | Of two writers that read the same version, whatever happens in between, the second is refused |
| ConvLog.ConvLogDO.HandleAppend | workers/messaging/src/durable-objects/ConvLogDO.ts:102-174 | Statuses in the code's order, then all rows inserted and fanned out |
| ConvLog.ConvLogDO.FanOut | workers/messaging/src/durable-objects/ConvLogDO.ts:214-224 | Every attached socket is sent the row, a failure of one affecting no other |
| ConvLog.ConvLogDO.HandleSync | workers/messaging/src/durable-objects/ConvLogDO.ts:185-194 | The handler's loop gives the answer of ConvLogAnswers.SyncAnswer |
| ConvLog.ConvLogDO.HandleSubscribe | workers/messaging/src/durable-objects/ConvLogDO.ts:198-211 | The socket attaches and is sent the backlog, a malformed number counting as 0 |
| ConvLog.ConvLogDO.WebSocketClose | workers/messaging/src/durable-objects/ConvLogDO.ts:226-236 | A closed socket is no longer attached |
| ConvLogAnswers.SyncAnswer | workers/messaging/src/durable-objects/ConvLogDO.ts:178-194 | After any run a delta read is 400 if and only if the parameter is given and is no non-negative integer; otherwise it lists, in order, exactly the entries numbered above it, an absent one counting as 0 |
| ConvLogAnswers.SyncCatchesUp | workers/messaging/src/durable-objects/ConvLogDO.ts:185-194 | A device with the first n entries of an earlier log that appends the answer to n has the whole log as it now is |
| ConvLogAnswers.AppendAnswer | workers/messaging/src/durable-objects/ConvLogDO.ts:102-174 | After any run an append is 400 exactly for a body that is not 1 to 500 non-empty blobs, 507 exactly beyond 500000 entries or 256 MiB, and otherwise answers the next numbers and stores every blob under them in order |
| ConvLogAnswers.SubscribeAnswer | workers/messaging/src/durable-objects/ConvLogDO.ts:198-211 | After any run a new socket is sent exactly the entries above its number, a malformed one counting as 0, or a prefix of them and an error, and no other socket changes |
| ConvLogAnswers.AttachedUntilClosed | workers/messaging/src/durable-objects/ConvLogDO.ts:198-236 | After any run a socket is attached if and only if it subscribed and was not closed since |
| ConvLogAnswers.HealthOverRun | workers/messaging/src/durable-objects/ConvLogDO.ts:214-224 | Over any run an attached socket misses a frame if and only if one of the rows stored meanwhile was lost on its way to it |
| ConvLogAnswers.EveryFrameArrives | workers/messaging/src/durable-objects/ConvLogDO.ts:198-224 | A device that asked for a number the log had reached and lost no frame has received exactly the entries above that number |
| ConvLog.BatchWholeOrNot | workers/messaging/src/durable-objects/ConvLogDO.ts:115-173 | A batch is stored whole, in order, with consecutive numbers and a bucketed time, or not at all, and exactly when it is well formed and fits both ceilings |
| ConvLog.CeilingsHold | workers/messaging/src/durable-objects/ConvLogDO.ts:61-62 | In every reachable log both ceilings hold and rows are numbered without gap |
| ConvLog.Delivery | workers/messaging/src/durable-objects/ConvLogDO.ts:198-224 | After any run no device has a frame out of order, twice or altered; without losses it has exactly the entries after its number if and only if the log had reached that number on attaching or has not grown since |
| ConvLog.Resume | workers/messaging/src/durable-objects/ConvLogDO.ts:185-224 | Asking again from the last number seen completes the log if and only if as many frames were seen as that number |
| ConvLog.ReconnectRebuilds | workers/messaging/src/durable-objects/ConvLogDO.ts:198-240 | A device over any number of sessions, each opened with the last number it saw: its frames are in order and unaltered, they are the log up to its last number if and only if they are as many as that number, and without losses they are the whole log |
| ConvLog.BeyondTheLog | workers/messaging/src/durable-objects/ConvLogDO.ts:198-211 | A run in which a device that asked for a number beyond the log receives an entry below it |
| ConvLog.GapHappens | workers/messaging/src/durable-objects/ConvLogDO.ts:214-224 | A run in which a lost frame is followed by one received, and asking again does not mend the gap |
| Lease.DeviceLeaseDO.HandleAcquire | workers/messaging/src/durable-objects/DeviceLeaseDO.ts:76-103 | Grant or renewal for 45 seconds from the second clock read, with an alarm, or the live holder's refusal |
| Lease.DeviceLeaseDO.HandleRelease | workers/messaging/src/durable-objects/DeviceLeaseDO.ts:105-120 | Only the live holder's release removes the row |
| Lease.DeviceLeaseDO.Alarm | workers/messaging/src/durable-objects/DeviceLeaseDO.ts:127-132 | An alarm removes an expired row only |
| Lease.MutualExclusion | workers/messaging/src/durable-objects/DeviceLeaseDO.ts:70-132 | Over every sequence of requests and alarms the times granted to two devices, cut short by their own releases only, never overlap |
| Lease.LeaseOutcome | workers/messaging/src/durable-objects/DeviceLeaseDO.ts:76-132 | After any run a request is granted if and only if no grant of another device is still running; a refusal names the device whose grant runs and changes nothing, a running grant survives any alarm, and a new grant lasts 45 seconds |
| Lease.RowOutcome | workers/messaging/src/durable-objects/DeviceLeaseDO.ts:76-132 | Of any row: who is refused, who is granted 45 seconds and who is told the holder; a release ends the lease exactly when its live holder makes it, an alarm exactly when it has run out |
| Lease.AlarmClears | workers/messaging/src/durable-objects/DeviceLeaseDO.ts:127-132 | After any run an alarm at a time when every grant has ended leaves no row |
| Seal.SealMessage | packages/vortic-core/src/seal.rs:72-118 | The padded envelope, or the error for a part over 65535 bytes or a failing random source |
| Seal.SealOutcome | packages/vortic-core/src/seal.rs:72-118 | Sealing fails exactly for a part over 65535 bytes or, failing that, a failing random source, and carries the sender's key and the nonce drawn |
| Seal.BucketsAgree | workers/messaging/src/bucketing.ts:37-43 | The server accepts exactly the bucket the client computes, for lengths 1 to 2^24, and none for any other length |
| Seal.UnpadIsExact | packages/vortic-core/src/seal.rs:136-153 | Padding comes off exactly, also from a text ending in zeros, if and only if the joint length fits two bytes |
| Seal.UnpadOutcome | packages/vortic-core/src/seal.rs:136-153 | Any decrypted text is taken apart by its own two lengths, refused exactly when one of them runs past its end; what follows the content is ignored |
| Seal.SealThenUnseal | packages/vortic-core/src/seal.rs:57-154 | The envelope is the least power of two that holds the parts and the server accepts its bucket only; the recipient gets both parts back if and only if they fit, any other key nothing |

## Left out

- Real cryptography: X25519, ML-KEM, HKDF, ChaCha20-Poly1305, Ristretto and SHA-512 are free constructors or parameters, so secrecy and unforgeability are not claims here.
- RatchetRun.EveryDeliveryDecrypts: assumes fresh ratchet seeds, honest messages each delivered at most once, and 32-bit counters that do not overflow, which the code would do after 2^32 messages of one chain.
- RatchetDamage.NextTurnHeals: is about the receiver's keys; whole runs of both peers are covered only until a PQ ciphertext is overtaken.
- A header that names Bob's own prekey before his first receive makes the code panic; the model returns the error NoReceivingChain instead, and no honest run reaches it.
- The associated data of a ratchet message is the header value, not its bytes; RatchetWire.WireRoundTrip is why the two stand for each other.
- Ring.Sign: says nothing when the signer's key is not at its position, because the code does not check it either.
- Randomness, clocks, failing sends and the outcome of rate checks are parameters of the steps; JSON, base64, URL and key-format parsing is reduced to its success or failure.
- Strings are their UTF-8 bytes: the decoder's dropping of a leading byte order mark is not modelled.
- Numbers of JavaScript are integers: non-integer arguments and sums above 2^53 are not modelled.
- Chat.Convergence: says nothing of a reaction to an id nobody has used, because ids are random and such a reaction names no message.
- Chat: timestamps, replies, attachments and delivery status are carried along by the code without affecting the rest.
- Enrollment tickets: a MAC verifies exactly on the tickets minted here.
- Lease and ConvLog handlers run without interleaving, as a Durable Object's synchronous storage lets them.
- A truncated envelope is not modelled for `unseal`, because the symbolic ciphertext has no prefix.
- ConvLog.ConvLogDO.HandleSubscribe: a failing backlog frame ends the request as an error while the socket stays attached, the model's reading of an uncaught exception there.
- Group messaging, the server's other objects, OPRF, proof of work, OHTTP transport, device linking and the user interface: not part of this model.
