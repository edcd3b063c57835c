# Private token balance attestation: a verified model

The system proves "this private account holds at least N" without revealing the account, and gates actions on
that proof. This project models its hand-written parts in Dafny and proves what they are for:

- **The attestation** (`Preimages`, `Attestation`, `Merkle`): what is hashed, the Merkle fold, the predicate shared by
  the guest and the chained program, and what an accepted attestation says about a commitment tree and the accounts in it.
- **The verifiers and the deep gate** (`Verifier`, `Chain`): `check_gate`, `verify_credential` and `gated_check`, and the
  gate as a protocol on a ledger that other programs change too. The main results say what a marker account means in
  every reachable state, that it stays, and that each nullifier, floor and context is accepted at most once.
- **The consumers** (`FirstWins`, `Accounts`, `Governance`, `ChatGate`, `PremiumFeatures`): classes whose methods are proved
  equal to specification functions, the state after any run of calls in closed form, when the order of the calls matters,
  and how many nullifiers one account can use.
- **The transport** (`Transport`, `TransportProtocol`): the shared map of channels as a class, and as a state machine in
  which threads interleave between looking a topic up and using its channel.
- **The sequencer client and the builders** (`SequencerClient`, `ProofJson`, `WitnessWords`, `Builder`): the derived root,
  membership-proof JSON, the witness as risc0 words, the SDK's demo requests.
- **The codecs** (`Base64`, `Base58`), over `Bits`, `Positional`, `ByteStrings` and `Sequences`.

## How it is modelled

SHA-256 is an arbitrary function from byte strings to 32 bytes, so every theorem holds for every hash. What is hashed is
a value of `Preimages.Preimage`, and `Preimages.SerialisedInjective` shows that its bytes determine it; methods work on
the bytes (`OnBytes(sha)`), theorems on the values; `Verifier.Libraries` carries both forms. Where security rests on collision resistance, the conclusion holds
*or* two different values, each from a named finite set (`Merkle.FoldInputs`, `Merkle.TreeInputs`, `Merkle.HoldingInputs`,
`Chain.PolicyInputs`), have the same digest; for the Merkle tree `Merkle.Disagreement` computes the two. secp256k1, receipt
verification and the two deserialisers are arbitrary functions gathered in `Verifier.Libraries`. Panics are error results.
Machine integers are ranges, and shifts, masks and wrap-around are written out; the vote counters wrap, as release builds
of the workspace make them do.

A private account's balance is what the ledger holds when the gate runs. Of the chain the model assumes only that a claim
needs an unowned account and sets its owner, and that other programs neither take an owned account over nor claim one in
the gate's name (`Chain.Allowed`).

## Where documents and code differ

The code is followed in each case.

- The header of the chained attestation program says the caller's PDA is seeded by the nullifier
  (`crates/attestation-circuit/methods/guest-lez/src/bin/attestation_lez.rs:53-59`); the deep gate seeds it by the gate tag.
- The chat gate's comment, that a single attestation joins exactly once, holds (`ChatGate.AdmitAfterRun`). One vote or one
  membership per account does not: `docs/limitations.md:138-146` grants that an account may come back under another
  presenter key. `Governance.CountsIffNewKey` and `ChatGate.AdmittedIffNewKey` say exactly when a further ballot or request
  of an account is accepted, `Governance.VotesPerKey` and `ChatGate.NullifiersPerKey` that an account has one used
  nullifier per key, and `Governance.OneAccountVotesTwice` and `ChatGate.OneAccountJoinsTwice` give a run each.
- `VoteError::NotEligible`, `GateError::NullifierAlreadyUsed` and `AdmissionError::WrongGroup` are declared and never returned.

## Model

| member | source | states |
|---|---|---|
| Preimages.SerialisedInjective | crates/attestation-core/src/lib.rs:95-193 | the bytes hashed for account ids, commitments, nullifiers, gate tags, challenges, PDAs, Merkle leaves and nodes determine their kind and every field: no two different ones coincide |
| Preimages.CollideOnBytes | crates/attestation-core/src/lib.rs:95-193 | two values collide exactly when the two different byte strings hashed for them do |
| Preimages.LayoutIff | crates/attestation-core/src/lib.rs:95-193 | a byte string is hashed for a value exactly when each prefix text, field and number stands at its place, numbers least significant byte first |
| ByteStrings.WordByteAt | crates/attestation-core/src/lib.rs:117-119 | the words of a program id are hashed four bytes each, least significant first |
| Positional.DigitCountsPower | crates/attestation-core/src/lib.rs:100 | the i-th little-endian byte counts 256 to the i |
| Attestation.DeriveAccountId | crates/attestation-core/src/lib.rs:95-104 | the filled 80-byte buffer hashes to the account id |
| Attestation.ComputeCommitment | crates/attestation-core/src/lib.rs:108-126 | the incremental hasher, word by word, computes the commitment |
| Attestation.FoldMerklePath | crates/attestation-core/src/lib.rs:130-147 | the loop equals the leaf-to-root recursion for paths of any length |
| Attestation.FoldTop | crates/attestation-core/src/lib.rs:130-147 | the fold seen from the root: the last sibling joins on the side of the top index bit |
| Attestation.FoldIndexLaw | crates/attestation-core/src/lib.rs:130-147 | the fold depends only on the index modulo 2^length |
| Attestation.Attest | crates/attestation-core/src/lib.rs:240-276 | the calls and assertions decide anchoring first, then balance, and yield the nullifier |
| Attestation.GuestMain | crates/attestation-circuit/methods/guest/src/bin/attestation.rs:29-69 | the second copy commits exactly when the shared predicate holds, with its nullifier, whatever nullifier the stub held, and aborts for the same reason |
| Attestation.NullifierIdentifies | docs/limitations.md:125-146 | two presentations share a nullifier exactly when presenter key, context and account agree, collisions apart |
| Merkle.LeafCount | crates/attestation-core/src/lib.rs:64-68 | a perfect tree of depth d has 2^d positions, so an index modulo 2^d names one |
| Merkle.PathFoldsToRoot | crates/sequencer-client/src/lib.rs:183-200 | completeness: any position's sibling path folds from its value to the root |
| Merkle.FoldSound | crates/attestation-core/src/lib.rs:130-147 | soundness: a path folding to the root has the tree's depth, starts at the value at the index and is that position's own path, or the computed walk exhibits a collision; shorter and longer paths included |
| Merkle.AttestCharacterised | crates/attestation-core/src/lib.rs:240-276 | against a tree's root, attest succeeds if and only if the witness commits to the value at its index with that position's path and has the balance, is refused as not anchored if and only if value or path are not the tree's, and yields the nullifier of key, context and account; collisions apart |
| Merkle.AttestedAccountIsReal | crates/attestation-core/src/lib.rs:226-276 | an accepted attestation against the accounts' own root names an account of the set in every field, holding at least the threshold |
| Verifier.ChallengeBindsJournal | crates/verifier-offchain/src/lib.rs:54-67 | equal challenge digests mean the same nonce and journal, or those two inputs collide |
| Verifier.PresenterIff | crates/verifier-program/src/signature.rs:24-37 | a presenter is accepted if and only if key and signature parse and the signature verifies over the challenge for the nonce and every journal field |
| Verifier.CheckGateIff | crates/verifier-program/src/lib.rs:44-56 | check_gate accepts exactly a journal for the context, with at least the threshold, whose presenter signature verifies |
| Verifier.CheckGateReason | crates/verifier-program/src/lib.rs:44-56 | a refusal names the first check that fails |
| Verifier.CredentialIff | crates/verifier-offchain/src/lib.rs:84-100 | verify_credential returns a journal if and only if the receipt verifies, decodes to it, and it is for the context, at least the threshold and signed |
| Verifier.CredentialReason | crates/verifier-offchain/src/lib.rs:45-100 | a receipt that does not verify, one without a journal and a journal the kernel refuses are told apart, in that order |
| Verifier.GateAcceptsIff | crates/verifier-program-spel/methods/guest-deep/src/bin/attestation_verifier_deep.rs:151-316 | the gate accepts if and only if the signature verifies over the arguments and nullifier, presenter, owner, anchored balance, floor, context and tag are all bound to the decoded witness, and then chains to that witness's attestation |
| Verifier.GateReason | crates/verifier-program-spel/methods/guest-deep/src/bin/attestation_verifier_deep.rs:168-298 | a refused call gets the code, 3001 to 3012, of the first check that fails |
| Verifier.VerifiersAgree | crates/verifier-program/src/lib.rs:44-56 | check_gate, verify_credential and the gate's first checks accept and reject the same presentations |
| Chain.OwnedIffClaimed | crates/verifier-program-spel/methods/guest-deep/src/bin/attestation_verifier_deep.rs:67-76 | in every reachable state the verifier owns exactly the accounts accepted transactions claimed |
| Chain.AcceptedComposes | crates/verifier-program-spel/methods/guest-deep/src/bin/attestation_verifier_deep.rs:199-315 | an accepted step's arguments are signed by its presenter, and its chained attestation is of its own witness and nullifier, with witness balance >= threshold >= floor |
| Chain.SerialisedWitnessDecides | crates/verifier-program-spel/methods/guest-deep/src/bin/attestation_verifier_deep.rs:199-315 | end to end: a transaction carrying a witness's serialised words is applied if and only if the marker is in order, the signature verifies over its arguments, they are bound to that witness and the witness satisfies the statement |
| Chain.MarkerMeaning | crates/verifier-program-spel/methods/guest-deep/src/bin/attestation_verifier_deep.rs:58-72 | in every reachable state, a verifier-owned account at a policy's address means an earlier signed step enforced exactly that nullifier, floor and context on the attested, natively owned account holding the floor; or the policies' inputs collide |
| Chain.MarkerPersists | crates/verifier-program-spel/methods/guest-deep/src/bin/attestation_verifier_deep.rs:67-72 | conversely the marker of an accepted step is verifier-owned in all later states |
| Chain.AtMostOnce | crates/verifier-program-spel/methods/guest-deep/src/bin/attestation_verifier_deep.rs:74-76 | no run accepts the same nullifier, floor and context twice |
| Chain.ProofAndLedgerAgree | crates/verifier-program-spel/methods/guest-deep/src/bin/attestation_verifier_deep.rs:253-277 | when the root is that of the real commitment set, the balance proved is the balance the gate read |
| FirstWins.EarliestDecides | integrations/premium-features/src/lib.rs:78-82 | of the valid requests for a nullifier the earliest decides |
| FirstWins.KeysPermute | integrations/governance-gate/src/lib.rs:53-55 | which nullifiers are used does not depend on the order of requests |
| FirstWins.StableIffNoClash | integrations/premium-features/src/lib.rs:78-82 | every order of a run has the same outcome if and only if no two valid requests give one nullifier different values |
| FirstWins.ValuesStableIff | integrations/chat-gate/src/lib.rs:71-74 | every order gives the same set of values if and only if each value is the only one of some nullifier |
| Accounts.SameNullifier | docs/limitations.md:125-131 | two accepted journals of a run share a nullifier exactly when account and presenter key agree, collisions apart |
| Accounts.OneNullifierPerKey | docs/limitations.md:133-141 | an account has exactly as many used nullifiers as presenter keys |
| Accounts.HoldersApart | docs/limitations.md:125-131 | different accounts never share a used nullifier |
| Accounts.OneEachIffOneKey | docs/limitations.md:138-146 | no account has two used nullifiers if and only if every account keeps to one key |
| Governance.ProposalState.CastVote | integrations/governance-gate/src/lib.rs:36-63 | result and new state, as the specification of one vote says |
| Governance.GateAcceptsValid | integrations/governance-gate/src/lib.rs:44-51 | the gate as called accepts exactly the attestations for governance, of at least the stake, whose presenter signature verifies for the ballot's nonce |
| Governance.CastAfterRun | integrations/governance-gate/src/lib.rs:44-62 | after any run a ballot counts exactly when it is valid, that is signed, for governance and of at least the stake, and its nullifier had no valid ballot before; a refusal gives the gate's reason and every failure changes nothing |
| Governance.TallyOfRun | integrations/governance-gate/src/lib.rs:27-63 | after any run the used set is the nullifiers of valid ballots, and each counter the number of nullifiers whose first valid ballot made that choice, modulo 2^64 |
| Governance.VotesAddUp | integrations/governance-gate/src/lib.rs:53-61 | yes + no equals the number of used nullifiers if and only if neither counter has wrapped |
| Governance.TurnoutIsVoters | integrations/governance-gate/src/lib.rs:44-55 | a nullifier is used exactly when some ballot of the run with it is signed, for governance and of at least the stake |
| Governance.TurnoutPermutes | integrations/governance-gate/src/lib.rs:53-55 | the used set is the same for every order of the ballots |
| Governance.OrderIrrelevantIffNoConflict | integrations/governance-gate/src/lib.rs:53-61 | the whole result is independent of order if and only if no nullifier has valid ballots both ways |
| Governance.CountsIffNewKey | integrations/governance-gate/src/lib.rs:53-55 | after any run an account's next ballot counts if and only if it is gate-valid and no gate-valid ballot of the account was under the same key |
| Governance.VotesPerKey | integrations/governance-gate/src/lib.rs:53-61 | an account has as many votes as keys in gate-valid ballots, and no account votes twice if and only if each keeps to one key |
| Governance.OneAccountVotesTwice | docs/limitations.md:143-146 | a run in which two ballots proved by one account's witness both count |
| ChatGate.GroupContextBinds | integrations/chat-gate/src/lib.rs:30-35 | two groups share a context only by a hash collision |
| ChatGate.VerifiedIffValid | integrations/chat-gate/src/lib.rs:56-69 | the verifier as called accepts exactly the receipts that verify to a signed journal for this group of at least the stake |
| ChatGate.GroupRoster.Admit | integrations/chat-gate/src/lib.rs:56-76 | result and new roster, as the specification of one admission says |
| ChatGate.RosterOfRun | integrations/chat-gate/src/lib.rs:56-76 | after any run the members are the keys of the first verified request of each nullifier |
| ChatGate.AdmitAfterRun | integrations/chat-gate/src/lib.rs:62-76 | after any run a request is admitted, with its journal, exactly when it is valid and no valid request before had its nullifier; every failure changes nothing |
| ChatGate.MemberHasNullifier | integrations/chat-gate/src/lib.rs:71-75 | every member was admitted by a request whose receipt verified to a signed journal for this group, of at least the stake, and whose nullifier is used |
| ChatGate.FewerMembers | integrations/chat-gate/src/lib.rs:71-75 | never more members than used nullifiers |
| ChatGate.OrderIrrelevantIff | integrations/chat-gate/src/lib.rs:71-75 | the roster is independent of the order of requests if and only if every verifying key is the only one of some nullifier |
| ChatGate.GenuineOrderIrrelevant | integrations/chat-gate/src/lib.rs:71-75 | with proved journals and no collision the order never matters |
| ChatGate.AdmittedIffNewKey | integrations/chat-gate/src/lib.rs:62-74 | after any run an account's next request is admitted if and only if it verifies and no verified request of the account was under the same key |
| ChatGate.NullifiersPerKey | integrations/chat-gate/src/lib.rs:71-74 | an account uses as many nullifiers as keys in verified requests, and none uses two if and only if each keeps to one key |
| ChatGate.OneAccountJoinsTwice | docs/limitations.md:133-141 | a run in which one account joins under two keys |
| PremiumFeatures.FeatureService.Activate | integrations/premium-features/src/lib.rs:62-83 | result and new sessions, as the specification of one activation says |
| PremiumFeatures.VerifiedIffValid | integrations/premium-features/src/lib.rs:33-77 | the verifier as called accepts exactly the receipts that verify to a signed journal with the tier's own context text and minimum: 10,000 for Pro, 1,000,000 for Enterprise |
| PremiumFeatures.TierForAfterRun | integrations/premium-features/src/lib.rs:85-87 | after any run the tier reported for a nullifier is that of its first verified request, and none exactly when no request with it verified |
| PremiumFeatures.OrderIrrelevantIffNoClash | integrations/premium-features/src/lib.rs:78-82 | the sessions are independent of the order of requests if and only if no nullifier verifies for two tiers |
| PremiumFeatures.SessionsOfRun | integrations/premium-features/src/lib.rs:62-83 | after any run the sessions are, per nullifier, the tier of its first verified request |
| PremiumFeatures.ActivateAfterRun | integrations/premium-features/src/lib.rs:68-83 | after any run a request activates, with its journal, exactly when it is valid for its tier and no valid request before had its nullifier |
| PremiumFeatures.SessionsStay | integrations/premium-features/src/lib.rs:78-81 | no later request removes a session or changes its tier |
| PremiumFeatures.SessionEarned | integrations/premium-features/src/lib.rs:68-81 | every session comes from a receipt that verified to a signed journal with that nullifier, that tier's context and at least that tier's minimum |
| PremiumFeatures.TierContextBinds | integrations/premium-features/src/lib.rs:43-52 | two tiers share a context only by a hash collision |
| Transport.InMemoryTransport.ChannelFor | crates/delivery-transport/src/inmem.rs:22-30 | makes a topic's channel on first use, never replaces one, leaves every queue alone |
| Transport.InMemoryTransport.Send | crates/delivery-transport/src/inmem.rs:35-40 | appends to the topic's queue and no other |
| Transport.InMemoryTransport.Recv | crates/delivery-transport/src/inmem.rs:42-49 | one attempt to receive takes the topic's first message, or waits, and touches no other topic |
| TransportProtocol.RunKeepsInv | crates/delivery-transport/src/inmem.rs:22-50 | under every schedule distinct topics have distinct channels, calls hold the mapped channel, one thread at most holds a receiver, and pushed = popped + queued |
| TransportProtocol.PoppedIsPrefix | crates/delivery-transport/src/inmem.rs:35-49 | what was received on a topic is a prefix of what was pushed on it |
| TransportProtocol.SendBegins | crates/delivery-transport/src/inmem.rs:35-37 | a send can begin whenever its thread is free, on exactly the caller's topic with exactly the caller's envelope |
| TransportProtocol.ReceiveBegins | crates/delivery-transport/src/inmem.rs:42-43 | a receive can begin whenever its thread is free, on exactly the caller's topic |
| TransportProtocol.CallKept | crates/delivery-transport/src/inmem.rs:35-49 | a call keeps topic and envelope until its own thread ends it |
| TransportProtocol.SentIsPushedOrInFlight | crates/delivery-transport/src/inmem.rs:35-40 | under every schedule, of every envelope as many are pushed on a topic or on their way there as callers have sent on it |
| TransportProtocol.ReceivedOrReceiving | crates/delivery-transport/src/inmem.rs:42-49 | under every schedule each receive begun on a topic has returned one of its messages or is still in progress |
| TransportProtocol.StepRefinesFifo | crates/delivery-transport/src/inmem.rs:22-50 | each step refines one FIFO queue per topic and leaves the other topics alone |
| TransportProtocol.NeverNone | crates/delivery-transport/src/inmem.rs:36-48 | a receive never returns None and a send never fails while a call is in progress |
| TransportProtocol.ReceiveProceeds | crates/delivery-transport/src/inmem.rs:42-49 | in every reachable state with a receive in progress and a message queued on its topic, one or two steps of the receivers on that topic return the first message |
| TransportProtocol.ChannelStays | crates/delivery-transport/src/inmem.rs:22-30 | a topic's channel is never removed or replaced until the transport is dropped |
| SequencerClient.FoldMembershipProof | crates/sequencer-client/src/lib.rs:474-491 | equals the attestation's fold from the hashed commitment |
| SequencerClient.ComputeDigestForPath | docs/recon.md:134-158 | the 64-byte-buffer form computes the same root |
| SequencerClient.RootIndependent | crates/sequencer-client/src/lib.rs:201-222 | every included commitment derives the same root, and the freshness check accepts exactly that root |
| SequencerClient.CheckedCredentialIsBacked | crates/sequencer-client/src/lib.rs:192-216 | a verified credential whose root is current is about a real account holding at least the minimum, given that the receipt proves the guest's statement |
| ProofJson.DecodeHashArray | crates/sequencer-client/src/lib.rs:333-365 | all siblings, or the error of the first that does not decode |
| ProofJson.DecodeIffDenotes | crates/sequencer-client/src/lib.rs:272-365 | a value decodes to a proof if and only if it denotes it as tuple or object |
| ProofJson.PrintedProofDecodes | crates/sequencer-client/src/lib.rs:272-365 | any proof printed as tuple or object, each sibling as bytes or hex, decodes to itself |
| ProofJson.BadSiblingFails | crates/sequencer-client/src/lib.rs:272-365 | one sibling that is not a 32-byte hash makes the whole decode fail, whether the proof is a tuple or an object |
| ProofJson.FirstBadSibling | crates/sequencer-client/src/lib.rs:333-365 | a list is refused for its first sibling that is not a 32-byte hash, with that sibling's index and what is wrong with it |
| ProofJson.DecodeReason | crates/sequencer-client/src/lib.rs:272-325 | a value is refused for the first thing wrong with its shape |
| ProofJson.ListReason | crates/sequencer-client/src/lib.rs:272-325 | a value of the right shape is refused for its list of siblings |
| WitnessWords.PushLimbs | scripts/build-privacy-gated-check.py:96-100 | shifts and masks append the 32-bit limbs |
| WitnessWords.Risc0Words | scripts/build-privacy-gated-check.py:82-112 | the serialiser writes the fields in order |
| WitnessWords.WordsLaid | scripts/build-privacy-gated-check.py:82-112 | which field, limb, length word and sibling stands at which place of the words |
| WitnessWords.WitnessRead | crates/attestation-core/src/lib.rs:45-69 | reading in field order gives the witness back, consuming exactly 87 + 32 * length words |
| WitnessWords.WordsInjective | scripts/build-privacy-gated-check.py:82-112 | no witness's words are a prefix of another's |
| Builder.PrecomputeLeaf | crates/sdk/src/lib.rs:280-294 | the host's commitment and leaf are the guest's |
| Builder.SyntheticMerklePath | crates/sdk/src/lib.rs:298-312 | one sibling per level and the root the fold gives |
| Builder.IntoRequest | crates/sdk/src/lib.rs:334-359 | for every fixture and depth the attestation of the request succeeds exactly when balance >= threshold |
| Builder.ProveWithKind | crates/sdk/src/lib.rs:221-272 | the committed journal carries the requested statement and the host's own nullifier |
| Base64.Alphabet | crates/delivery-transport/src/waku_rest.rs:142 | the table is Table 1 of RFC 4648 |
| Base64.Encode | crates/delivery-transport/src/waku_rest.rs:141-153 | the chunk loop regroups the octets' bits by six and pads, as section 4 of RFC 4648 says |
| Base64.EncodeChunk | crates/delivery-transport/src/waku_rest.rs:145-150 | one turn of the loop writes the four characters that section 4 of RFC 4648 gives the chunk alone |
| Base64.EncodedAppend | crates/delivery-transport/src/waku_rest.rs:144-151 | after whole groups of three, encoding is chunk by chunk |
| Base64.InverseTable | crates/delivery-transport/src/waku_rest.rs:157-160 | the index table inverts the alphabet and is 255 elsewhere |
| Base64.Decode | crates/delivery-transport/src/waku_rest.rs:155-180 | the unmasked, overflowing accumulator loop regroups the sextets' bits by eight, or reports the first invalid character |
| Base64.NextCharacter | crates/delivery-transport/src/waku_rest.rs:164-173 | the next character is skipped, is the first invalid one, or adds its six bits to the pending ones |
| Base64.BitsMeaning | crates/delivery-transport/src/waku_rest.rs:164-178 | the bits gathered character by character are those of all the sextets of the text, and there are none if one is invalid |
| Base64.ShiftIn | crates/delivery-transport/src/waku_rest.rs:172-173 | shifting a sextet into the accumulator appends its bits to the pending ones |
| Base64.ShiftOut | crates/delivery-transport/src/waku_rest.rs:174-177 | shifting an octet out moves the oldest eight pending bits to the output |
| Base64.RoundTrip | crates/delivery-transport/src/waku_rest.rs:141-180 | decoding an encoding gives back every byte string |
| Base64.DecodeDomain | crates/delivery-transport/src/waku_rest.rs:164-180 | decoding succeeds exactly when every byte is a letter, digit, '+', '/', '=' or ASCII white space, and k sextets give 6k/8 octets rounded down |
| Base64.FirstErrorReported | crates/delivery-transport/src/waku_rest.rs:164-171 | the error names the first byte that is none of these |
| Base64.SkippedIgnored | crates/delivery-transport/src/waku_rest.rs:164 | '=' and the five ASCII white-space bytes may be inserted or removed anywhere |
| Base64.ReencodeIffCanonical | crates/delivery-transport/src/waku_rest.rs:141-180 | encoding undoes decoding on the canonical texts of section 3.5 of RFC 4648 and on no others |
| Base58.Alphabet | crates/cu-bench/src/main.rs:134 | the table |
| Base58.MulAddDigits | crates/cu-bench/src/main.rs:136-147 | one pass over the digits of n gives the digits of 256 * n + byte |
| Base58.AddByte | crates/cu-bench/src/main.rs:136-147 | the in-place carry loop computes that pass |
| Base58.Encode | crates/cu-bench/tests/real_chain_attestation.rs:62-82 | the in-place form writes a '1' per leading zero byte and the canonical base-58 digits of the big-endian value, for input of any length |
| Base58.EncodeByDivmod | scripts/verify-onchain-proof.sh:193-196 | the divmod form gives the same text |
| Base58.Lossless | crates/cu-bench/src/main.rs:132-153 | a decoder recovers every byte string, leading zeros included |
| Base58.Injective | crates/cu-bench/src/main.rs:132-153 | different byte strings have different texts |
| Base58.IdLength | crates/cu-bench/src/main.rs:135-152 | for 32 bytes at most 44 digits are ever held and the text is 32 to 44 characters |

## Left out

- SHA-256, ECDSA, DER and SEC1 parsing, Risc0 receipts and serde: libraries, kept as arbitrary functions.
- The soundness of the proof system: `SequencerClient.CheckedCredentialIsBacked` takes the witness behind a receipt as given.
- LEZ's privacy circuit, nonces, history of roots and resizing tree: the chain model keeps owners, balances and claims, and
  the commitment set is a perfect tree.
- The SPEL framework's dispatch: its account checks appear only as the conditions of `Chain.Accepts`.
- JSON text, HTTP, the Waku REST calls and envelopes: I/O around the modelled codecs. A JSON number beyond 64 bits is a float.
- Topic percent-encoding, hex words of instructions, error classification, the shallow and v2 guests: easy beside what is here.
- Error message texts: errors are constructors, carrying the index or character the message would name.
- Transport.InMemoryTransport.Recv: one attempt; that a blocked call is woken later is scheduling and is not stated.
- TransportProtocol.ReceiveProceeds: says that a receive is never stuck; that the scheduler lets it run, and which of several
  receivers is served, is not stated.
- WitnessWords.WitnessRead: the reader follows the field order; risc0's own deserialiser is a library, which
  `Chain.SerialisedWitnessDecides` takes to read serialised witnesses in that order.
- Clocks, cycle counts, randomness, nonce freshness, the Qt bridge and the user interface.
