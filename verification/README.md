# MPC signing service: verified model

A Dafny model of the signing core of the MPC signing service, with proofs of
what it promises for every threshold, every subset of nodes, every random
choice, every history of ceremonies and outages, and every interleaving of
requests.

## What is modelled

**Threshold engine.** `Curve` is a record of operations, as the trait is; its
laws are `FieldLaws`, `GroupLaws` and `SignLaws`. The theorems hold for every
curve that meets them, strict (secp256k1: zero has no inverse, the identity does
not parse, a zero secret does not sign) or lenient (edwards25519). `ModCurve.dfy`
proves the laws for integers modulo every prime, with inverses from Bezout, so
they are consistent; `Signing.dfy` proves the edwards25519 scheme meets the
signing law. Random scalars are inputs. `Shamir.dfy` has the loops of the
sharing code; `Poly.dfy` and `Lagrange.dfy` the algebra behind them. `Cluster.dfy`
is the cluster with its node objects, each method proved equal to a transition
of `ClusterSpec.dfy`; `ClusterRuns.dfy` proves what holds over all runs.
`Engine.dfy` and `EngineClass.dfy` do the same for the two-cluster engine.
`MixedEpochs.dfy`, `TornRefresh.dfy` and `RacedRefresh.dfy` treat ceremonies that
overlap. `EndToEnd.dfy` puts the engine under the request pipeline.

**Request pipeline.** Each SignTx handler is a program counter over the clock,
the used-token store, the sessions and a log (`Pipeline.dfy`). Reading the clock
and using the token are separate steps, so other handlers and prunes may come
between them. `SingleUse.dfy`, `Gate.dfy` and `Sessions.dfy` prove safety over
every interleaving. `Decision.dfy` says what is decided, as a table: the reasons
to refuse in order, with their answers, stated on the request, the token's
contents, the wallet's record and the clock. `Service.dfy` is the handler as code,
proved to be its steps taken without interruption and to settle each request as
the table says.

**Stateful helpers.** `AuditEmitter.dfy` (bounded queue, bounded retry) and
`ShareStore.dfy` with `BigEndian.dfy` (byte-level tags and masks; wrapped shares refine a plain map).

## What the proofs say about the code

- Reconstruction is documented to return nothing on duplicate indices. It does
  so exactly on secp256k1 (`ReconstructFailure`); on edwards25519 a duplicate is
  not reported (`RepeatedIndexUnreported`). Cluster indices 1..n never repeat.
- Fewer than t shares are expected to combine to another scalar. For t - 1 shares
  that is so exactly when the leading coefficient is not zero (`BelowThreshold`).
- Key generation stores shares before the aggregation that can fail. With an id
  already in use and a refused dealer secret, the old key is overwritten;
  `KeygenGood` gives the exact condition, and `ReuseBreaksKey` what follows from a
  new cluster: signing panics, or signs for a key that is not the recorded one
  (`ReuseExample` is the smallest case). The engine draws fresh ids.
- A signing round may overlap a refresh, since no lock spans the share updates.
  It is sure to use the group secret exactly when the t nodes it combines were
  all read on the same side of the refresh (`TornExact`, and `ScheduleExact` from
  the order of reads and writes); otherwise the dealers' choices can make it use
  any scalar (`TornReachesAll`), and every pattern of sides occurs in some order
  (`EveryPatternSeen`).
- Two refreshes at once can lose updates. Which patterns an interleaving leaves is
  exact (`SurvivorsExact`), and t nodes still combine to the secret for every pair
  of zero-sharings exactly when each refresh survived at all of them or at none
  (`RaceExact`); `LostUpdate` is a case with two nodes. The run theorems take each
  ceremony as one step.
- A pruned token is said to be stopped by the freshness check. That holds only
  with a margin: freshness lasts `max_skew` past expiry while pruning drops the
  entry at expiry. `ServiceAcceptsOnce` needs the margin against the clock and
  against every clock reading in hand, and that arriving tokens with one id have
  one expiry; `MarginNeeded` shows that each part of the margin is exact.
- Metadata reports EVM for a Bitcoin key and Solana for an Aptos or Sui key
  (`MetadataChain`).
- Key ids containing `:` can share a slot with another pair (`SlotCollision`).
  Over a set of pairs the store is a map exactly when none runs through another's
  separator (`RefinementExact`), which holds of all colon-free ids (`PlainApart`).
- A share's tag covers slot and ciphertext joined without a separator, so it does
  not fix where the node id ends. `RelabelExact` says exactly which relabelled
  shares are accepted, and `ShiftedAccepted` shows them restored. Keystream blocks
  come from the same key: `BlockIsTag` says exactly when one is a tag, and
  `BlockAccepted` gives a share that is accepted though nobody wrapped it.

## Model

| member | source | states |
|---|---|---|
| Shamir.EvalAll | src/engine/threshold/shamir.rs:27-39 | node k receives the polynomial's value at k, for k = 1..n |
| Polynomials.EvalIsPowerSum | src/engine/threshold/shamir.rs:31-36 | the Horner loop computes c0 + c1 x + c2 x^2 + ... |
| Shamir.Split | src/engine/threshold/shamir.rs:11-19 | the shares are those of a polynomial with t coefficients whose constant term is the secret |
| Shamir.SplitZero | src/engine/threshold/shamir.rs:23-25 | the shares are those of a polynomial with constant term zero |
| Shamir.Fraction | src/engine/threshold/shamir.rs:47-58 | the inner loop yields the numerator and denominator of a share's Lagrange weight at zero |
| Shamir.Reconstruct | src/engine/threshold/shamir.rs:43-64 | the nested loops return the weighted sum at zero, or nothing when a denominator has no inverse |
| Shamir.ReconstructFailure | src/engine/threshold/shamir.rs:41-64 | nothing is returned exactly on the strict curve with a repeated index |
| Shamir.RepeatedIndexUnreported | src/engine/threshold/curve.rs:146-148 | on the lenient curve two copies of a share combine to zero instead of failing |
| Shamir.Interpolation | src/engine/threshold/shamir.rs:41-64 | any t or more shares with distinct indices, in any order, give back the secret |
| Shamir.SplitThenReconstruct | src/engine/threshold/shamir.rs:11-64 | dealing and combining any selection of at least t shares returns the secret |
| Shamir.Hiding | src/engine/threshold/shamir.rs:11-39 | t - 1 shares fit every secret, each by exactly one polynomial |
| Shamir.BelowThreshold | src/engine/threshold/shamir.rs:84-91 | t - 1 shares combine to the secret exactly when the polynomial's leading coefficient is zero |
| MixedEpochs.MixedReconstruct | src/engine/threshold/cluster.rs:192-219 | a mix of old and new shares combines to the secret plus the refreshed nodes' weighted deltas |
| MixedEpochs.UnmixedReconstruct | src/engine/threshold/cluster.rs:192-219 | an all-old or all-new set always combines to the secret |
| MixedEpochs.MixedReachesAll | src/engine/threshold/cluster.rs:192-219 | a proper mix of t shares can be made to combine to any scalar by some zero-sharing |
| MixedEpochs.RacedReconstruct | src/engine/threshold/cluster.rs:216-219 | given which nodes kept which of two refreshes, shares combine to the secret plus each refresh's drift over the nodes that kept it |
| MixedEpochs.ProactiveHiding | src/engine/threshold/cluster.rs:192-194 | over any number of refreshes, t - 1 shares seen in each epoch fit every secret, each by exactly one polynomial and one zero-sharing per refresh |
| MixedEpochs.AccountExists | src/engine/threshold/cluster.rs:192-194 | that one way exists for every secret |
| TornRefresh.WatchOutcome | src/engine/threshold/cluster.rs:216-219 | in any interleaving of the refresh's writes with a round's reads, what the round read of each node follows from the order alone |
| TornRefresh.EveryPatternSeen | src/engine/threshold/cluster.rs:216-219 | each pattern of nodes read before or after their update is shown by some order of the refresh's writes and the round's reads |
| TornRefresh.TornSign | src/engine/threshold/cluster.rs:216-222 | a signing round overlapping a refresh uses the secret plus the drift over the nodes already refreshed |
| TornRefresh.TornReachesAll | src/engine/threshold/cluster.rs:171-219 | when the combined nodes were read on different sides, some random choices of the n dealers make the round use any given scalar |
| TornRefresh.TornExact | src/engine/threshold/cluster.rs:171-219 | the round uses the group secret for all random choices exactly when the t combined nodes were read on one side |
| TornRefresh.ScheduleExact | src/engine/threshold/cluster.rs:171-219 | the same read off the interleaving of reads and writes |
| RacedRefresh.RaceOutcome | src/engine/threshold/cluster.rs:216-219 | two refreshes that read and write each node in any interleaving leave each share with exactly the updates that survive |
| RacedRefresh.SurvivorsExact | src/engine/threshold/cluster.rs:216-219 | the patterns left by finished interleavings are exactly those in which each node keeps at least one update |
| RacedRefresh.RacedExact | src/engine/threshold/cluster.rs:216-219 | t nodes combine to the secret for all pairs of zero-sharings exactly when each refresh was kept by all of them or by none |
| RacedRefresh.RaceExact | src/engine/threshold/cluster.rs:171-219 | the same read off the interleaving of the two refreshes |
| RacedRefresh.LostUpdate | src/engine/threshold/cluster.rs:216-219 | a finished interleaving over two nodes and two zero-sharings after which the nodes no longer combine to the secret |
| Signing.EdSignVerifies | src/engine/threshold/curve.rs:171-190 | a signature with any nonce starts with that nonce's point and passes the equation of section 5.1.7 of RFC 8032 under the secret's public key |
| Signing.EdDsaLawful | src/engine/threshold/curve.rs:119-205 | the edwards25519 scheme over a lawful group meets every law of the curve abstraction |
| ModCurves.LenientCurveExists | src/engine/threshold/curve.rs:17-42 | the laws hold of integers modulo every prime, lenient form |
| ModCurves.StrictCurveExists | src/engine/threshold/curve.rs:17-42 | the laws hold of integers modulo every prime, strict form |
| Dkg.ShareSumIsEval | src/engine/threshold/cluster.rs:144-153 | the dealer-by-node accumulation leaves node i with the summed polynomial at i |
| Dkg.SumPolySecret | src/engine/threshold/cluster.rs:144-153 | the summed polynomial shares the sum of the dealers' secrets |
| Dkg.SumPolyCoefficients | src/engine/threshold/cluster.rs:144-153 | every coefficient of the summed polynomial is the sum of the dealers' coefficients |
| Dkg.AloneSums | src/engine/threshold/cluster.rs:208-215 | every sharing of zero is the sum of some n dealers' sharings of zero |
| Dkg.AggregateIsSum | src/engine/threshold/curve.rs:88-95 | aggregated commitments are the key of the summed secret; failure exactly on a zero dealer secret on the strict curve |
| Clusters.Node.PutShare | src/engine/threshold/cluster.rs:57-62 | the node holds the share under the key and nothing else changes |
| Clusters.Cluster.Create | src/engine/threshold/cluster.rs:83-97 | an error exactly when t is zero or above n, otherwise n online nodes indexed 1..n |
| Clusters.Cluster.SetOnline | src/engine/threshold/cluster.rs:112-116 | sets one node's flag; an unknown index changes nothing |
| Clusters.Cluster.SetDelay | src/engine/threshold/cluster.rs:117-122 | sets one node's delay, kept in 64 bits; an unknown index changes nothing |
| Clusters.Cluster.CountOnline | src/engine/threshold/cluster.rs:123-125 | the number of online nodes |
| Clusters.Cluster.Round | src/engine/threshold/cluster.rs:237-257 | the shares of the nodes that are online and within the timeout, in node order |
| Clusters.Cluster.Acknowledge | src/engine/threshold/cluster.rs:141-142 | one acknowledgement for each node that is online and within the timeout |
| Clusters.Cluster.SumDealings | src/engine/threshold/cluster.rs:144-153 | the in-place accumulation equals the per-node sum over dealers, with the dealers' commitments in order |
| Clusters.Cluster.SumZeroSharings | src/engine/threshold/cluster.rs:208-215 | the accumulated zero-sharings equal the per-node sum over dealers |
| Clusters.Cluster.PutAll | src/engine/threshold/cluster.rs:154-156 | every node ends with its share under the key, and nothing else changes |
| Clusters.Cluster.AddAll | src/engine/threshold/cluster.rs:216-219 | every node ends with its share plus its delta, and nothing else changes |
| Clusters.Cluster.AggregatePublic | src/engine/threshold/curve.rs:88-95 | the loop equals the sum of the decoded points, or nothing if one does not parse |
| Clusters.Cluster.Keygen | src/engine/threshold/cluster.rs:133-167 | the objects end in the state of the key generation transition, with its reply |
| Clusters.Cluster.Sign | src/engine/threshold/cluster.rs:171-190 | the reply of the signing transition, errors and panic included |
| Clusters.Cluster.Refresh | src/engine/threshold/cluster.rs:195-224 | the objects end in the state of the refresh transition; a missing share is never unwrapped |
| ClusterRuns.KeygenShared | src/engine/threshold/cluster.rs:127-156 | with every node online node i ends with the summed polynomial at i, all of whose coefficients are sums of the dealers' ones; no other share, key or flag moves |
| ClusterRuns.RefreshShared | src/engine/threshold/cluster.rs:208-219 | shares on a polynomial end on it plus the summed zero-sharings; no other share, key or flag moves |
| ClusterRuns.KeygenExact | src/engine/threshold/cluster.rs:133-167 | succeeds exactly with every node online and no refused dealer secret, with the key of the summed secret; otherwise how many nodes were online, or a failed aggregation |
| ClusterRuns.KeygenGood | src/engine/threshold/cluster.rs:154-165 | the exact condition under which key generation leaves every key consistent |
| ClusterRuns.ReuseBreaksKey | src/engine/threshold/cluster.rs:144-165 | on the strict curve, from a new cluster: a second generation of an id with a zero dealer secret and another sum fails, leaves the first key recorded, and signing then panics or signs for another key |
| ClusterRuns.ReuseExample | src/engine/threshold/cluster.rs:144-165 | with one node and dealer secrets one, then zero, the key is broken and signing panics |
| ClusterRuns.RefreshExact | src/engine/threshold/cluster.rs:195-224 | succeeds exactly with every node online and the key known, adding one epoch; otherwise nothing changes and the reply is how many nodes were online, or the unknown key; no panic |
| ClusterRuns.RefreshSecret | src/engine/threshold/cluster.rs:208-219 | refreshed shares lie on another polynomial with the same secret |
| ClusterRuns.SecretUnique | src/engine/threshold/cluster.rs:127-132 | the shares of a key determine one group secret |
| ClusterRuns.ResponderSet | src/engine/threshold/cluster.rs:237-257 | counting responders is the size of the set of nodes online and within the timeout |
| ClusterRuns.QuorumRecovers | src/engine/threshold/cluster.rs:176-188 | whichever t or more nodes respond, the same scalar is recovered |
| ClusterRuns.SignOutcome | src/engine/threshold/cluster.rs:171-190 | exact availability: below t the exact count, otherwise a signature that verifies; panic exactly on the strict curve's zero secret |
| ClusterRuns.SignExact | src/engine/threshold/cluster.rs:171-190 | the reply for every key of a consistent cluster: unknown, too few answers with their number, or the secret's signature with the nonce drawn |
| ClusterRuns.SwitchExact | src/engine/threshold/cluster.rs:112-122 | the two switches set one field of one node |
| ClusterRuns.RunGood | src/engine/threshold/cluster.rs:133-224 | in every run all shares of every key lie on one polynomial whose constant term has the recorded public key |
| ClusterRuns.Reachable | src/engine/threshold/cluster.rs:83-224 | the same for every state reachable from a new cluster |
| ClusterRuns.RunKeepsKey | src/engine/threshold/cluster.rs:192-224 | a key keeps its secret and public key for ever; its epoch counts the successful refreshes |
| ClusterRuns.Lifecycle | src/engine/threshold/cluster.rs:133-224 | from a fresh cluster through any history: signatures verify under the key that key generation returned |
| EngineRuns.EngineRunGood | src/engine/threshold/mod.rs:45-152 | in every run each key is known to the cluster of its scheme and not to the other |
| EngineRuns.EngineReachable | src/engine/threshold/mod.rs:54-152 | the same for every state reachable from a new engine |
| EngineRuns.RotateOutcome | src/engine/threshold/mod.rs:114-127 | goes through exactly when the owning cluster has every node online, keeping the key, adding one epoch and leaving the other cluster alone; otherwise nothing changes and the reply is an unknown key or an outage |
| EngineRuns.RotateShared | src/engine/threshold/mod.rs:114-127 | the owning cluster's shares move by the zero-sharings drawn for it |
| EngineRuns.DkgOutcome | src/engine/threshold/mod.rs:101-112 | by chain name, which cluster generates the key from which dealings and what it answers; the other is untouched and does not know the key |
| EngineRuns.EngineSignExact | src/engine/threshold/mod.rs:69-99 | the reply for every key and chain: unknown, denied to exactly the chains of the other curve, or served by its cluster with the nonce drawn for it |
| EngineRuns.MetadataExact | src/engine/threshold/mod.rs:129-152 | the owning cluster's record, or an unknown key |
| EngineRuns.EngineLifecycle | src/engine/threshold/mod.rs:69-152 | after any history: the original key, one epoch per successful rotation, denial across schemes, verifying signatures |
| EngineRuns.MetadataChain | src/engine/threshold/mod.rs:129-152 | metadata names the generated chain exactly for EVM and Solana |
| Engines.ThresholdEngine.Dkg | src/engine/threshold/mod.rs:101-112 | both clusters and the key map end in the state of the generation transition |
| Engines.ThresholdEngine.RotateKey | src/engine/threshold/mod.rs:114-127 | the owning cluster ends refreshed, the other untouched |
| Engines.ThresholdEngine.Sign | src/engine/threshold/mod.rs:69-99 | the engine's reply, with unknown key and scheme mismatch in order |
| Policy.SplitOnce | src/policy.rs:100 | the parts around the first dot, and nothing exactly when there is none |
| Policy.MintOpens | src/policy.rs:149-157 | opening a minted token gives back exactly its claims |
| Policy.MintedAccepted | src/policy.rs:93-157 | a minted token passes exactly when its bindings and freshness hold |
| Policy.MintedBindsPayload | src/policy.rs:117-120 | a token minted for one payload is refused for any payload with another hash |
| Policy.OpenExact | src/policy.rs:100-115 | claims come out of a token exactly when it frames them with a 64-byte signature that fits; which tokens are malformed and which are forged |
| Policy.CheckExact | src/policy.rs:100-134 | exactly which tokens are refused for which reason |
| Policy.TokenVerifier.Verify | src/policy.rs:93-140 | accepts exactly certified, approving, unused claims and consumes them; replayed exactly when only the id was used; otherwise the first failing reason and no change |
| Policy.UsedTokenStore.TryUse | src/store.rs:90-97 | true exactly when the id was absent, which is then stored |
| Policy.UsedTokenStore.Prune | src/store.rs:99-104 | an id stays, with its expiry, exactly when it expires after the cutoff; no id is added |
| Pipeline.ConfigureFaithful | src/policy.rs:117-134 | the verifier lets through only claims that cover the request and are fresh |
| Pipeline.StepProgress | src/grpc/service.rs:56-177 | every step brings a handler closer to its end, whatever the others do, and a finished one changes nothing |
| SingleUse.AcceptedAtMostOnce | src/policy.rs:129-139 | on every interleaving whose prunes keep the margin and whose arriving tokens have one expiry per id, each token id is accepted at most once |
| SingleUse.ServiceAcceptsOnce | src/policy.rs:93-140 | the same for the service's own verifier, from equal expiries of arriving tokens with equal ids |
| SingleUse.ReplaySucceeds | src/store.rs:99-104 | a token is accepted twice when a prune passes its expiry while a handler holds a reading at which it was fresh |
| SingleUse.LateReplaySucceeds | src/store.rs:99-104 | a token is accepted twice when it arrives again, still fresh, after a prune that nobody was waiting at |
| SingleUse.MarginNeeded | src/store.rs:99-104 | whenever the margin is missed, against the clock or against a reading in hand, some token minted no later than its expiry is accepted twice |
| Gate.EngineCallsGated | src/grpc/service.rs:81-160 | every engine call, and every signature returned, follows its own handler's consumed approval of that payload, key and chain, and then a wallet binding |
| Gate.CallsWithinTokens | src/grpc/service.rs:81-139 | never more engine calls than distinct consumed token ids |
| Gate.RunOwn | src/grpc/service.rs:92-139 | in every run each accepted token, binding and engine call is that of its handler's own request |
| Gate.ServiceCallsWithinTokens | src/grpc/service.rs:81-139 | for the service's own verifier: every call gated, never more calls than consumed ids, and every accepted token properly signed over claims that approve its handler's request |
| Sessions.NextSession | src/store.rs:48-58 | sessions move only Pending to Denied, or Pending to Signing to Signed or Failed, and keep what they describe |
| Sessions.SessionsAndAuditAgree | src/grpc/service.rs:38-176 | a finished handler has exactly one record and a reply, both matching its session; a reason is present exactly on denial and failure |
| Sessions.TerminalForever | src/store.rs:48-58 | no continuation of a run changes a terminal session |
| Services.SessionStore.Insert | src/store.rs:33-38 | the session is stored under its id |
| Services.SessionStore.UpdateStatus | src/store.rs:48-58 | status and reason change; a missing id changes nothing |
| Services.MpcService.Deny | src/grpc/service.rs:38-51 | the session is marked denied, one matching record is emitted, and the reply carries the code and the reason |
| Services.MpcService.PolicyGate | src/grpc/service.rs:81-104 | the denial reason and code, or a consumed token |
| Services.MpcService.WalletGate | src/grpc/service.rs:106-129 | the denial reason and code, or a recorded binding |
| Services.MpcService.SignTx | src/grpc/service.rs:56-177 | the request is settled as the table says, in reply, token store, session, audit record and engine call, as by the handler's uninterrupted steps |
| Decisions.ArgumentsDecided | src/grpc/service.rs:61-68 | which requests are rejected with which complaint, and the chain each number stands for |
| Decisions.SignTxDecides | src/grpc/service.rs:56-177 | an uninterrupted handler gives the answer of the first reason to refuse that applies; with none, one engine call whose answer is passed on; session, record and token store to match |
| Decisions.SignedExactly | src/grpc/service.rs:81-159 | with both checks on, signed exactly on valid arguments, a certified approving unused token, a wallet record naming the key, and an engine signature |
| Decisions.FaultCodes | src/engine/mod.rs:87-96 | the status code of every engine error |
| Decisions.AloneIsRun | src/grpc/service.rs:56-177 | an uninterrupted handler is a run of the step model and reaches its end in at most nine steps |
| EndToEnd.ServiceRuns | src/grpc/service.rs:131-176 | the service's part of a run over the engine is a run of the step model, so everything proved of those holds of it |
| EndToEnd.EverySignatureServed | src/grpc/service.rs:131-160 | over every interleaving of requests with key generations, rotations and outages, a returned signature verifies over the request's payload under the returned key, which is the one the engine shows for the request's key, and the handler was cleared |
| EndToEnd.PermittedIsServed | src/grpc/service.rs:81-176 | a permitted and bound request gets a verifying signature exactly when the cluster of its chain's curve knows the key and a quorum answers; otherwise not found, permission denied or unavailable |
| EndToEnd.FaultReported | src/engine/mod.rs:87-96 | the status code and text that report each engine error |
| AuditEmitter.EmitterConserves | src/audit.rs:234-274 | in every run: nothing lost or reordered after the queue, at most 1024 queued, one to four attempts per record |
| AuditEmitter.EmitterPartitions | src/audit.rs:234-274 | every record is dropped at the full queue, settled, in flight or queued, and counted once |
| AuditEmitter.SettledInOrder | src/audit.rs:236-263 | records are settled in the order they were emitted |
| AuditEmitter.EmitExact | src/audit.rs:270-274 | a record is dropped exactly when 1024 are waiting |
| AuditEmitter.Delivery.Emit | src/audit.rs:270-274 | the record is taken exactly when fewer than 1024 are waiting |
| AuditEmitter.Delivery.DeliverNext | src/audit.rs:237-262 | the oldest record is settled with the loop's outcome, after 0, 200, 600 or 1400 ms of back-off by the attempt it took |
| AuditEmitter.OutcomeExact | src/audit.rs:243-260 | delivered exactly when one of four attempts is answered, at the first such attempt |
| AuditEmitter.LoopIsRun | src/audit.rs:243-260 | the retry loop is a run of the step model with at most four attempts |
| AuditEmitter.DeliveryIsRun | src/audit.rs:237-262 | taking the oldest record and retrying is a run of the step model that settles it with that outcome |
| BigEndians.Be64Exact | src/enclave/store.rs:81 | the eight bytes hold the counter, most significant first, so different counters have different bytes |
| ShareStore.Keystream | src/enclave/store.rs:75-87 | exactly `len` bytes, byte i being byte i mod 32 of the MAC over slot and counter i div 32 |
| ShareStore.WrapExact | src/enclave/store.rs:99-120 | ciphertext and tag of a wrapped share, byte by byte |
| ShareStore.UnwrapExact | src/enclave/store.rs:122-141 | cleartext exactly when a share is stored whose tag fits; otherwise which check failed |
| ShareStore.RestoreExact | src/enclave/store.rs:153-164 | stored exactly with a proof and a fitting tag; otherwise which check failed first |
| ShareStore.TamperedUnwrap | src/enclave/store.rs:131-133 | a changed ciphertext is noticed unless the MAC collides |
| ShareStore.MaskedTwice | src/enclave/store.rs:99-141 | masking twice gives the data back |
| ShareStore.MockHsmStore.WrapShare | src/enclave/store.rs:99-120 | the share is stored masked and tagged, and the cleartext buffer ends zeroed |
| ShareStore.MockHsmStore.UnwrapShare | src/enclave/store.rs:122-141 | the cleartext, or the first failing check |
| ShareStore.MockHsmStore.RestoreShare | src/enclave/store.rs:153-164 | refused without a proof or with a wrong tag, otherwise stored |
| ShareStoreRefinement.SlotCollision | src/enclave/store.rs:69-71 | exactly when two pairs share a slot |
| ShareStoreRefinement.CollidingUnwrap | src/enclave/store.rs:69-71 | with colliding ids one pair's share is returned for the other |
| ShareStoreRefinement.RelabelExact | src/enclave/store.rs:89-94 | a share that reuses an authentic tag is accepted exactly when slot and ciphertext join to the same bytes |
| ShareStoreRefinement.ShiftedAccepted | src/enclave/store.rs:153-164 | moving leading ciphertext bytes into the node id keeps the tag valid, and the relabelled share is restored and unwraps |
| ShareStoreRefinement.BlockIsTag | src/enclave/store.rs:75-95 | exactly when a keystream block equals a tag |
| ShareStoreRefinement.BlockAccepted | src/enclave/store.rs:99-164 | a ciphertext published by a wrap that restore accepts as the tag of a share nobody wrapped |
| ShareStoreRefinement.PlainApart | src/enclave/store.rs:69-71 | pairs whose key ids have no colon never run through each other's separator |
| ShareStoreRefinement.StoresRefineMaps | src/enclave/store.rs:98-165 | any run of wraps, unwraps, backups and restores of any share, over pairs that are apart and any number of stores under one wrapping key, answers as plain maps from (key, node) to cleartext |
| ShareStoreRefinement.FreshStoresRefine | src/enclave/store.rs:61-165 | the same for every run that starts from empty stores and names only pairs that are apart |
| ShareStoreRefinement.RefinementExact | src/enclave/store.rs:61-165 | all runs over a set of pairs answer as plain maps exactly when the pairs are apart |

## Left out

- secp256k1 and edwards25519 themselves: that their scalars and points meet the laws, and that their orders are prime, is taken as a hypothesis (`Lawful`).
- ECDSA signing and verification: only that a signature with a nonzero secret verifies.
- SHA-2, HMAC, base64, JSON and token signatures: parameters with the laws stated in `CryptoLaws` and `HsmLaws`.
- Time: a round's timeout compares a node's delay with the limit; sleeping is not modelled. Clock readings are inputs or a nondecreasing counter.
- Concurrent ceremonies: a signing round against one refresh and two refreshes against each other are covered; the run theorems take each ceremony as one step, with each node's flags as the round reads them.
- Fixed-width overflow of the epoch counter and of `expires_at + max_skew`: unbounded naturals here.
- Session, key and record ids: fresh ids are assumed where the service draws UUIDs.
- Handler cancellation and process restart; a handler whose engine call panics stays unfinished.
- Share ids are byte strings: that a relabelled node id is valid UTF-8 is not modelled.
- The audit record holds the signature's bytes, not their hex text, and the reply has no address field, which the service leaves empty.
- `restore_share` of the engine, attestation, custody adapters, mTLS, transport, webhooks, configuration and the Kafka sink: plumbing or checks with only easy properties.
- Signing and verification of audit records.
