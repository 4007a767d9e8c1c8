# Compliant node of the consensus-from-trust gossip protocol

This project models `CompliantNode`, one honest participant in a round-based
gossip protocol over a static trust graph. The node follows the "never forget"
strategy:

- It keeps a growing set of every transaction it has seen.
- It broadcasts that whole set in every round and in the final call.
- It admits a candidate transaction only if the trust array says it follows
  the candidate's sender.

The Java object is modelled as an immutable value,
`CompliantNode.Node(known, followees)`. Each Java method becomes an operation
that takes the current node and returns the next one. `followees` is `None`
until `setFollowees` runs, which models the `null` field of a fresh object.

Each operation has two parts:

- a reference definition (`Seeded`, `Received`, `Run`), stated as set algebra;
- a method that runs the loop the Java code runs, proved to agree with it.
  `AddAll` plays the part of `HashSet.addAll` and of the `HashSet` copy
  constructor. `ReceiveFromFollowees` is the for-each loop over the candidates,
  in an arbitrary order.

Modules:

- `Types`: transactions, candidates, and an optional value.
- `Trust`: the trust filter, `Follows` and `Accepted`.
- `CompliantNode`: the node state and its four operations.
- `NodeProperties`: lemmas over one call and over a run of rounds, plus
  `RunProtocol`, which drives the node's own methods in the documented call
  order.

In these points the model follows the Java code rather than the protocol's usual description:

- `setFollowees` may be called more than once. Each call replaces the trust
  array.
- An out-of-range sender index makes the Java code throw instead of being
  rejected. The method `ReceiveFromFollowees` and the lemmas that describe
  what Java can observe (`ReceiveMembership`, `TrustIsolation`,
  `RunTrustIsolation`, `FinalConsensusContents`, `Lifecycle`) require every
  sender to be in range (`CanReceive`, `SendersInRange`). The reference
  definitions `Received` and `Run` are total; see "Left out".
- A receive before `setFollowees` fails only if there is at least one
  candidate. With no candidates the loop body never runs, so `CanReceive`
  demands nothing of an empty candidate set.

## Model

| member | source | states |
|---|---|---|
| CompliantNode.Create | CompliantNode.java:26-29 | a fresh node knows no transaction and has no trust array |
| NodeProperties.CreateIgnoresParameters | CompliantNode.java:21-29 | no constructor parameter (graph, malicious and distribution probabilities, round count) influences the fresh node |
| CompliantNode.SetFollowees | CompliantNode.java:36-38 | installing the trust array leaves the known set unchanged and makes the given array the one consulted |
| CompliantNode.AddAll | CompliantNode.java:46 | adding the items one at a time yields exactly the union of the old set and the items |
| CompliantNode.Seeded | CompliantNode.java:45-47 | seeding keeps every old known transaction, contains every pending one, and leaves the trust array alone |
| CompliantNode.SetPendingTransaction | CompliantNode.java:45-47 | the known set becomes the old known set unioned with the pending set; the trust array is unchanged; the result is the reference seeding `Seeded` |
| NodeProperties.SeedIdempotent | CompliantNode.java:45-47 | seeding a second time with the same transactions changes nothing |
| CompliantNode.SendToFollowers | CompliantNode.java:58-61 | the broadcast equals the current known set and the node state is unchanged, so two broadcasts with no receive between them are equal |
| CompliantNode.Received | CompliantNode.java:69-80 | a receive never removes a known transaction and never changes the trust array |
| CompliantNode.ReceiveFromFollowees | CompliantNode.java:69-80 | the loop leaves the known set equal to the old known set unioned with the transactions of the candidates whose sender is followed |
| Trust.AcceptedMembership | CompliantNode.java:71-78 | a transaction is accepted iff some candidate carrying it has a followed sender |
| Trust.AcceptedInsert | CompliantNode.java:74-78 | one more candidate adds its transaction exactly when its sender is followed |
| NodeProperties.ReceiveMembership | CompliantNode.java:71-79 | for a receive Java can complete (every sender in range), afterwards a transaction is known iff it was known before or a followed sender proposed it |
| NodeProperties.TrustIsolation | CompliantNode.java:72-78 | a transaction not known before, proposed only by unfollowed senders, is still not known after the receive |
| NodeProperties.KnownDuplicatesIgnored | CompliantNode.java:76-77 | candidates whose transactions are all already known leave the node unchanged |
| NodeProperties.ReceiveIdempotent | CompliantNode.java:76-77 | receiving the same candidate set twice gives the same node as receiving it once |
| NodeProperties.ReceiveBatching | CompliantNode.java:70-79 | receiving two candidate sets in turn equals receiving their union, so grouping and iteration order do not matter |
| NodeProperties.Run | CompliantNode.java:69-80 | a sequence of receives only grows the known set and never changes the trust array |
| NodeProperties.RunSnoc | CompliantNode.java:69-80 | running one more round is one more receive applied to the node the earlier rounds produced |
| NodeProperties.RunMembership | CompliantNode.java:69-80 | after a run a transaction is known iff it was known at the start or some round admitted it |
| NodeProperties.RunTrustIsolation | CompliantNode.java:72-78 | a transaction not known at the start and proposed only by unfollowed senders in every round is never known |
| NodeProperties.RunAbsorbsReplay | CompliantNode.java:76-77 | receiving again any round already received changes nothing |
| NodeProperties.FinalConsensusContents | CompliantNode.java:49-61 | when every round's senders are in range, the final broadcast after construction, trust array, seed and rounds holds exactly the seed and every transaction a followed sender proposed in some round |
| NodeProperties.RunProtocol | CompliantNode.java:49-61 | driving the node's own methods, with a broadcast before each receive and one final broadcast, broadcasts in round i exactly what the first i receives produced, and finally everything the whole run produced |
| NodeProperties.Lifecycle | CompliantNode.java:26-61 | constructing the node, installing the trust array, seeding it and running the rounds through its own methods ends in a final broadcast equal to `FinalConsensus`, whose contents `FinalConsensusContents` states |

## Left out

- The "gossip what's new" strategy, with its round counter and buffer of new transactions, is not modelled. It exists only in a backup copy of the class (`original_upload_backup/Consensus From Trust/CompliantNode.java`), not in the class this model covers.
- The constructor's three `double` parameters and `numRounds` are accepted as `real` and `int` and ignored, as the source ignores them. No floating-point behaviour is modelled.
- The `Transaction` and `Candidate` classes and the `Node` interface are not part of this model. A transaction is a value compared by equality. A candidate is a `(tx, sender)` pair.
- Java hashing and `HashSet` internals are not modelled. Sets are mathematical sets, and the iteration order of the receive loop is arbitrary.
- `setFollowees` stores the caller's `boolean[]` by reference, so later changes by the caller would show through. The model captures the array as an immutable sequence.
- CompliantNode.ReceiveFromFollowees: the exceptions Java raises are not modelled. A null trust array with a non-empty candidate set, or a sender index outside the array, makes Java throw, possibly after some candidates have already been added. The model instead requires callers to avoid both cases (`CanReceive`).
- CompliantNode.Received: the reference definitions `Received`, `Run` and `FinalConsensus` are total and treat a sender outside the trust array (or any sender before `setFollowees`) as unfollowed, through `Trust.Follows`. Java throws at that point instead. Only members that require `CanReceive` or `SendersInRange` describe what Java does. `ReceiveIdempotent`, `ReceiveBatching`, `KnownDuplicatesIgnored`, `RunMembership` and `RunAbsorbsReplay` are stated over the total definitions, so they also hold for the inputs Java rejects.
- `null` arguments (a null pending set, candidate set or candidate) are not modelled. The Java code would throw on them.
- The simulation harness is not modelled: trust-graph generation, malicious nodes and the driving of rounds. `RunProtocol` takes each round's candidates as a parameter.
