/**
 The values a compliant node exchanges with the simulation that drives it.
 The source's `Transaction` and `Candidate` classes are not part of this
 model beyond what the node uses of them: value equality of transactions and
 the `(tx, sender)` pair of a candidate.
 */
module Types {

  /** An immutable transaction; the node only compares transactions for
      equality. */
  type Transaction(==)

  /** A transaction proposed to this node, paired with the index of the peer
      that broadcast it in the current round. */
  datatype Candidate = Candidate(tx: Transaction, sender: int)

  /** A reference that may still be `null`: the trust array before
      `setFollowees` has been called. */
  datatype Option<+T> = None | Some(value: T)
}
