/**
 The trust filter: a node accepts a candidate exactly when the trust array
 marks the candidate's sender as followed.
 */
module Trust {
  import opened Types

  /** True iff a node whose trust array is `followees` accepts what peer
      `sender` broadcasts. An index outside the array is never followed. */
  predicate Follows(followees: seq<bool>, sender: int)
  {
    0 <= sender < |followees| && followees[sender]
  }

  /** Every candidate's sender can be looked up in the trust array; the
      source indexes the array with the sender and throws otherwise. */
  predicate SendersInRange(followees: seq<bool>, candidates: set<Candidate>)
  {
    forall c :: c in candidates ==> 0 <= c.sender < |followees|
  }

  /** The transactions carried by the candidates whose sender is followed. */
  function Accepted(followees: seq<bool>, candidates: set<Candidate>): set<Transaction>
  {
    set c | c in candidates && Follows(followees, c.sender) :: c.tx
  }

  /** A transaction is accepted iff some followed sender proposed it. */
  lemma AcceptedMembership(followees: seq<bool>, candidates: set<Candidate>, t: Transaction)
    ensures t in Accepted(followees, candidates) <==>
              exists c :: c in candidates && c.tx == t && Follows(followees, c.sender)
  {
  }

  /** Accepting one more candidate adds its transaction iff its sender is
      followed; this is one iteration of the receive loop. */
  lemma AcceptedInsert(followees: seq<bool>, candidates: set<Candidate>, c: Candidate)
    ensures Accepted(followees, candidates + {c}) ==
              Accepted(followees, candidates) + (if Follows(followees, c.sender) then {c.tx} else {})
  {
  }
}
