/**
 A compliant node of the trust-graph gossip protocol, "never forget"
 strategy: it keeps every transaction it has ever admitted and broadcasts all
 of them in every round and in the final call.

 The Java object is modelled as an immutable `Node` value; every operation
 takes the current node and returns the next one. Each operation has a
 reference definition (`Seeded`, `Received`) and a method that runs the loop
 the source runs, proved to agree with it.
 */
module CompliantNode {
  import opened Types
  import opened Trust

  /** The node's state: the transactions it knows, and its trust array
      (`None` until `setFollowees` installs one). */
  datatype Node = Node(known: set<Transaction>, followees: Option<seq<bool>>)

  /** The constructor. The four environment parameters are accepted and
      ignored: a fresh node knows nothing and has no trust array yet. */
  function Create(pGraph: real, pMalicious: real, pTxDistribution: real, numRounds: int): (n: Node)
    ensures n.known == {}
    ensures n.followees == None
  {
    Node({}, None)
  }

  /** Installs the trust array, replacing any earlier one; the known set is
      untouched. */
  function SetFollowees(n: Node, followees: seq<bool>): (r: Node)
    ensures r.known == n.known
    ensures r.followees == Some(followees)
  {
    n.(followees := Some(followees))
  }

  /** The transactions a receive of `candidates` admits into node `n`. */
  function Admitted(n: Node, candidates: set<Candidate>): set<Transaction>
  {
    if n.followees.Some? then Accepted(n.followees.value, candidates) else {}
  }

  /** What `receiveFromFollowees` demands of its caller: every candidate can
      be looked up in an installed trust array. With no candidates the loop
      body never runs, so nothing is demanded. */
  predicate CanReceive(n: Node, candidates: set<Candidate>)
  {
    candidates == {} || (n.followees.Some? && SendersInRange(n.followees.value, candidates))
  }

  /** Reference definition of seeding with pending transactions. */
  function Seeded(n: Node, pending: set<Transaction>): (r: Node)
    ensures n.known <= r.known
    ensures pending <= r.known
    ensures r.followees == n.followees
  {
    n.(known := n.known + pending)
  }

  /** Reference definition of a receive. */
  function Received(n: Node, candidates: set<Candidate>): (r: Node)
    ensures n.known <= r.known
    ensures r.followees == n.followees
  {
    n.(known := n.known + Admitted(n, candidates))
  }

  /** Adds every element of `items` to `s`, one at a time, as a hash set's
      `addAll` (and its copy constructor, starting from the empty set) does. */
  method AddAll(s: set<Transaction>, items: set<Transaction>) returns (r: set<Transaction>)
    ensures r == s + items
  {
    r := s;
    var rest := items;
    while rest != {}
      invariant rest <= items
      invariant r == s + (items - rest)
      decreases rest
    {
      var t :| t in rest;
      r := r + {t};
      rest := rest - {t};
    }
  }

  /** `setPendingTransaction`: unions the pending transactions into the known
      set and never removes anything. */
  method SetPendingTransaction(n: Node, pending: set<Transaction>) returns (r: Node)
    ensures r.known == n.known + pending
    ensures r.followees == n.followees
    ensures r == Seeded(n, pending)
  {
    var known := AddAll(n.known, pending);
    r := n.(known := known);
  }

  /** `sendToFollowers`: a copy of the whole known set, whatever the round;
      the node itself is left as it was. */
  method SendToFollowers(n: Node) returns (proposal: set<Transaction>, r: Node)
    ensures proposal == n.known
    ensures r == n
  {
    proposal := AddAll({}, n.known);
    r := n;
  }

  /** `receiveFromFollowees`: walks the candidates in an arbitrary order and
      adds the transaction of each one whose sender is followed. */
  method ReceiveFromFollowees(n: Node, candidates: set<Candidate>) returns (r: Node)
    requires CanReceive(n, candidates)
    ensures r.known == n.known + Admitted(n, candidates)
    ensures r.followees == n.followees
  {
    var known := n.known;
    var rest := candidates;
    while rest != {}
      invariant rest <= candidates
      invariant known == n.known + Admitted(n, candidates - rest)
      decreases rest
    {
      var c :| c in rest;
      var done := candidates - rest;
      if n.followees.value[c.sender] {
        known := known + {c.tx};
      }
      AcceptedInsert(n.followees.value, done, c);
      assert candidates - (rest - {c}) == done + {c};
      rest := rest - {c};
    }
    assert candidates - rest == candidates;
    r := n.(known := known);
  }
}
