/**
 Properties of the compliant node over one call and over a whole run:
 union semantics, monotone growth, trust isolation, idempotence of
 duplicates, and what the final broadcast contains.
 */
module NodeProperties {
  import opened Types
  import opened Trust
  import opened CompliantNode

  /** No constructor parameter influences the state of a fresh node. */
  lemma CreateIgnoresParameters(pGraph: real, pMalicious: real, pTxDistribution: real, numRounds: int,
                                pGraph': real, pMalicious': real, pTxDistribution': real, numRounds': int)
    ensures Create(pGraph, pMalicious, pTxDistribution, numRounds)
         == Create(pGraph', pMalicious', pTxDistribution', numRounds')
  {
  }

  /** A transaction is known after a receive iff it was known before or a
      followed sender proposed it. */
  lemma ReceiveMembership(n: Node, candidates: set<Candidate>, t: Transaction)
    requires CanReceive(n, candidates)
    ensures t in Received(n, candidates).known <==>
              t in n.known ||
              (n.followees.Some? &&
               exists c :: c in candidates && c.tx == t && Follows(n.followees.value, c.sender))
  {
  }

  /** Trust isolation: a transaction that was not known, and that only
      unfollowed senders propose, is still not known after the receive. */
  lemma TrustIsolation(n: Node, candidates: set<Candidate>, t: Transaction)
    requires CanReceive(n, candidates)
    requires t !in n.known
    requires forall c :: c in candidates && c.tx == t ==>
               !(n.followees.Some? && Follows(n.followees.value, c.sender))
    ensures t !in Received(n, candidates).known
  {
  }

  /** Candidates whose transactions are all already known change nothing. */
  lemma KnownDuplicatesIgnored(n: Node, candidates: set<Candidate>)
    requires forall c :: c in candidates ==> c.tx in n.known
    ensures Received(n, candidates) == n
  {
  }

  /** Receiving the same candidate set a second time changes nothing. */
  lemma ReceiveIdempotent(n: Node, candidates: set<Candidate>)
    ensures Received(Received(n, candidates), candidates) == Received(n, candidates)
  {
  }

  /** Receiving two batches one after the other equals receiving their union:
      how candidates are grouped or ordered does not matter. */
  lemma ReceiveBatching(n: Node, a: set<Candidate>, b: set<Candidate>)
    ensures Received(Received(n, a), b) == Received(n, a + b)
  {
  }

  /** Seeding twice with the same transactions changes nothing more. */
  lemma SeedIdempotent(n: Node, pending: set<Transaction>)
    ensures Seeded(Seeded(n, pending), pending) == Seeded(n, pending)
  {
  }

  /** The node after receiving each round's candidates in turn. */
  function Run(n: Node, rounds: seq<set<Candidate>>): (r: Node)
    ensures n.known <= r.known
    ensures r.followees == n.followees
    decreases |rounds|
  {
    if rounds == [] then n else Run(Received(n, rounds[0]), rounds[1..])
  }

  /** Running one more round is one more receive at the end. */
  lemma {:induction false} RunSnoc(n: Node, rounds: seq<set<Candidate>>, last: set<Candidate>)
    ensures Run(n, rounds + [last]) == Received(Run(n, rounds), last)
    decreases |rounds|
  {
    if rounds == [] {
      assert [] + [last] == [last];
    } else {
      assert (rounds + [last])[1..] == rounds[1..] + [last];
      RunSnoc(Received(n, rounds[0]), rounds[1..], last);
    }
  }

  /** A transaction is known after a run iff it was known at the start or
      some round admitted it. */
  lemma {:induction false} RunMembership(n: Node, rounds: seq<set<Candidate>>, t: Transaction)
    ensures t in Run(n, rounds).known <==>
              t in n.known || exists i :: 0 <= i < |rounds| && t in Admitted(n, rounds[i])
    decreases |rounds|
  {
    if rounds != [] {
      var n' := Received(n, rounds[0]);
      RunMembership(n', rounds[1..], t);
      assert Admitted(n', rounds[0]) == Admitted(n, rounds[0]);
      if exists i :: 0 <= i < |rounds| && t in Admitted(n, rounds[i]) {
        var i :| 0 <= i < |rounds| && t in Admitted(n, rounds[i]);
        if i > 0 {
          assert rounds[1..][i - 1] == rounds[i];
          assert Admitted(n', rounds[1..][i - 1]) == Admitted(n, rounds[i]);
        }
      }
      if exists j :: 0 <= j < |rounds[1..]| && t in Admitted(n', rounds[1..][j]) {
        var j :| 0 <= j < |rounds[1..]| && t in Admitted(n', rounds[1..][j]);
        assert rounds[1..][j] == rounds[j + 1];
      }
    }
  }

  /** Trust isolation over a whole run: a transaction not known at the start
      and proposed only by unfollowed senders is never known. */
  lemma RunTrustIsolation(n: Node, rounds: seq<set<Candidate>>, t: Transaction)
    requires forall i :: 0 <= i < |rounds| ==> CanReceive(n, rounds[i])
    requires t !in n.known
    requires forall i, c :: 0 <= i < |rounds| && c in rounds[i] && c.tx == t ==>
               !(n.followees.Some? && Follows(n.followees.value, c.sender))
    ensures t !in Run(n, rounds).known
  {
    RunMembership(n, rounds, t);
    forall i | 0 <= i < |rounds|
      ensures t !in Admitted(n, rounds[i])
    {
      TrustIsolation(n, rounds[i], t);
    }
  }

  /** Re-receiving any round of a run changes nothing. */
  lemma RunAbsorbsReplay(n: Node, rounds: seq<set<Candidate>>, i: int)
    requires 0 <= i < |rounds|
    ensures Received(Run(n, rounds), rounds[i]) == Run(n, rounds)
  {
    var r := Run(n, rounds);
    forall t | t in Admitted(r, rounds[i])
      ensures t in r.known
    {
      assert Admitted(r, rounds[i]) == Admitted(n, rounds[i]);
      RunMembership(n, rounds, t);
    }
  }

  /** The final consensus set of a node driven through its whole lifecycle:
      construction, trust array, seed, then the rounds. Broadcasts leave the
      state unchanged, so only the receives appear. */
  function FinalConsensus(pGraph: real, pMalicious: real, pTxDistribution: real, numRounds: int,
                          followees: seq<bool>, pending: set<Transaction>,
                          rounds: seq<set<Candidate>>): set<Transaction>
  {
    var n := Create(pGraph, pMalicious, pTxDistribution, numRounds);
    Run(Seeded(SetFollowees(n, followees), pending), rounds).known
  }

  /** The final broadcast holds exactly the seed and every transaction some
      followed sender proposed in some round. */
  lemma FinalConsensusContents(pGraph: real, pMalicious: real, pTxDistribution: real, numRounds: int,
                               followees: seq<bool>, pending: set<Transaction>,
                               rounds: seq<set<Candidate>>, t: Transaction)
    requires forall i :: 0 <= i < |rounds| ==> SendersInRange(followees, rounds[i])
    ensures t in FinalConsensus(pGraph, pMalicious, pTxDistribution, numRounds, followees, pending, rounds) <==>
              t in pending ||
              exists i, c :: 0 <= i < |rounds| && c in rounds[i] && c.tx == t && Follows(followees, c.sender)
  {
    var n := Seeded(SetFollowees(Create(pGraph, pMalicious, pTxDistribution, numRounds), followees), pending);
    RunMembership(n, rounds, t);
    if exists i :: 0 <= i < |rounds| && t in Admitted(n, rounds[i]) {
      var i :| 0 <= i < |rounds| && t in Admitted(n, rounds[i]);
      AcceptedMembership(followees, rounds[i], t);
    }
    if exists i, c :: 0 <= i < |rounds| && c in rounds[i] && c.tx == t && Follows(followees, c.sender) {
      var i, c :| 0 <= i < |rounds| && c in rounds[i] && c.tx == t && Follows(followees, c.sender);
      AcceptedMembership(followees, rounds[i], t);
    }
  }

  /** Drives the node's own operations in the order the simulation calls
      them: a broadcast before each round's receive, then one final
      broadcast, whose result is the node's consensus set. The candidates of
      each round come from the other nodes and are given here. */
  method RunProtocol(start: Node, rounds: seq<set<Candidate>>) returns (proposals: seq<set<Transaction>>, final: set<Transaction>)
    requires forall i :: 0 <= i < |rounds| ==> CanReceive(start, rounds[i])
    ensures |proposals| == |rounds|
    ensures forall i :: 0 <= i < |rounds| ==> proposals[i] == Run(start, rounds[..i]).known
    ensures final == Run(start, rounds).known
  {
    var n := start;
    proposals := [];
    var k := 0;
    while k < |rounds|
      invariant 0 <= k <= |rounds|
      invariant n == Run(start, rounds[..k])
      invariant |proposals| == k
      invariant forall i :: 0 <= i < k ==> proposals[i] == Run(start, rounds[..i]).known
    {
      var proposal;
      proposal, n := SendToFollowers(n);
      proposals := proposals + [proposal];
      n := ReceiveFromFollowees(n, rounds[k]);
      RunSnoc(start, rounds[..k], rounds[k]);
      assert rounds[..k + 1] == rounds[..k] + [rounds[k]];
      k := k + 1;
    }
    assert rounds[..k] == rounds;
    final, n := SendToFollowers(n);
  }

  /** A node's whole lifecycle through its own operations: construction,
      trust array, seed, the rounds, and the final broadcast, which is the
      node's consensus set. */
  method Lifecycle(pGraph: real, pMalicious: real, pTxDistribution: real, numRounds: int,
                   followees: seq<bool>, pending: set<Transaction>,
                   rounds: seq<set<Candidate>>) returns (proposals: seq<set<Transaction>>, final: set<Transaction>)
    requires forall i :: 0 <= i < |rounds| ==> SendersInRange(followees, rounds[i])
    ensures |proposals| == |rounds|
    ensures final == FinalConsensus(pGraph, pMalicious, pTxDistribution, numRounds, followees, pending, rounds)
  {
    var n := Create(pGraph, pMalicious, pTxDistribution, numRounds);
    n := SetFollowees(n, followees);
    n := SetPendingTransaction(n, pending);
    proposals, final := RunProtocol(n, rounds);
  }
}
