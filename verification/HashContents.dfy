/** What the hashes pin down when distinct payloads have distinct digests: the theory up to the order of its
    lists, a node, and a whole proof (`theory_hash` in backend/src/verilogic_ns_api/reasoning/models.py,
    `recompute_node_id` and `recompute_proof_hash` in backend/src/verilogic_ns_api/reasoning/proofs.py). */
module HashContents {
  import opened Keys
  import opened Logic
  import opened Proofs
  import opened Checks
  import opened Engine
  import opened OrderInvariance

  // ---- The theory hash ----

  lemma SortedSame<T>(xs: seq<T>, ys: seq<T>, key: T -> Key)
    requires SortBy(xs, key) == SortBy(ys, key)
    ensures multiset(xs) == multiset(ys)
  {
    SortByMultiset(xs, key);
    SortByMultiset(ys, key);
  }

  lemma SameCanonicalRule(r: Rule, q: Rule)
    requires CanonicalRule(r) == CanonicalRule(q)
    ensures SameRule(r, q)
  {
    SortedSame(r.body, q.body, RuleLiteralKey);
    SortedSame(r.variables, q.variables, VARIABLE_KEY);
    assert r.id == CanonicalRule(r).id && q.id == CanonicalRule(q).id;
    assert r.head == CanonicalRule(r).head && q.head == CanonicalRule(q).head;
    assert r.sourceId == CanonicalRule(r).sourceId && q.sourceId == CanonicalRule(q).sourceId;
  }

  lemma SameCanonicalRules(a: seq<Rule>, b: seq<Rule>)
    requires multiset(CanonicalEach(a)) == multiset(CanonicalEach(b))
    ensures RulesCovered(a, b)
  {
    hide CanonicalRule, SameRule;
    SameElements(CanonicalEach(a), CanonicalEach(b));
    forall r | r in a ensures exists q :: q in b && SameRule(r, q) {
      var i :| 0 <= i < |a| && a[i] == r;
      assert CanonicalEach(a)[i] in CanonicalEach(a);
      var j :| 0 <= j < |b| && CanonicalEach(b)[j] == CanonicalRule(r);
      SameCanonicalRule(r, b[j]);
    }
  }

  /** The hash determines the theory but for the order of its lists. */
  lemma TheoryHashDetermines(sha: Digest, a: Theory, b: Theory)
    requires Injective(sha) && TheoryHash(sha, a) == TheoryHash(sha, b)
    ensures Reordered(a, b)
  {
    hide SortBy, CanonicalEach, RulesCovered;
    var x, y := CanonicalTheory(a), CanonicalTheory(b);
    assert TheoryPayload(x) == TheoryPayload(y);
    assert x.theoryId == y.theoryId && x.query == y.query;
    SortedSame(a.sources, b.sources, SOURCE_KEY);
    SortedSame(a.entities, b.entities, ENTITY_KEY);
    SortedSame(a.predicates, b.predicates, PREDICATE_KEY);
    SortedSame(a.facts, b.facts, FactKey);
    SortedSame(CanonicalEach(a.rules), CanonicalEach(b.rules), RULE_KEY);
    SameCanonicalRules(a.rules, b.rules);
    SameCanonicalRules(b.rules, a.rules);
  }

  /** Valid theories have the same hash exactly when they differ only in the order of their lists. */
  lemma TheoryHashIff(sha: Digest, a: Theory, b: Theory)
    requires Injective(sha) && ValidTheory(a) && ValidTheory(b)
    ensures TheoryHash(sha, a) == TheoryHash(sha, b) <==> Reordered(a, b)
  {
    hide TheoryHash, Reordered, ValidTheory, Injective;
    if TheoryHash(sha, a) == TheoryHash(sha, b) {
      TheoryHashDetermines(sha, a, b);
    }
    if Reordered(a, b) {
      TheoryHashReordered(sha, a, b);
    }
  }

  /** A result of the engine for one theory is accepted only for reorderings of that theory. */
  lemma AcceptedForItsTheory(sha: Digest, a: Theory, b: Theory, limits: Limits, output: ReasoningOutput)
    requires Injective(sha) && ValidTheory(a) && ValidTheory(b)
    requires IsReasoning(sha, a, limits, output) && ProofAcceptable(sha, b, output.result.proof, None)
    ensures Reordered(a, b)
  {
    hide TheoryHash, Reordered, ValidTheory, Injective, BestClosure, WithinLimits, TelemetryOk, OrderedNodes;
    assert ProofPasses(sha, b, output.result.proof, None, TheoryHashCode);
    TheoryHashDetermines(sha, a, b);
  }

  /** A proof is accepted for two theories only when they are reorderings of one another. */
  lemma AcceptedForOneTheory(sha: Digest, a: Theory, b: Theory, proof: ProofDAG)
    requires Injective(sha) && ValidTheory(a) && ValidTheory(b)
    requires ProofAcceptable(sha, a, proof, None) && ProofAcceptable(sha, b, proof, None)
    ensures Reordered(a, b)
  {
    hide TheoryHash, Reordered, ValidTheory, Injective;
    assert ProofPasses(sha, a, proof, None, TheoryHashCode);
    assert ProofPasses(sha, b, proof, None, TheoryHashCode);
    TheoryHashDetermines(sha, a, b);
  }

  // ---- Node ids and the proof hash ----

  /** The id of a node determines everything else in it. */
  lemma NodeIdDetermines(sha: Digest, n: ProofNode, m: ProofNode)
    requires Injective(sha) && RecomputeNodeId(sha, n) == RecomputeNodeId(sha, m) && n.nodeId == m.nodeId
    ensures n == m
  {
    assert NodePayload(n) == NodePayload(m);
  }

  /** Accepted proofs with one hash are one proof. */
  lemma ProofHashDetermines(sha: Digest, a: Theory, b: Theory, p: ProofDAG, q: ProofDAG)
    requires Injective(sha) && ValidTheory(a) && ValidTheory(b)
    requires ProofAcceptable(sha, a, p, None) && ProofAcceptable(sha, b, q, None) && p.proofHash == q.proofHash
    ensures p == q
  {
    hide ValidTheory;
    assert ProofPasses(sha, a, p, None, ProofHashCode) && ProofPasses(sha, b, q, None, ProofHashCode);
    SameProofHash(sha, p, q);
  }

  lemma SameProofHash(sha: Digest, p: ProofDAG, q: ProofDAG)
    requires Injective(sha) && RecomputeProofHash(sha, p) == RecomputeProofHash(sha, q)
    ensures p == q.(proofHash := p.proofHash)
  {
  }
}
