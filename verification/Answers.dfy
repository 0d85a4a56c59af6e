/** What the engine answers, in terms of the atoms of the theory: the status by the derivability of the query's
    atom with its sign and with the other one, and the atoms in conflict
    (backend/src/verilogic_ns_api/reasoning/engine.py). */
module Answers {
  import opened Keys
  import opened Logic
  import opened Semantics
  import opened Proofs
  import opened Choices
  import opened Engine
  import opened Orders

  /** The atom can be derived with this sign. */
  ghost predicate Holds(theory: Theory, pred: string, arguments: seq<string>, negated: bool) {
    Derivable(theory, CanonicalLiteral(pred, arguments, negated))
  }

  ghost predicate InModel(theory: Theory, pred: string, arguments: seq<string>, negated: bool)
    requires ValidTheory(theory)
  {
    CanonicalLiteral(pred, arguments, negated) in ModelOf(theory)
  }

  lemma HoldsInModel(theory: Theory, pred: string, arguments: seq<string>, negated: bool)
    requires ValidTheory(theory)
    ensures Holds(theory, pred, arguments, negated) <==> InModel(theory, pred, arguments, negated)
  {
    hide ValidTheory;
    ModelIsDerivable(theory, CanonicalLiteral(pred, arguments, negated));
  }

  /** The status of a result is the truth about the query's atom, and a side of the proof is there exactly when
      that side holds. */
  lemma AnswerMeans(sha: Digest, theory: Theory, limits: Limits, output: ReasoningOutput)
    requires ValidTheory(theory) && IsReasoning(sha, theory, limits, output)
    ensures var q, result := theory.query, output.result;
            var yes := Holds(theory, q.pred, q.arguments, q.negated);
            var no := Holds(theory, q.pred, q.arguments, !q.negated);
            && result.status ==
                 (if yes && no then Inconsistent else if yes then Entailed else if no then Contradicted else Unknown)
            && result.query == CanonicalLiteral(q.pred, q.arguments, q.negated) && result.theoryId == theory.theoryId
            && (result.proof.supportRootId.Some? <==> yes) && (result.proof.oppositionRootId.Some? <==> no)
            && result.proof.status == result.status && result.proof.query == result.query
  {
    hide ValidTheory, Derivable, ProductiveRounds, Layered, BestProofs, WithinLimits, TelemetryOk, TheoryHash,
      OrderedNodes;
    var q := theory.query;
    HoldsInModel(theory, q.pred, q.arguments, q.negated);
    HoldsInModel(theory, q.pred, q.arguments, !q.negated);
    var closure :| BestClosure(sha, theory, closure, output.telemetry.rounds)
      && output.result == ResultFrom(sha, theory, closure);
  }

  /** The atoms that hold with both signs, listed as positive literals in order, each once; the result counts them. */
  ghost predicate Conflicting(theory: Theory, l: CanonicalLiteral)
    requires ValidTheory(theory)
  {
    !l.negated && InModel(theory, l.pred, l.arguments, false) && InModel(theory, l.pred, l.arguments, true)
  }

  lemma ConflictsMean(theory: Theory, l: CanonicalLiteral)
    requires ValidTheory(theory)
    ensures l in Conflicts(ModelOf(theory)) <==> Conflicting(theory, l)
  {
    hide ValidTheory;
    if Conflicting(theory, l) {
      var denied := CanonicalLiteral(l.pred, l.arguments, true);
      assert denied in ModelOf(theory) && denied.negated && denied.Opposite() in ModelOf(theory);
    }
  }

  lemma ListedConflicts(sha: Digest, theory: Theory, limits: Limits, s: SaturationState)
    requires ValidTheory(theory) && IsSaturation(sha, theory, limits, s)
    ensures forall l :: l in s.conflicts <==> Conflicting(theory, l)
    ensures forall i, j :: 0 <= i < j < |s.conflicts| ==> LiteralBefore(s.conflicts[i], s.conflicts[j])
  {
    hide ValidTheory, Conflicting, LiteralBefore, LiteralKey, ProductiveRounds, Layered, BestProofs, WithinLimits,
      TelemetryOk, Conflicts;
    forall l ensures l in s.conflicts <==> Conflicting(theory, l) {
      ConflictsMean(theory, l);
    }
    LiteralsInOrder(s.conflicts);
  }

  /** The literals of a saturation are listed by predicate, arity, sign and arguments. */
  lemma ListedClosure(entries: seq<ClosureEntry>)
    requires StrictlySorted(entries, ENTRY_KEY)
    ensures forall i, j :: 0 <= i < j < |entries| ==> LiteralBefore(entries[i].literal, entries[j].literal)
  {
    hide LiteralBefore, LiteralKey, Leq;
    forall i, j | 0 <= i < j < |entries| ensures LiteralBefore(entries[i].literal, entries[j].literal) {
      assert Less(ENTRY_KEY(entries[i]), ENTRY_KEY(entries[j]));
      StrictLiteralOrder(entries[i].literal, entries[j].literal);
    }
  }
}
