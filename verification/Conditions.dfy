/** The readiness conditions of a ManifestGenerator, and the operations the
    controller applies to them. */
module Conditions {
  datatype ConditionType = Ready | Reconciling | Stalled
  datatype ConditionStatus = True | False | Unknown
  datatype Condition = Condition(status: ConditionStatus, reason: string)

  type ConditionSet = map<ConditionType, Condition>

  const PROGRESSING := "Progressing"
  const PROGRESSING_WITH_RETRY := "ProgressingWithRetry"
  const SUCCEEDED := "Succeeded"
  const RECONCILIATION_FAILED := "ReconciliationFailed"
  const RECONCILIATION_DISABLED := "ReconciliationDisabled"
  const SOURCE_FETCH_FAILED := "SourceFetchFailed"
  const PIPELINE_FAILED := "PipelineFailed"
  const RENDER_FAILED := "RenderFailed"
  const BUILD_FAILED := "BuildFailed"

  predicate Is(cs: ConditionSet, t: ConditionType, s: ConditionStatus) {
    t in cs && cs[t].status == s
  }

  /** MarkTrue, MarkFalse and MarkUnknown of the fluxcd runtime. */
  function MarkReady(cs: ConditionSet, s: ConditionStatus, reason: string): ConditionSet {
    cs[Ready := Condition(s, reason)]
  }

  /** MarkReconciling also removes Stalled. */
  function MarkReconciling(cs: ConditionSet, reason: string): ConditionSet {
    (cs - {Stalled})[Reconciling := Condition(True, reason)]
  }

  /** MarkStalled also removes Reconciling. */
  function MarkStalled(cs: ConditionSet, reason: string): ConditionSet {
    (cs - {Reconciling})[Stalled := Condition(True, reason)]
  }

  /** newTerminalErrorFor. */
  function MarkTerminal(cs: ConditionSet, reason: string): ConditionSet {
    MarkStalled(MarkReady(cs, False, reason), reason)
  }

  function MarkInProgress(cs: ConditionSet): ConditionSet {
    MarkReady(MarkReconciling(cs, PROGRESSING), Unknown, PROGRESSING)
  }

  /** The changes summarizeStatus makes before the final patch. */
  function Summarized(cs: ConditionSet): ConditionSet {
    var noted :=
      if Is(cs, Ready, False) && Reconciling in cs
      then cs[Reconciling := cs[Reconciling].(reason := PROGRESSING_WITH_RETRY)]
      else cs;
    if Is(noted, Ready, True) || Is(noted, Stalled, True) then noted - {Reconciling} else noted
  }

  lemma TerminalShows(cs: ConditionSet, reason: string)
    ensures var shown := Summarized(MarkTerminal(cs, reason));
            Stalled in shown && Reconciling !in shown && !Is(shown, Ready, True)
  {
  }

  /** What is shown when reconcile is interrupted, fails for a reason, or succeeds. */
  lemma ProgressShows(cs: ConditionSet, reason: string)
    ensures var busy := MarkInProgress(cs);
            && Stalled !in Summarized(busy) && Reconciling in Summarized(busy) && !Is(Summarized(busy), Ready, True)
            && (var failed := Summarized(MarkReady(busy, False, reason));
                Stalled !in failed && Reconciling in failed && !Is(failed, Ready, True))
            && var done := Summarized(MarkReady(busy, True, SUCCEEDED));
               Stalled !in done && Reconciling !in done && Is(done, Ready, True)
  {
  }

  /** What observers may rely on. */
  ghost predicate Coherent(cs: ConditionSet) {
    && !(Stalled in cs && Reconciling in cs)
    && (Is(cs, Ready, True) ==> Stalled !in cs && Reconciling !in cs)
    && (Stalled in cs ==> cs[Stalled].status == True && Is(cs, Ready, False) && cs[Ready].reason == cs[Stalled].reason)
    && (Is(cs, Ready, False) && Stalled !in cs ==>
          Reconciling in cs && cs[Reconciling] == Condition(True, "ProgressingWithRetry"))
    && (Is(cs, Ready, Unknown) ==> Reconciling in cs)
  }

  /** Coherent, but for the retry reason that summarizeStatus has yet to set. */
  ghost predicate Unsummarized(cs: ConditionSet) {
    Ready in cs && Reconciling in cs && Stalled !in cs && cs[Reconciling].status == True
  }

  /** summarizeStatus makes conditions coherent, and leaves coherent ones alone. */
  lemma SummaryIsCoherent(cs: ConditionSet)
    requires Coherent(cs) || Unsummarized(cs)
    ensures Coherent(Summarized(cs))
    ensures Coherent(cs) ==> Summarized(cs) == cs
  {
  }

  /** Wherever reconcile stops after announcing progress, what it leaves is
      coherent once summarized. */
  lemma ProgressIsCoherent(cs: ConditionSet, reason: string)
    ensures var busy := MarkInProgress(cs);
            && Stalled !in busy && Coherent(busy) && Coherent(Summarized(busy))
            && Coherent(Summarized(MarkReady(busy, False, reason)))
            && Coherent(Summarized(MarkReady(busy, True, reason)))
  {
  }

  lemma TerminalIsCoherent(cs: ConditionSet, reason: string)
    ensures Coherent(MarkTerminal(cs, reason)) && Summarized(MarkTerminal(cs, reason)) == MarkTerminal(cs, reason)
  {
  }
}
