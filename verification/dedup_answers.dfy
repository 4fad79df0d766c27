/** What every call on the table answers, in terms of what earlier calls were
    answered. */
module DedupAnswers {
  import opened Core
  import opened DedupSpec
  import opened DedupLaws

  /** The fingerprint a key was last reserved or completed under. */
  predicate Under(fate: Fate, fp: Fingerprint) {
    match fate
    case Untouched => false
    case Reserved(f) => f == fp
    case Stored(f, _) => f == fp
  }

  /** What the answers so far say about a listed key is what its entry is. */
  lemma ListedFate(c: Config, calls: seq<Call>, key: DedupKey)
    requires Has(Run(c, calls).items, key)
    ensures var items := Run(c, calls).items;
            FateOf(c, calls, key) == FateOfItem(items[Find(items, key)])
  {
    RunLaw(c, calls);
    var items := Run(c, calls).items;
    assert items[Find(items, key)] in items;
  }

  /** Reserving, over every run: a listed key is answered by its fate, in flight
      exactly when it is reserved under this fingerprint, replayed exactly when
      it was completed under it, with those bytes, and a conflict exactly under
      another; a key that is not listed is refused only by the bounds. */
  lemma BeginAnswers(c: Config, calls: seq<Call>, key: DedupKey, fp: Fingerprint, outcome: seq<byte>)
    ensures var t, fate := Run(c, calls), FateOf(c, calls, key);
            var r := Begin(c, t, key, fp).result;
            && (Has(t.items, key) ==>
                  && (r == Ok(AlreadyInFlight) <==> fate == Reserved(fp))
                  && (r == Ok(Replay(outcome)) <==> fate == Stored(fp, outcome))
                  && (r == Ok(BeginConflict) <==> !Under(fate, fp)))
            && (!Has(t.items, key) ==>
                  && (r == Err(SequenceExhausted) <==> t.lastSequence == U64_MAX)
                  && (r == Ok(Full) <==>
                        t.lastSequence < U64_MAX && |t.items| == c.maxEntries
                        && forall it <- t.items :: it.state.InFlight?)
                  && (r == Err(SequenceExhausted) || r == Ok(Full) || r == Ok(New)))
  {
    hide MakeRoom, Good;
    RunLaw(c, calls);
    BeginLaw(c, Run(c, calls), key, fp);
    if Has(Run(c, calls).items, key) {
      ListedFate(c, calls, key);
    }
  }

  /** Completing: done exactly when the key is listed, reserved under this
      fingerprint, and the outcome fits; each refusal has its own cause. */
  lemma CompleteAnswers(c: Config, calls: seq<Call>, key: DedupKey, fp: Fingerprint, outcome: seq<byte>)
    ensures var t, fate := Run(c, calls), FateOf(c, calls, key);
            var r := Complete(c, t, key, fp, outcome).result;
            var listed := Has(t.items, key);
            && (r == Ok(NotReserved) <==> !listed)
            && (r == Ok(CompleteConflict) <==> listed && !Under(fate, fp))
            && (r == Ok(AlreadyCompleted) <==> listed && fate.Stored? && fate.fp == fp)
            && (r.Err? <==> listed && fate == Reserved(fp) && |outcome| > c.maxOutcomeBytes)
            && (r == Ok(Done) <==> listed && fate == Reserved(fp) && |outcome| <= c.maxOutcomeBytes)
  {
    hide MakeSpace, Bytes, Good;
    RunLaw(c, calls);
    CompleteLaw(c, Run(c, calls), key, fp, outcome);
    if Has(Run(c, calls).items, key) {
      ListedFate(c, calls, key);
    }
  }

  /** Aborting: the same three refusals, by the same causes. */
  lemma AbortAnswers(c: Config, calls: seq<Call>, key: DedupKey, fp: Fingerprint)
    ensures var t, fate := Run(c, calls), FateOf(c, calls, key);
            var r := Abort(t, key, fp).result;
            var listed := Has(t.items, key);
            && (r == AbortNotReserved <==> !listed)
            && (r == AbortConflict <==> listed && !Under(fate, fp))
            && (r == AbortCompleted <==> listed && fate.Stored? && fate.fp == fp)
            && (r == Aborted <==> listed && fate == Reserved(fp))
  {
    hide Good;
    if Has(Run(c, calls).items, key) {
      ListedFate(c, calls, key);
    }
  }

  /** Restoring: present exactly when the same bytes were completed under the same
      fingerprint, a conflict when other bytes or another fingerprint were; a key
      that is not listed is restored exactly when it is admitted and fits. */
  lemma RestoreAnswers(c: Config, calls: seq<Call>, key: DedupKey, fp: Fingerprint, outcome: seq<byte>)
    ensures var t, fate := Run(c, calls), FateOf(c, calls, key);
            var r := Restore(c, t, key, fp, outcome).result;
            var admitted := Begin(c, t, key, fp).result;
            && (Has(t.items, key) ==>
                  && (r == Ok(RestoreInFlight) <==> fate == Reserved(fp))
                  && (r == Ok(AlreadyPresent) <==> fate == Stored(fp, outcome))
                  && (r == Ok(RestoreConflict) <==>
                        !Under(fate, fp) || (fate.Stored? && fate.fp == fp && fate.outcome != outcome)))
            && (!Has(t.items, key) ==>
                  && (r == Ok(Restored) <==> admitted == Ok(New) && |outcome| <= c.maxOutcomeBytes)
                  && (r == Ok(RestoreFull) <==> admitted == Ok(Full))
                  && (r == Err(SequenceExhausted) <==> admitted == Err(SequenceExhausted))
                  && (r.Err? && r.error.OutcomeTooLarge? <==> admitted == Ok(New) && |outcome| > c.maxOutcomeBytes))
  {
    hide Complete, Good, MakeRoom, Bytes;
    var t := Run(c, calls);
    RunLaw(c, calls);
    BeginLaw(c, t, key, fp);
    RestoreLaw(c, t, key, fp, outcome);
    if Has(t.items, key) {
      ListedFate(c, calls, key);
    } else {
      var b := Begin(c, t, key, fp);
      if b.result == Ok(New) {
        GoodDistinct(c, b.table);
        FindAt(b.table.items, |b.table.items| - 1);
        CompleteLaw(c, b.table, key, fp, outcome);
      }
    }
  }

  lemma GoodDistinct(c: Config, t: Table)
    requires Good(c, t)
    ensures Distinct(t.items)
  {
  }

  /** How many calls of a run admitted a key. */
  function Admissions(c: Config, calls: seq<Call>): (n: nat)
    ensures n <= |calls|
  {
    if calls == [] then 0
    else
      var before := calls[..|calls| - 1];
      Admissions(c, before) + if Admits(c, Run(c, before), calls[|calls| - 1]) then 1 else 0
  }

  lemma NextSequence(c: Config, t: Table, call: Call)
    requires Good(c, t)
    ensures Next(c, t, call).lastSequence == t.lastSequence + if Admits(c, t, call) then 1 else 0
  {
    hide MakeRoom, MakeSpace, Good, Bytes;
    if call.CallBegin? || call.CallRestore? {
      BeginLaw(c, t, call.key, call.fp);
    }
  }

  /** Sequence numbers are spent on admissions only, one each. */
  lemma {:induction false} SequenceCounts(c: Config, calls: seq<Call>)
    ensures Run(c, calls).lastSequence == Admissions(c, calls)
  {
    hide Next, Admits;
    if calls != [] {
      var before := calls[..|calls| - 1];
      SequenceCounts(c, before);
      RunLaw(c, before);
      NextSequence(c, Run(c, before), calls[|calls| - 1]);
    }
  }
}
