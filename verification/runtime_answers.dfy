/** That a committed transition does act: which effects a handled event performs,
    in which order, under which record, and what it answers. */
module RuntimeAnswers {
  import opened Core
  import opened WalFormat
  import opened WalScan
  import opened WalSession
  import opened Runtime
  import opened RuntimeSafety
  import D = WalDurability

  /** The effects are the first n actions of the transition, in order, each under
      the transition's record and the given number. */
  ghost predicate ArePerformed(effects: seq<Effect>, t: Transition, lsn: nat, n: nat)
    requires n <= |t.actions| && t.record.Some?
  {
    |effects| == n && forall i | 0 <= i < n :: effects[i] == Effect(lsn, t.record.value, t.actions[i])
  }

  /** One event: without a record there are no actions and nothing happens; with
      one, the effects are exactly the actions, all of them when the answer is Ok,
      up to and including the failing one when an effect fails, and none when the
      log fails, which the answer then passes on. */
  lemma HandledExactly(crc: Checksum, w: Wal, t: Transition, faults: Faults)
    ensures var c := CommitTransition(crc, w, t, faults);
            && (c.result == Err(UndurableEffects) <==> t.record.None? && t.actions != [])
            && (t.record.None? ==> c.wal == w && c.effects == [] && (t.actions == [] ==> c.result == Ok(())))
            && (t.record.Some? ==>
                  var a := AppendWal(crc, w, t.record.value, faults.append);
                  && (a.result.Err? ==> c.result == Err(WalFailed(a.result.error)) && c.wal == a.wal && c.effects == [])
                  && (a.result.Ok? ==>
                        var f := FlushWal(a.wal, faults.flushFails);
                        && c.wal == f.wal
                        && (f.result.Err? ==> c.result == Err(WalFailed(f.result.error)) && c.effects == [])
                        && (f.result.Ok? ==> ActsExactly(c, t, a.result.value.lsn, faults))))
  {
    hide AppendWal, FlushWal;
  }

  /** Every action performed, or all up to the one that is due to fail. */
  ghost predicate ActsExactly(c: Committed, t: Transition, lsn: nat, faults: Faults)
    requires t.record.Some?
  {
    var failing := faults.effectFailsAt.Some? && faults.effectFailsAt.value < |t.actions|;
    && (c.result.Ok? <==> !failing) && (c.result == Err(EffectFailed) <==> failing)
    && ArePerformed(c.effects, t, lsn, if failing then faults.effectFailsAt.value + 1 else |t.actions|)
  }

  /** Over runs: when a handled event with a record answers Ok, the node's trace
      grows by exactly its actions, in order, under the number of its record,
      which is the last in the log; all earlier effects have smaller numbers. */
  lemma EveryActionPerformed(crc: Checksum, max: nat, events: seq<Event>, j: nat)
    requires Bounded(events, max) && j < |events| && events[j].Handled? && events[j].transition.record.Some?
    requires Run(crc, events[..j]).store.Up?
    requires CommitTransition(crc, Run(crc, events[..j]).store.wal, events[j].transition, events[j].faults).result.Ok?
    ensures var before, after := Run(crc, events[..j]), Run(crc, events[..j + 1]);
            var t := events[j].transition;
            && after.store.Up? && |before.trace| <= |after.trace| && after.trace[..|before.trace|] == before.trace
            && var records := Written(crc, max, after.store.wal.file.content);
               && records != [] && records[|records| - 1] == t.record.value
               && ArePerformed(after.trace[|before.trace|..], t, |records|, |t.actions|)
               && forall e <- before.trace :: e.lsn < |records|
  {
    hide Run, AppendWal, FlushWal, D.Inv, Written;
    var n := Run(crc, events[..j]);
    BoundedPrefix(events, max, j);
    RunInv(crc, max, events[..j]);
    RunStep(crc, events, j);
    HandledExactly(crc, n.store.wal, events[j].transition, events[j].faults);
    CommitAddsRecord(crc, max, n, events[j].transition, events[j].faults);
    var c := CommitTransition(crc, n.store.wal, events[j].transition, events[j].faults);
    assert (n.trace + c.effects)[|n.trace|..] == c.effects;
  }

  lemma BoundedPrefix(events: seq<Event>, max: nat, j: nat)
    requires Bounded(events, max) && j <= |events|
    ensures Bounded(events[..j], max)
  {
  }

  lemma RunStep(crc: Checksum, events: seq<Event>, j: nat)
    requires j < |events|
    ensures Run(crc, events[..j + 1]) == Next(crc, Run(crc, events[..j]), events[j])
  {
    hide Next;
    assert events[..j + 1][..j] == events[..j];
  }

  /** A transition that answers Ok has put its record last in the log, behind the
      records of all earlier effects, under the number its effects carry. */
  lemma CommitAddsRecord(crc: Checksum, max: nat, n: Node, t: Transition, faults: Faults)
    requires Inv(crc, max, n) && n.store.Up? && max <= PAYLOAD_LIMIT && t.record.Some?
    requires CommitTransition(crc, n.store.wal, t, faults).result.Ok?
    ensures var c := CommitTransition(crc, n.store.wal, t, faults);
            var records := Written(crc, max, c.wal.file.content);
            && records != [] && records[|records| - 1] == t.record.value
            && AppendWal(crc, n.store.wal, t.record.value, faults.append).result.Ok?
            && AppendWal(crc, n.store.wal, t.record.value, faults.append).result.value.lsn == |records|
            && forall e <- n.trace :: e.lsn < |records|
  {
    hide AppendWal, FlushWal, Parse, Session, Frame;
    var w, r := n.store.wal, t.record.value;
    var a := AppendWal(crc, w, r, faults.append);
    NotPoisoned(crc, w, r, faults.append);
    AppendKeepsSession(crc, w, r, faults.append, Written(crc, max, w.file.content));
    D.SessionAfterOpen(crc, max, a.wal, Written(crc, max, w.file.content) + [r]);
    FlushKeepsContent(a.wal, faults.flushFails);
    D.WrittenPrefix(crc, max, w.file.content, w.file.synced);
    forall e | e in n.trace ensures e.lsn <= |Written(crc, max, w.file.content)| {
      assert Backed(crc, max, w.file, e);
    }
  }

  lemma NotPoisoned(crc: Checksum, w: Wal, r: Record, fault: AppendFault)
    requires AppendWal(crc, w, r, fault).result.Ok?
    ensures !w.poisoned
  {
    hide Frame;
  }

  lemma FlushKeepsContent(w: Wal, fails: bool)
    ensures FlushWal(w, fails).wal.file.content == w.file.content
  {
  }
}
