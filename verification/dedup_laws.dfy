/** What the ordered list guarantees: per call, over whole runs, and for
    recovery. */
module DedupLaws {
  import opened Core
  import opened DedupSpec

  // ------------------------------------------------------------ eviction

  lemma EvictThins(items: seq<Item>, excluded: Option<DedupKey>)
    requires CanEvict(items, excluded)
    ensures Thinned(items, Evict(items, excluded))
    ensures Bytes(Evict(items, excluded)) <= Bytes(items)
  {
    ThinnedRemove(items, Oldest(items, excluded));
    BytesRemoveAt(items, Oldest(items, excluded));
  }

  lemma {:induction false} MakeRoomLaw(items: seq<Item>, maxEntries: nat)
    ensures var room := MakeRoom(items, maxEntries);
            && Thinned(items, room) && Bytes(room) <= Bytes(items)
            && (|room| < maxEntries || !CanEvict(room, None))
            && (|room| >= maxEntries && |items| <= maxEntries ==> room == items)
    decreases |items|
  {
    if |items| < maxEntries || !CanEvict(items, None) {
      ThinnedSelf(items);
    } else {
      EvictThins(items, None);
      MakeRoomLaw(Evict(items, None), maxEntries);
      ThinnedTransitive(items, Evict(items, None), MakeRoom(items, maxEntries));
    }
  }

  lemma {:induction false} MakeSpaceLaw(items: seq<Item>, key: DedupKey, extra: nat, limit: nat)
    requires forall it <- items :: it.key == key ==> it.state.InFlight?
    requires extra <= limit
    ensures var space := MakeSpace(items, key, extra, limit);
            && Thinned(items, space) && Bytes(space) <= Bytes(items)
            && Bytes(space) + extra <= limit
    decreases |items|
  {
    if Bytes(items) + extra <= limit || !CanEvict(items, Some(key)) {
      ThinnedSelf(items);
      if Bytes(items) + extra > limit {
        NothingCompleted(items, key);
      }
    } else {
      EvictThins(items, Some(key));
      ThinnedMembers(items, Evict(items, Some(key)));
      MakeSpaceLaw(Evict(items, Some(key)), key, extra, limit);
      ThinnedTransitive(items, Evict(items, Some(key)), MakeSpace(items, key, extra, limit));
    }
  }

  lemma {:induction false} FindAt(items: seq<Item>, p: nat)
    requires Distinct(items) && p < |items|
    ensures Find(items, items[p].key) == p
  {
    var q := Find(items, items[p].key);
  }

  // ------------------------------------------------------------ one call

  /** A full table of reservations: nothing can be evicted. */
  lemma AllInFlight(items: seq<Item>)
    ensures !CanEvict(items, None) <==> forall it <- items :: it.state.InFlight?
  {
    var p := Oldest(items, None);
    if p < |items| {
      assert items[p] in items;
    } else {
      assert forall i | 0 <= i < |items| :: !Evictable(items[i], None);
    }
  }

  lemma AdmitKeepsGood(c: Config, t: Table, key: DedupKey, fp: Fingerprint)
    requires Good(c, t) && !Has(t.items, key) && t.lastSequence < U64_MAX
    requires |MakeRoom(t.items, c.maxEntries)| < c.maxEntries
    ensures Good(c, Table(MakeRoom(t.items, c.maxEntries) + [Item(key, fp, InFlight)], t.lastSequence + 1))
  {
    var room := MakeRoom(t.items, c.maxEntries);
    MakeRoomLaw(t.items, c.maxEntries);
    ThinnedMembers(t.items, room);
    BytesConcat(room, [Item(key, fp, InFlight)]);
    forall i | 0 <= i < |room| ensures room[i].key != key && OutcomeBytes(room[i]) <= c.maxOutcomeBytes {
      assert room[i] in t.items;
    }
  }

  /** Reserving: a listed key changes nothing; a new key goes last, and makes
      room only by evicting completed entries; Full means that every slot is in
      flight, and changes nothing. */
  lemma BeginLaw(c: Config, t: Table, key: DedupKey, fp: Fingerprint)
    requires Good(c, t)
    ensures var b := Begin(c, t, key, fp);
            && Good(c, b.table)
            && (Has(t.items, key) ==> b.table == t && b.result.Ok? && b.result != Ok(New) && b.result != Ok(Full))
            && (b.result == Ok(New) ==>
                  b.table.items != []
                  && b.table.items[|b.table.items| - 1] == Item(key, fp, InFlight)
                  && Thinned(t.items, b.table.items[..|b.table.items| - 1])
                  && b.table.lastSequence == t.lastSequence + 1)
            && (b.result != Ok(New) ==> b.table == t)
            && (b.result == Ok(Full) <==>
                  !Has(t.items, key) && t.lastSequence < U64_MAX && |t.items| == c.maxEntries
                  && forall it <- t.items :: it.state.InFlight?)
  {
    hide Thinned, Distinct;
    if !Has(t.items, key) && t.lastSequence < U64_MAX {
      var room := MakeRoom(t.items, c.maxEntries);
      MakeRoomLaw(t.items, c.maxEntries);
      AllInFlight(t.items);
      if |room| < c.maxEntries {
        AdmitKeepsGood(c, t, key, fp);
        assert (room + [Item(key, fp, InFlight)])[..|room|] == room;
      }
    }
  }

  lemma Unique(items: seq<Item>, it: Item, x: Item)
    requires Distinct(items) && it in items && x in items && it.key == x.key
    ensures it == x && Has(items, it.key) && items[Find(items, it.key)] == it
  {
    var i :| 0 <= i < |items| && items[i] == it;
    var j :| 0 <= j < |items| && items[j] == x;
    FindAt(items, i);
    FindAt(items, j);
  }

  /** The space made for a reservation's outcome keeps the reservation. */
  lemma SpaceKeepsReservation(c: Config, t: Table, key: DedupKey, fp: Fingerprint, extra: nat)
    requires Good(c, t) && Item(key, fp, InFlight) in t.items && extra <= c.maxTotalBytes
    ensures var space := MakeSpace(t.items, key, extra, c.maxTotalBytes);
            && Thinned(t.items, space) && Distinct(space) && |space| <= |t.items|
            && Bytes(space) + extra <= c.maxTotalBytes
            && Has(space, key) && space[Find(space, key)] == Item(key, fp, InFlight)
            && forall it <- space :: OutcomeBytes(it) <= c.maxOutcomeBytes
  {
    hide Distinct, Thinned, Bytes;
    forall it | it in t.items && it.key == key ensures it.state.InFlight? {
      Unique(t.items, Item(key, fp, InFlight), it);
    }
    MakeSpaceLaw(t.items, key, extra, c.maxTotalBytes);
    var space := MakeSpace(t.items, key, extra, c.maxTotalBytes);
    ThinnedMembers(t.items, space);
    Unique(space, Item(key, fp, InFlight), Item(key, fp, InFlight));
  }

  /** Completing: an oversized outcome changes nothing, the total-limit error
      is never taken, and a success evicts only completed entries, keeps every
      position, and stores exactly the outcome. */
  lemma CompleteLaw(c: Config, t: Table, key: DedupKey, fp: Fingerprint, outcome: seq<byte>)
    requires Good(c, t)
    ensures var f := Complete(c, t, key, fp, outcome);
            && Good(c, f.table)
            && (f.result != Ok(Done) ==> f.table == t)
            && (f.result.Err? ==> f.result.error == OutcomeTooLarge(|outcome|, c.maxOutcomeBytes))
            && (f.result == Ok(Done) <==>
                  Has(t.items, key) && t.items[Find(t.items, key)] == Item(key, fp, InFlight)
                  && |outcome| <= c.maxOutcomeBytes)
            && (f.result == Ok(Done) ==>
                  var space := MakeSpace(t.items, key, |outcome|, c.maxTotalBytes);
                  && Thinned(t.items, space) && Has(space, key)
                  && space[Find(space, key)] == Item(key, fp, InFlight)
                  && f.table.items == space[Find(space, key) := Item(key, fp, Completed(outcome))])
  {
    hide Thinned, Bytes, MakeSpace;
    var p := Find(t.items, key);
    if p < |t.items| && t.items[p] == Item(key, fp, InFlight) && |outcome| <= c.maxOutcomeBytes {
      SpaceKeepsReservation(c, t, key, fp, |outcome|);
      BytesFinish(MakeSpace(t.items, key, |outcome|, c.maxTotalBytes), key, outcome);
    }
  }

  lemma RemoveKeepsGood(c: Config, t: Table, p: nat)
    requires Good(c, t) && p < |t.items|
    ensures Good(c, t.(items := RemoveAt(t.items, p)))
  {
    BytesRemoveAt(t.items, p);
    var left := RemoveAt(t.items, p);
    assert forall i | 0 <= i < |left| :: left[i] == t.items[if i < p then i else i + 1];
  }

  lemma RemoveMembers(items: seq<Item>, p: nat)
    requires Distinct(items) && p < |items|
    ensures forall it :: it in RemoveAt(items, p) <==> it in items && it.key != items[p].key
  {
    var left := RemoveAt(items, p);
    forall it | it in items && it.key != items[p].key ensures it in left {
      var i :| 0 <= i < |items| && items[i] == it;
      assert it == left[if i < p then i else i - 1];
    }
  }

  /** Aborting removes exactly the matching reservation. */
  lemma AbortLaw(c: Config, t: Table, key: DedupKey, fp: Fingerprint)
    requires Good(c, t)
    ensures var d := Abort(t, key, fp);
            && Good(c, d.table)
            && (d.result != Aborted ==> d.table == t)
            && (d.result == Aborted <==>
                  Has(t.items, key) && t.items[Find(t.items, key)] == Item(key, fp, InFlight))
            && (d.result == Aborted ==>
                  forall it :: it in d.table.items <==> it in t.items && it.key != key)
  {
    hide RemoveAt, Bytes;
    var p := Find(t.items, key);
    if p < |t.items| {
      RemoveKeepsGood(c, t, p);
      RemoveMembers(t.items, p);
    }
  }

  /** Restoring: it only fails on exhaustion or on an oversized outcome; the
      latter leaves the key reserved in flight. */
  lemma RestoreLaw(c: Config, t: Table, key: DedupKey, fp: Fingerprint, outcome: seq<byte>)
    requires Good(c, t)
    ensures var r := Restore(c, t, key, fp, outcome);
            && Good(c, r.table)
            && (r.result == Ok(Restored) ==> |outcome| <= c.maxOutcomeBytes)
            && (r.result.Err? && r.result.error.OutcomeTooLarge? <==>
                  Begin(c, t, key, fp).result == Ok(New) && |outcome| > c.maxOutcomeBytes)
            && (r.result.Err? && r.result.error.OutcomeTooLarge? ==>
                  r.table == Begin(c, t, key, fp).table)
            && (r.result.Ok? && r.result != Ok(Restored) ==> r.table == t)
  {
    BeginLaw(c, t, key, fp);
    var b := Begin(c, t, key, fp);
    if b.result == Ok(New) {
      FindAt(b.table.items, |b.table.items| - 1);
      CompleteLaw(c, b.table, key, fp, outcome);
    }
  }

  // ---------------------------------------------------------------- runs

  datatype Call =
    | CallBegin(key: DedupKey, fp: Fingerprint)
    | CallComplete(key: DedupKey, fp: Fingerprint, outcome: seq<byte>)
    | CallAbort(key: DedupKey, fp: Fingerprint)
    | CallRestore(key: DedupKey, fp: Fingerprint, outcome: seq<byte>)

  function Next(c: Config, t: Table, call: Call): Table {
    match call
    case CallBegin(key, fp) => Begin(c, t, key, fp).table
    case CallComplete(key, fp, outcome) => Complete(c, t, key, fp, outcome).table
    case CallAbort(key, fp) => Abort(t, key, fp).table
    case CallRestore(key, fp, outcome) => Restore(c, t, key, fp, outcome).table
  }

  const EMPTY: Table := Table([], 0)

  function Run(c: Config, calls: seq<Call>): Table {
    if calls == [] then EMPTY
    else Next(c, Run(c, calls[..|calls| - 1]), calls[|calls| - 1])
  }

  /** Reading only calls and their answers: the last thing a run did to a key,
      and the fingerprint and outcome it did it with. */
  datatype Fate = Untouched | Reserved(fp: Fingerprint) | Stored(fp: Fingerprint, outcome: seq<byte>)

  function NextFate(c: Config, t: Table, call: Call, key: DedupKey, fate: Fate): Fate {
    if call.key != key then fate
    else
      match call
      case CallBegin(_, fp) => if Begin(c, t, key, fp).result == Ok(New) then Reserved(fp) else fate
      case CallComplete(_, fp, outcome) =>
        if Complete(c, t, key, fp, outcome).result == Ok(Done) then Stored(fp, outcome) else fate
      case CallAbort(_, _) => fate
      case CallRestore(_, fp, outcome) =>
        var r := Restore(c, t, key, fp, outcome).result;
        if r == Ok(Restored) then Stored(fp, outcome)
        else if r.Err? && r.error.OutcomeTooLarge? then Reserved(fp)
        else fate
  }

  /** What the answers of a run say about a key: reserved since its last
      admission, or completed since then with these bytes. */
  function FateOf(c: Config, calls: seq<Call>, key: DedupKey): Fate {
    if calls == [] then Untouched
    else
      var before := calls[..|calls| - 1];
      NextFate(c, Run(c, before), calls[|calls| - 1], key, FateOf(c, before, key))
  }

  function FateOfItem(it: Item): Fate {
    match it.state
    case InFlight => Reserved(it.fingerprint)
    case Completed(outcome) => Stored(it.fingerprint, outcome)
  }

  /** After an admission the table holds the reservation and old entries only,
      none of them under the same key. */
  lemma AdmittedFate(c: Config, t: Table, key: DedupKey, fp: Fingerprint)
    requires Good(c, t) && Begin(c, t, key, fp).result == Ok(New)
    ensures forall it <- Begin(c, t, key, fp).table.items ::
              it == Item(key, fp, InFlight) || (it in t.items && it.key != key)
  {
    BeginLaw(c, t, key, fp);
    var items := Begin(c, t, key, fp).table.items;
    ThinnedMembers(t.items, items[..|items| - 1]);
    forall i | 0 <= i < |items| - 1 ensures items[i] in t.items && items[i].key != key {
      assert items[i] == items[..|items| - 1][i];
    }
  }

  /** After a completion the table holds the stored outcome and old entries
      only, none of them under the same key. */
  lemma CompletedEntries(c: Config, t: Table, key: DedupKey, fp: Fingerprint, outcome: seq<byte>)
    requires Good(c, t) && Complete(c, t, key, fp, outcome).result == Ok(Done)
    ensures forall it <- Complete(c, t, key, fp, outcome).table.items ::
              it == Item(key, fp, Completed(outcome)) || (it in t.items && it.key != key)
  {
    CompleteLaw(c, t, key, fp, outcome);
    var space := MakeSpace(t.items, key, |outcome|, c.maxTotalBytes);
    var done := Complete(c, t, key, fp, outcome).table.items;
    ThinnedMembers(t.items, space);
    forall i | 0 <= i < |done| && i != Find(space, key) ensures done[i] in t.items && done[i].key != key {
      assert done[i] == space[i];
      FindAt(space, i);
    }
  }

  /** Every entry of the new table is what the call's answer makes of its
      fate, given that this held before. */
  ghost predicate Explained(c: Config, t: Table, call: Call, items: seq<Item>) {
    forall it | it in items ::
      (it in t.items && NextFate(c, t, call, it.key, FateOfItem(it)) == FateOfItem(it))
      || forall fate :: NextFate(c, t, call, it.key, fate) == FateOfItem(it)
  }

  lemma BeginExplained(c: Config, t: Table, key: DedupKey, fp: Fingerprint)
    requires Good(c, t)
    ensures Explained(c, t, CallBegin(key, fp), Begin(c, t, key, fp).table.items)
  {
    hide Good;
    BeginLaw(c, t, key, fp);
    if Begin(c, t, key, fp).result == Ok(New) {
      AdmittedFate(c, t, key, fp);
    }
  }

  lemma CompleteExplained(c: Config, t: Table, key: DedupKey, fp: Fingerprint, outcome: seq<byte>)
    requires Good(c, t)
    ensures Explained(c, t, CallComplete(key, fp, outcome), Complete(c, t, key, fp, outcome).table.items)
  {
    hide Good;
    CompleteLaw(c, t, key, fp, outcome);
    if Complete(c, t, key, fp, outcome).result == Ok(Done) {
      CompletedEntries(c, t, key, fp, outcome);
    }
  }

  lemma RestoreExplained(c: Config, t: Table, key: DedupKey, fp: Fingerprint, outcome: seq<byte>)
    requires Good(c, t)
    ensures Explained(c, t, CallRestore(key, fp, outcome), Restore(c, t, key, fp, outcome).table.items)
  {
    hide Complete, Begin, Thinned, MakeSpace, Bytes;
    RestoreLaw(c, t, key, fp, outcome);
    BeginLaw(c, t, key, fp);
    var b := Begin(c, t, key, fp);
    if b.result == Ok(New) {
      AdmittedFate(c, t, key, fp);
      FindAt(b.table.items, |b.table.items| - 1);
      CompleteLaw(c, b.table, key, fp, outcome);
      if Complete(c, b.table, key, fp, outcome).result == Ok(Done) {
        CompletedEntries(c, b.table, key, fp, outcome);
      }
    }
  }

  /** One call keeps the bounds and explains every entry. */
  lemma NextLaw(c: Config, t: Table, call: Call)
    requires Good(c, t)
    ensures Good(c, Next(c, t, call)) && Explained(c, t, call, Next(c, t, call).items)
  {
    hide Good, Begin, Complete, Restore, Explained;
    match call {
      case CallBegin(key, fp) =>
        BeginLaw(c, t, key, fp);
        BeginExplained(c, t, key, fp);
      case CallComplete(key, fp, outcome) =>
        CompleteLaw(c, t, key, fp, outcome);
        CompleteExplained(c, t, key, fp, outcome);
      case CallAbort(key, fp) =>
        AbortLaw(c, t, key, fp);
        AbortExplained(c, t, key, fp);
      case CallRestore(key, fp, outcome) =>
        RestoreLaw(c, t, key, fp, outcome);
        RestoreExplained(c, t, key, fp, outcome);
    }
  }

  lemma AbortExplained(c: Config, t: Table, key: DedupKey, fp: Fingerprint)
    requires Good(c, t)
    ensures Explained(c, t, CallAbort(key, fp), Abort(t, key, fp).table.items)
  {
    AbortLaw(c, t, key, fp);
  }

  /** Over every run both bounds hold, and each entry in the table is exactly
      what the answers say about its key. */
  lemma {:induction false} RunLaw(c: Config, calls: seq<Call>)
    ensures Good(c, Run(c, calls))
    ensures forall it <- Run(c, calls).items :: FateOf(c, calls, it.key) == FateOfItem(it)
  {
    if calls != [] {
      var before := calls[..|calls| - 1];
      RunLaw(c, before);
      NextLaw(c, Run(c, before), calls[|calls| - 1]);
    }
  }

  /** Replay returns exactly the bytes completed since the key's last
      admission, under the fingerprint it was completed with. */
  lemma ReplayIsExact(c: Config, calls: seq<Call>, key: DedupKey, fp: Fingerprint, outcome: seq<byte>)
    requires Begin(c, Run(c, calls), key, fp).result == Ok(Replay(outcome))
    ensures FateOf(c, calls, key) == Stored(fp, outcome)
  {
    RunLaw(c, calls);
    var items := Run(c, calls).items;
    assert items[Find(items, key)] in items;
  }

  /** A reservation leaves the table only through its own completion or abort:
      no other call evicts it or moves it. */
  lemma ReservationsStay(c: Config, t: Table, call: Call, it: Item)
    requires Good(c, t) && it in t.items && it.state.InFlight? && call.key != it.key
    ensures it in Next(c, t, call).items
  {
    match call {
      case CallBegin(key, fp) => BeginKeepsReservations(c, t, key, fp, it);
      case CallComplete(key, fp, outcome) => CompleteKeepsReservations(c, t, key, fp, outcome, it);
      case CallAbort(key, fp) => AbortLaw(c, t, key, fp);
      case CallRestore(key, fp, outcome) =>
        BeginLaw(c, t, key, fp);
        BeginKeepsReservations(c, t, key, fp, it);
        CompleteKeepsReservations(c, Begin(c, t, key, fp).table, key, fp, outcome, it);
    }
  }

  lemma BeginKeepsReservations(c: Config, t: Table, key: DedupKey, fp: Fingerprint, it: Item)
    requires Good(c, t) && it in t.items && it.state.InFlight?
    ensures it in Begin(c, t, key, fp).table.items
  {
    BeginLaw(c, t, key, fp);
    var items := Begin(c, t, key, fp).table.items;
    if Begin(c, t, key, fp).result == Ok(New) {
      ThinnedMembers(t.items, items[..|items| - 1]);
      assert it in items[..|items| - 1];
    }
  }

  lemma CompleteKeepsReservations(c: Config, t: Table, key: DedupKey, fp: Fingerprint,
                                  outcome: seq<byte>, it: Item)
    requires Good(c, t) && it in t.items && it.state.InFlight? && it.key != key
    ensures it in Complete(c, t, key, fp, outcome).table.items
  {
    CompleteLaw(c, t, key, fp, outcome);
    if Complete(c, t, key, fp, outcome).result == Ok(Done) {
      var space := MakeSpace(t.items, key, |outcome|, c.maxTotalBytes);
      ThinnedMembers(t.items, space);
      var i :| 0 <= i < |space| && space[i] == it;
      assert Complete(c, t, key, fp, outcome).table.items[i] == it;
    }
  }

  // ---------------------------------------------------------------- order

  /** Whether a call admits its key, that is, inserts a fresh entry. */
  predicate Admits(c: Config, t: Table, call: Call) {
    (call.CallBegin? || call.CallRestore?) && Begin(c, t, call.key, call.fp).result == Ok(New)
  }

  /** One more than the index of the last call that admitted the key. */
  function LastAdmission(c: Config, calls: seq<Call>, key: DedupKey): (n: nat)
    ensures n <= |calls|
  {
    if calls == [] then 0
    else
      var before, call := calls[..|calls| - 1], calls[|calls| - 1];
      if call.key == key && Admits(c, Run(c, before), call) then |calls| else LastAdmission(c, before, key)
  }

  ghost predicate RankedBy(items: seq<Item>, rank: DedupKey -> nat) {
    forall i, j | 0 <= i < j < |items| :: rank(items[i].key) < rank(items[j].key)
  }

  lemma {:induction false} ThinnedRanked(a: seq<Item>, b: seq<Item>, rank: DedupKey -> nat)
    requires Thinned(a, b) && RankedBy(a, rank)
    ensures RankedBy(b, rank)
    decreases |a|
  {
    if a != [] {
      if b != [] && a[0] == b[0] && Thinned(a[1..], b[1..]) {
        ThinnedRanked(a[1..], b[1..], rank);
        ThinnedMembers(a[1..], b[1..]);
        forall j | 0 < j < |b| ensures rank(b[0].key) < rank(b[j].key) {
          assert b[j] == b[1..][j - 1] && b[j] in a[1..];
          var i :| 0 <= i < |a[1..]| && a[1..][i] == b[j];
          assert a[i + 1] == b[j];
        }
      } else {
        ThinnedRanked(a[1..], b, rank);
      }
    }
  }

  /** A call that admits nothing keeps the remaining entries in order. */
  lemma QuietKeepsRank(c: Config, t: Table, call: Call, rank: DedupKey -> nat)
    requires Good(c, t) && RankedBy(t.items, rank) && !Admits(c, t, call)
    ensures RankedBy(Next(c, t, call).items, rank)
  {
    hide Good, Begin, Complete;
    match call {
      case CallBegin(key, fp) => BeginLaw(c, t, key, fp);
      case CallComplete(key, fp, outcome) => CompleteKeepsRank(c, t, key, fp, outcome, rank);
      case CallAbort(key, fp) =>
      case CallRestore(key, fp, outcome) => BeginLaw(c, t, key, fp);
    }
  }

  lemma CompleteKeepsRank(c: Config, t: Table, key: DedupKey, fp: Fingerprint, outcome: seq<byte>,
                          rank: DedupKey -> nat)
    requires Good(c, t) && RankedBy(t.items, rank)
    ensures RankedBy(Complete(c, t, key, fp, outcome).table.items, rank)
  {
    CompleteLaw(c, t, key, fp, outcome);
    if Complete(c, t, key, fp, outcome).result == Ok(Done) {
      ThinnedRanked(t.items, MakeSpace(t.items, key, |outcome|, c.maxTotalBytes), rank);
    }
  }

  /** An admission puts its key last. */
  lemma AdmissionKeepsRank(c: Config, t: Table, call: Call, rank: DedupKey -> nat)
    requires Good(c, t) && Admits(c, t, call)
    requires RankedBy(t.items, rank) && forall it <- t.items :: it.key != call.key ==> rank(it.key) < rank(call.key)
    ensures RankedBy(Next(c, t, call).items, rank)
  {
    hide Good, RankedBy, Begin, Complete;
    BeginLaw(c, t, call.key, call.fp);
    BeginKeepsRank(c, t, call.key, call.fp, rank);
    if call.CallRestore? {
      CompleteKeepsRank(c, Begin(c, t, call.key, call.fp).table, call.key, call.fp, call.outcome, rank);
    }
  }

  lemma BeginKeepsRank(c: Config, t: Table, key: DedupKey, fp: Fingerprint, rank: DedupKey -> nat)
    requires Good(c, t) && Begin(c, t, key, fp).result == Ok(New)
    requires RankedBy(t.items, rank) && forall it <- t.items :: it.key != key ==> rank(it.key) < rank(key)
    ensures RankedBy(Begin(c, t, key, fp).table.items, rank)
  {
    hide Good, Begin, Thinned;
    BeginLaw(c, t, key, fp);
    NewKeyAbsent(c, t, key, fp);
    var items := Begin(c, t, key, fp).table.items;
    var room := items[..|items| - 1];
    ThinnedRanked(t.items, room, rank);
    ThinnedMembers(t.items, room);
    forall i | 0 <= i < |room| ensures rank(items[i].key) < rank(key) {
      assert items[i] == room[i] && room[i] in t.items;
    }
    assert forall i | 0 <= i < |room| :: items[i] == room[i];
  }

  lemma NewKeyAbsent(c: Config, t: Table, key: DedupKey, fp: Fingerprint)
    requires Begin(c, t, key, fp).result == Ok(New)
    ensures forall it <- t.items :: it.key != key
  {
  }

  /** The table lists its keys strictly in the order of their last admissions,
      over every run: lookups, completions and evictions never refresh it. */
  lemma {:induction false} OrderIsAdmission(c: Config, calls: seq<Call>)
    ensures RankedBy(Run(c, calls).items, key => LastAdmission(c, calls, key))
  {
    if calls != [] {
      var before, call := calls[..|calls| - 1], calls[|calls| - 1];
      var t := Run(c, before);
      OrderIsAdmission(c, before);
      RunLaw(c, before);
      var earlier, later := (key => LastAdmission(c, before, key)), (key => LastAdmission(c, calls, key));
      if Admits(c, t, call) {
        NewKeyAbsent(c, t, call.key, call.fp);
        assert RankedBy(t.items, later) by {
          forall i, j | 0 <= i < j < |t.items| ensures later(t.items[i].key) < later(t.items[j].key) {
            assert earlier(t.items[i].key) < earlier(t.items[j].key);
            assert t.items[i] in t.items && t.items[j] in t.items;
          }
        }
        AdmissionKeepsRank(c, t, call, later);
      } else {
        assert RankedBy(t.items, later) by {
          forall i, j | 0 <= i < j < |t.items| ensures later(t.items[i].key) < later(t.items[j].key) {
            assert earlier(t.items[i].key) < earlier(t.items[j].key);
          }
        }
        QuietKeepsRank(c, t, call, later);
      }
    }
  }

  // ------------------------------------------------------------- recovery

  /** A durable completion, in log order. */
  datatype Durable = Durable(key: DedupKey, fp: Fingerprint, outcome: seq<byte>)

  function RestoreAll(c: Config, list: seq<Durable>): Table {
    if list == [] then EMPTY
    else
      var last := list[|list| - 1];
      Restore(c, RestoreAll(c, list[..|list| - 1]), last.key, last.fp, last.outcome).table
  }

  function AsItems(list: seq<Durable>): seq<Item> {
    seq(|list|, i requires 0 <= i < |list| => Item(list[i].key, list[i].fp, Completed(list[i].outcome)))
  }

  /** The two bounds the table must respect. */
  predicate FitsBounds(c: Config, list: seq<Durable>) {
    |list| <= c.maxEntries && Bytes(AsItems(list)) <= c.maxTotalBytes
  }

  /** The suffix of the list from k on fits, and no longer suffix does. */
  ghost predicate LongestSuffix(c: Config, list: seq<Durable>, k: nat) {
    && k <= |list| && FitsBounds(c, list[k..])
    && forall j | 0 <= j < k :: !FitsBounds(c, list[j..])
  }

  ghost predicate Restorable(c: Config, list: seq<Durable>) {
    && |list| <= U64_MAX
    && (forall d <- list :: |d.outcome| <= c.maxOutcomeBytes)
    && forall i, j | 0 <= i < j < |list| :: list[i].key != list[j].key
  }

  lemma AsItemsConcat(a: seq<Durable>, b: seq<Durable>)
    ensures AsItems(a + b) == AsItems(a) + AsItems(b)
  {
  }

  lemma NotListed(items: seq<Item>, key: DedupKey)
    requires forall i | 0 <= i < |items| :: items[i].key != key
    ensures !Has(items, key)
  {
  }

  /** Room for one more: at most the oldest goes. */
  lemma RoomInSuffix(c: Config, list: seq<Durable>)
    requires |list| <= c.maxEntries
    ensures MakeRoom(AsItems(list), c.maxEntries)
         == AsItems(if |list| < c.maxEntries then list else list[1..])
  {
    var items := AsItems(list);
    if |list| == c.maxEntries {
      assert Oldest(items, None) == 0;
      assert Evict(items, None) == AsItems(list[1..]);
    }
  }

  /** Space for the last entry's bytes: the shortest run of oldest entries
      goes.  m is how many. */
  lemma {:induction false} SpaceInSuffix(list: seq<Durable>, key: DedupKey, fp: Fingerprint, extra: nat, limit: nat)
    returns (m: nat)
    requires extra <= limit && forall d <- list :: d.key != key
    ensures m <= |list|
    ensures MakeSpace(AsItems(list) + [Item(key, fp, InFlight)], key, extra, limit)
         == AsItems(list[m..]) + [Item(key, fp, InFlight)]
    ensures Bytes(AsItems(list[m..])) + extra <= limit
    ensures forall j | 0 <= j < m :: Bytes(AsItems(list[j..])) + extra > limit
    decreases |list|
  {
    var tail := [Item(key, fp, InFlight)];
    var items := AsItems(list) + tail;
    BytesConcat(AsItems(list), tail);
    if Bytes(items) + extra <= limit {
      m := 0;
      assert list[0..] == list;
    } else {
      assert list != [];
      assert items[0] == AsItems(list)[0] && list[0] in list;
      assert Oldest(items, Some(key)) == 0;
      assert Evict(items, Some(key)) == AsItems(list[1..]) + tail;
      var n := SpaceInSuffix(list[1..], key, fp, extra, limit);
      m := n + 1;
      assert list[1..][n..] == list[m..];
      forall j | 0 <= j < m ensures Bytes(AsItems(list[j..])) + extra > limit {
        if j == 0 {
          assert list[0..] == list;
        } else {
          assert list[j..] == list[1..][j - 1..];
        }
      }
    }
  }

  lemma BytesOfSnoc(list: seq<Durable>, d: Durable)
    ensures Bytes(AsItems(list + [d])) == Bytes(AsItems(list)) + |d.outcome|
  {
    AsItemsConcat(list, [d]);
    BytesConcat(AsItems(list), AsItems([d]));
    assert AsItems([d]) == [Item(d.key, d.fp, Completed(d.outcome))];
  }

  /** Recovery in closed form: restoring any list of distinct keys with
      individually valid outcomes into an empty table keeps exactly the longest
      suffix that satisfies both bounds, in order. */
  lemma {:induction false} RecoveryClosedForm(c: Config, list: seq<Durable>) returns (k: nat)
    requires Restorable(c, list)
    ensures LongestSuffix(c, list, k)
    ensures RestoreAll(c, list) == Table(AsItems(list[k..]), |list|)
  {
    if list == [] {
      k := 0;
    } else {
      var before, d := list[..|list| - 1], list[|list| - 1];
      assert before + [d] == list;
      var k0 := RecoveryClosedForm(c, before);
      k := RestoreOne(c, before, k0, d);
    }
  }

  /** The reservation step of a restore on a kept suffix: at most the oldest
      entry goes. */
  lemma BeginOnSuffix(c: Config, kept: seq<Durable>, n: nat, d: Durable)
    requires |kept| <= c.maxEntries && n < U64_MAX
    requires forall i | 0 <= i < |kept| :: kept[i].key != d.key
    ensures var room := if |kept| < c.maxEntries then kept else kept[1..];
            Begin(c, Table(AsItems(kept), n), d.key, d.fp)
              == Begun(Table(AsItems(room) + [Item(d.key, d.fp, InFlight)], n + 1), Ok(New))
  {
    hide MakeRoom;
    NotListed(AsItems(kept), d.key);
    RoomInSuffix(c, kept);
  }

  /** The completion step: the fewest oldest entries go that make it fit. */
  lemma CompleteOnSuffix(c: Config, room: seq<Durable>, n: nat, d: Durable) returns (m: nat)
    requires |d.outcome| <= c.maxOutcomeBytes
    requires forall i | 0 <= i < |room| :: room[i].key != d.key
    ensures m <= |room|
    ensures Bytes(AsItems(room[m..])) + |d.outcome| <= c.maxTotalBytes
    ensures forall j | 0 <= j < m :: Bytes(AsItems(room[j..])) + |d.outcome| > c.maxTotalBytes
    ensures Complete(c, Table(AsItems(room) + [Item(d.key, d.fp, InFlight)], n), d.key, d.fp, d.outcome)
         == Finished(Table(AsItems(room[m..] + [d]), n), Ok(Done))
  {
    hide MakeSpace;
    var tail := [Item(d.key, d.fp, InFlight)];
    FindLast(AsItems(room), d.key, d.fp);
    m := SpaceInSuffix(room, d.key, d.fp, |d.outcome|, c.maxTotalBytes);
    FindLast(AsItems(room[m..]), d.key, d.fp);
    BytesConcat(AsItems(room[m..]), tail);
    assert Bytes(tail) == 0;
    AsItemsConcat(room[m..], [d]);
    var space := AsItems(room[m..]) + tail;
    assert Finish(space, d.key, d.outcome) == AsItems(room[m..] + [d]);
  }

  /** Restoring one more entry behind a kept suffix: how many of the oldest go
      for the entry bound (k1 - k0) and for the byte bound (k - k1). */
  lemma RestoreOneTable(c: Config, before: seq<Durable>, k0: nat, d: Durable) returns (k1: nat, k: nat)
    requires |before| < U64_MAX && k0 <= |before| && |d.outcome| <= c.maxOutcomeBytes
    requires forall i | 0 <= i < |before| :: before[i].key != d.key
    requires |before| - k0 <= c.maxEntries
    ensures k0 <= k1 <= k <= |before| && |before| - k1 < c.maxEntries
    ensures k1 == k0 || (k1 == k0 + 1 && |before| - k0 == c.maxEntries)
    ensures Bytes(AsItems(before[k..])) + |d.outcome| <= c.maxTotalBytes
    ensures forall j | k1 <= j < k :: Bytes(AsItems(before[j..])) + |d.outcome| > c.maxTotalBytes
    ensures Restore(c, Table(AsItems(before[k0..]), |before|), d.key, d.fp, d.outcome).table
         == Table(AsItems(before[k..] + [d]), |before| + 1)
  {
    hide Begin, Complete, AsItems, Bytes;
    var kept := before[k0..];
    BeginOnSuffix(c, kept, |before|, d);
    k1 := if |kept| < c.maxEntries then k0 else k0 + 1;
    var room := before[k1..];
    assert k1 == k0 + 1 ==> kept[1..] == room;
    var m := CompleteOnSuffix(c, room, |before| + 1, d);
    k := k1 + m;
    assert room[m..] == before[k..];
    assert forall j | k1 <= j < k :: before[j..] == room[j - k1..];
  }

  lemma RestoreOne(c: Config, before: seq<Durable>, k0: nat, d: Durable) returns (k: nat)
    requires Restorable(c, before + [d]) && LongestSuffix(c, before, k0)
    ensures LongestSuffix(c, before + [d], k)
    ensures Restore(c, Table(AsItems(before[k0..]), |before|), d.key, d.fp, d.outcome).table
         == Table(AsItems((before + [d])[k..]), |before| + 1)
  {
    hide Restore, MakeSpace, MakeRoom, AsItems, Bytes;
    var list := before + [d];
    assert list[|before|] == d && d in list;
    assert forall i | 0 <= i < |before| :: list[i] == before[i];
    var k1;
    k1, k := RestoreOneTable(c, before, k0, d);
    forall j | 0 <= j <= |before| ensures list[j..] == before[j..] + [d] {
    }
    BytesOfSnoc(before[k..], d);
    forall j | 0 <= j < k ensures !FitsBounds(c, list[j..]) {
      BytesOfSnoc(before[j..], d);
    }
  }

  lemma FindLast(items: seq<Item>, key: DedupKey, fp: Fingerprint)
    requires forall i | 0 <= i < |items| :: items[i].key != key
    ensures Find(items + [Item(key, fp, InFlight)], key) == |items|
  {
    var all := items + [Item(key, fp, InFlight)];
    assert all[|items|].key == key;
    assert forall i | 0 <= i < |items| :: all[i] == items[i];
  }
}
