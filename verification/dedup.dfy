/** The bounded deduplication table as a simple ordered list: oldest entry
    first, evicting the first completed entry when a bound would be broken. */
module DedupSpec {
  import opened Core

  datatype DedupKey = DedupKey(cluster: seq<byte>, source: NodeId, message: seq<byte>)

  type Fingerprint = seq<byte>

  datatype EntryState = InFlight | Completed(outcome: seq<byte>)

  datatype Item = Item(key: DedupKey, fingerprint: Fingerprint, state: EntryState)

  datatype ConfigData = Config(maxEntries: nat, maxOutcomeBytes: nat, maxTotalBytes: nat)

  /** Validated bounds: nonzero, and one outcome always fits in the total. */
  type Config = c: ConfigData |
      1 <= c.maxEntries <= U32_MAX && 1 <= c.maxOutcomeBytes <= c.maxTotalBytes <= 1024 * 1024 * 1024
    witness Config(1, 1, 65536)

  datatype BeginResult = New | AlreadyInFlight | Replay(outcome: seq<byte>) | BeginConflict | Full

  datatype CompleteResult = Done | AlreadyCompleted | NotReserved | CompleteConflict

  datatype AbortResult = Aborted | AbortCompleted | AbortNotReserved | AbortConflict

  datatype RestoreResult = Restored | AlreadyPresent | RestoreInFlight | RestoreConflict | RestoreFull

  datatype CoreError = SequenceExhausted | OutcomeTooLarge(actual: nat, maximum: nat)

  /** The table: its entries in insertion order, and the last sequence number
      handed out. */
  datatype Table = Table(items: seq<Item>, lastSequence: nat)

  datatype Begun = Begun(table: Table, result: Result<BeginResult, CoreError>)
  datatype Finished = Finished(table: Table, result: Result<CompleteResult, CoreError>)
  datatype Dropped = Dropped(table: Table, result: AbortResult)
  datatype Recovered = Recovered(table: Table, result: Result<RestoreResult, CoreError>)

  // ------------------------------------------------------------------ lists

  function RemoveAt<T>(s: seq<T>, p: nat): (r: seq<T>)
    requires p < |s|
    ensures |r| == |s| - 1
  {
    s[..p] + s[p + 1..]
  }

  function Find(items: seq<Item>, key: DedupKey): (p: nat)
    ensures p <= |items|
    ensures forall i | 0 <= i < p :: items[i].key != key
    ensures p < |items| ==> items[p].key == key
  {
    if items == [] || items[0].key == key then 0 else 1 + Find(items[1..], key)
  }

  predicate Has(items: seq<Item>, key: DedupKey) {
    Find(items, key) < |items|
  }

  function OutcomeBytes(it: Item): nat {
    if it.state.Completed? then |it.state.outcome| else 0
  }

  function Bytes(items: seq<Item>): nat {
    if items == [] then 0 else OutcomeBytes(items[0]) + Bytes(items[1..])
  }

  predicate Evictable(it: Item, excluded: Option<DedupKey>) {
    it.state.Completed? && excluded != Some(it.key)
  }

  /** Position of the oldest evictable entry, or the length if there is none. */
  function Oldest(items: seq<Item>, excluded: Option<DedupKey>): (p: nat)
    ensures p <= |items|
    ensures forall i | 0 <= i < p :: !Evictable(items[i], excluded)
    ensures p < |items| ==> Evictable(items[p], excluded)
  {
    if items == [] || Evictable(items[0], excluded) then 0 else 1 + Oldest(items[1..], excluded)
  }

  predicate CanEvict(items: seq<Item>, excluded: Option<DedupKey>) {
    Oldest(items, excluded) < |items|
  }

  function Evict(items: seq<Item>, excluded: Option<DedupKey>): (r: seq<Item>)
    requires CanEvict(items, excluded)
    ensures |r| == |items| - 1
  {
    RemoveAt(items, Oldest(items, excluded))
  }

  /** Evicting oldest entries until one more entry fits, as far as possible. */
  function MakeRoom(items: seq<Item>, maxEntries: nat): seq<Item>
    decreases |items|
  {
    if |items| < maxEntries || !CanEvict(items, None) then items
    else MakeRoom(Evict(items, None), maxEntries)
  }

  /** Evicting oldest other entries until `extra` more bytes fit, as far as
      possible. */
  function MakeSpace(items: seq<Item>, key: DedupKey, extra: nat, limit: nat): seq<Item>
    decreases |items|
  {
    if Bytes(items) + extra <= limit || !CanEvict(items, Some(key)) then items
    else MakeSpace(Evict(items, Some(key)), key, extra, limit)
  }

  function Finish(items: seq<Item>, key: DedupKey, outcome: seq<byte>): seq<Item> {
    var p := Find(items, key);
    if p < |items| then items[p := items[p].(state := Completed(outcome))] else items
  }

  // ------------------------------------------------------------- operations

  function Begin(c: Config, t: Table, key: DedupKey, fp: Fingerprint): Begun {
    var p := Find(t.items, key);
    if p < |t.items| then
      Begun(t, Ok(if t.items[p].fingerprint != fp then BeginConflict
                  else match t.items[p].state
                       case InFlight => AlreadyInFlight
                       case Completed(outcome) => Replay(outcome)))
    else if t.lastSequence == U64_MAX then Begun(t, Err(SequenceExhausted))
    else
      var room := MakeRoom(t.items, c.maxEntries);
      if |room| >= c.maxEntries then Begun(t.(items := room), Ok(Full))
      else Begun(Table(room + [Item(key, fp, InFlight)], t.lastSequence + 1), Ok(New))
  }

  function Complete(c: Config, t: Table, key: DedupKey, fp: Fingerprint, outcome: seq<byte>): Finished {
    var p := Find(t.items, key);
    if p == |t.items| then Finished(t, Ok(NotReserved))
    else if t.items[p].fingerprint != fp then Finished(t, Ok(CompleteConflict))
    else if t.items[p].state.Completed? then Finished(t, Ok(AlreadyCompleted))
    else if |outcome| > c.maxOutcomeBytes then
      Finished(t, Err(OutcomeTooLarge(|outcome|, c.maxOutcomeBytes)))
    else
      var space := MakeSpace(t.items, key, |outcome|, c.maxTotalBytes);
      if Bytes(space) + |outcome| > c.maxTotalBytes then
        Finished(t.(items := space), Err(OutcomeTooLarge(|outcome|, c.maxTotalBytes)))
      else Finished(t.(items := Finish(space, key, outcome)), Ok(Done))
  }

  function Abort(t: Table, key: DedupKey, fp: Fingerprint): Dropped {
    var p := Find(t.items, key);
    if p == |t.items| then Dropped(t, AbortNotReserved)
    else if t.items[p].fingerprint != fp then Dropped(t, AbortConflict)
    else if t.items[p].state.Completed? then Dropped(t, AbortCompleted)
    else Dropped(t.(items := RemoveAt(t.items, p)), Aborted)
  }

  function Restore(c: Config, t: Table, key: DedupKey, fp: Fingerprint, outcome: seq<byte>): Recovered {
    var b := Begin(c, t, key, fp);
    match b.result
    case Err(e) => Recovered(b.table, Err(e))
    case Ok(AlreadyInFlight) => Recovered(b.table, Ok(RestoreInFlight))
    case Ok(Replay(existing)) =>
      Recovered(b.table, Ok(if existing == outcome then AlreadyPresent else RestoreConflict))
    case Ok(BeginConflict) => Recovered(b.table, Ok(RestoreConflict))
    case Ok(Full) => Recovered(b.table, Ok(RestoreFull))
    case Ok(New) =>
      var f := Complete(c, b.table, key, fp, outcome);
      Recovered(f.table,
        match f.result
        case Err(e) => Err(e)
        case Ok(Done) => Ok(Restored)
        case Ok(AlreadyCompleted) => Ok(AlreadyPresent)
        case Ok(_) => Ok(RestoreConflict))
  }

  // -------------------------------------------------------------- invariant

  ghost predicate Distinct(items: seq<Item>) {
    forall i, j | 0 <= i < j < |items| :: items[i].key != items[j].key
  }

  /** Both bounds hold, every key is listed once, every outcome is within its
      own bound. */
  ghost predicate Good(c: Config, t: Table) {
    && Distinct(t.items)
    && |t.items| <= c.maxEntries && Bytes(t.items) <= c.maxTotalBytes
    && (forall it <- t.items :: OutcomeBytes(it) <= c.maxOutcomeBytes)
    && t.lastSequence <= U64_MAX
  }

  lemma {:induction false} BytesConcat(a: seq<Item>, b: seq<Item>)
    ensures Bytes(a + b) == Bytes(a) + Bytes(b)
  {
    if a == [] {
      assert a + b == b;
    } else {
      assert (a + b)[1..] == a[1..] + b;
      BytesConcat(a[1..], b);
    }
  }

  lemma BytesAt(items: seq<Item>, p: nat)
    requires p < |items|
    ensures Bytes(items) == Bytes(items[..p]) + OutcomeBytes(items[p]) + Bytes(items[p + 1..])
  {
    BytesConcat(items[..p], items[p..]);
    assert items == items[..p] + items[p..];
    assert items[p..][1..] == items[p + 1..];
  }

  lemma BytesRemoveAt(items: seq<Item>, p: nat)
    requires p < |items|
    ensures Bytes(RemoveAt(items, p)) == Bytes(items) - OutcomeBytes(items[p])
  {
    BytesAt(items, p);
    BytesConcat(items[..p], items[p + 1..]);
  }

  lemma BytesFinish(items: seq<Item>, key: DedupKey, outcome: seq<byte>)
    requires Has(items, key) && items[Find(items, key)].state.InFlight?
    ensures Bytes(Finish(items, key, outcome)) == Bytes(items) + |outcome|
  {
    var p := Find(items, key);
    var done := Finish(items, key, outcome);
    BytesAt(items, p);
    BytesAt(done, p);
    assert done[..p] == items[..p] && done[p + 1..] == items[p + 1..];
  }

  lemma {:induction false} NothingCompleted(items: seq<Item>, key: DedupKey)
    requires forall it <- items :: !Evictable(it, Some(key))
    requires forall it <- items :: it.key == key ==> it.state.InFlight?
    ensures Bytes(items) == 0
  {
    if items != [] {
      NothingCompleted(items[1..], key);
    }
  }

  // ------------------------------------------------------- subsequences

  /** `b` is `a` with some items removed, none of which is in flight: the order
      is kept and reservations are never lost. */
  ghost predicate Thinned(a: seq<Item>, b: seq<Item>)
    decreases |a|
  {
    if a == [] then b == []
    else (b != [] && a[0] == b[0] && Thinned(a[1..], b[1..]))
         || (a[0].state.Completed? && Thinned(a[1..], b))
  }

  lemma {:induction false} ThinnedSelf(a: seq<Item>)
    ensures Thinned(a, a)
  {
    if a != [] {
      ThinnedSelf(a[1..]);
    }
  }

  lemma {:induction false} ThinnedTransitive(a: seq<Item>, b: seq<Item>, d: seq<Item>)
    requires Thinned(a, b) && Thinned(b, d)
    ensures Thinned(a, d)
    decreases |a|
  {
    if a != [] {
      if b != [] && a[0] == b[0] && Thinned(a[1..], b[1..]) {
        if d != [] && b[0] == d[0] && Thinned(b[1..], d[1..]) {
          ThinnedTransitive(a[1..], b[1..], d[1..]);
        } else {
          ThinnedTransitive(a[1..], b[1..], d);
        }
      } else {
        ThinnedTransitive(a[1..], b, d);
      }
    }
  }

  lemma {:induction false} ThinnedRemove(a: seq<Item>, p: nat)
    requires p < |a| && a[p].state.Completed?
    ensures Thinned(a, RemoveAt(a, p))
  {
    if p == 0 {
      assert RemoveAt(a, 0) == a[1..];
      ThinnedSelf(a[1..]);
    } else {
      ThinnedRemove(a[1..], p - 1);
      assert RemoveAt(a, p)[1..] == RemoveAt(a[1..], p - 1);
    }
  }

  /** Thinning keeps every in-flight item, adds nothing, and keeps order. */
  lemma {:induction false} ThinnedMembers(a: seq<Item>, b: seq<Item>)
    requires Thinned(a, b)
    ensures forall it :: it in b ==> it in a
    ensures forall it :: it in a && it.state.InFlight? ==> it in b
    ensures |b| <= |a|
    ensures Distinct(a) ==> Distinct(b)
    decreases |a|
  {
    if a != [] {
      if b != [] && a[0] == b[0] && Thinned(a[1..], b[1..]) {
        ThinnedMembers(a[1..], b[1..]);
        assert forall it :: it in b <==> it == b[0] || it in b[1..];
        assert forall it :: it in a <==> it == a[0] || it in a[1..];
      } else {
        ThinnedMembers(a[1..], b);
        assert forall it :: it in a <==> it == a[0] || it in a[1..];
      }
    }
  }
}
