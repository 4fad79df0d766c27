/** The mutable table: a map, a queue and a byte counter that always agree with
    the ordered list. */
module DedupTables {
  import opened Core
  import opened DedupSpec
  import opened DedupLaws

  datatype Entry = Entry(fingerprint: Fingerprint, insertionSequence: nat, state: EntryState)

  type Entries = map<DedupKey, Entry>

  type Queue = seq<(nat, DedupKey)>

  /** Every queued key is in the map, under its own sequence number. */
  ghost predicate Numbered(entries: Entries, order: Queue) {
    forall i | 0 <= i < |order| ::
      order[i].1 in entries && entries[order[i].1].insertionSequence == order[i].0
  }

  ghost predicate Sorted(order: Queue) {
    forall i, j | 0 <= i < j < |order| :: order[i].0 < order[j].0
  }

  /** Every key of the map is queued. */
  ghost predicate Covered(entries: Entries, order: Queue) {
    forall k | k in entries :: exists i :: 0 <= i < |order| && order[i].1 == k
  }

  /** The queue is strictly sorted by sequence number and lists exactly the
      keys of the map, each with its entry's own number. */
  ghost predicate Linked(entries: Entries, order: Queue) {
    Numbered(entries, order) && Sorted(order) && Covered(entries, order)
  }

  function ItemOf(entries: Entries, key: DedupKey): Item
    requires key in entries
  {
    Item(key, entries[key].fingerprint, entries[key].state)
  }

  /** The ordered list the map and the queue stand for. */
  ghost function ItemsOf(entries: Entries, order: Queue): (items: seq<Item>)
    requires Linked(entries, order)
    ensures |items| == |order|
  {
    seq(|order|, i requires 0 <= i < |order| => ItemOf(entries, order[i].1))
  }

  lemma LinkedDistinct(entries: Entries, order: Queue)
    requires Linked(entries, order)
    ensures Distinct(ItemsOf(entries, order))
  {
  }

  lemma {:induction false} LinkedSize(entries: Entries, order: Queue)
    requires Linked(entries, order)
    ensures |entries| == |order|
    decreases |order|
  {
    if order == [] {
      assert entries == map[];
    } else {
      UnlinkAt(entries, order, 0);
      var key := order[0].1;
      LinkedSize(entries - {key}, RemoveAt(order, 0));
      assert entries.Keys == (entries - {key}).Keys + {key};
    }
  }

  /** A key is in the map exactly when the list has it, with the same entry. */
  lemma Lookup(entries: Entries, order: Queue, key: DedupKey)
    requires Linked(entries, order)
    ensures key in entries <==> Has(ItemsOf(entries, order), key)
    ensures key in entries ==>
              ItemsOf(entries, order)[Find(ItemsOf(entries, order), key)] == ItemOf(entries, key)
  {
    var items := ItemsOf(entries, order);
    if key in entries {
      var i :| 0 <= i < |order| && order[i].1 == key;
      assert items[i].key == key;
    }
  }

  lemma KeysDistinct(entries: Entries, order: Queue)
    requires Linked(entries, order)
    ensures forall i, j | 0 <= i < j < |order| :: order[i].1 != order[j].1
  {
  }

  /** Removing one queue position with its map entry removes that list item. */
  lemma UnlinkAt(entries: Entries, order: Queue, p: nat)
    requires Linked(entries, order) && p < |order|
    ensures Linked(entries - {order[p].1}, RemoveAt(order, p))
    ensures ItemsOf(entries - {order[p].1}, RemoveAt(order, p)) == RemoveAt(ItemsOf(entries, order), p)
  {
    UnlinkLinked(entries, order, p);
    var entries', order' := entries - {order[p].1}, RemoveAt(order, p);
    forall i | 0 <= i < |order'|
      ensures ItemsOf(entries', order')[i] == RemoveAt(ItemsOf(entries, order), p)[i]
    {
      assert order'[i] == order[if i < p then i else i + 1];
    }
  }

  lemma UnlinkLinked(entries: Entries, order: Queue, p: nat)
    requires Linked(entries, order) && p < |order|
    ensures Linked(entries - {order[p].1}, RemoveAt(order, p))
  {
    KeysDistinct(entries, order);
    UnlinkCovered(entries, order, p);
    var order' := RemoveAt(order, p);
    forall i | 0 <= i < |order'| ensures order'[i] == order[if i < p then i else i + 1] {
    }
  }

  lemma UnlinkCovered(entries: Entries, order: Queue, p: nat)
    requires Covered(entries, order) && p < |order|
    ensures Covered(entries - {order[p].1}, RemoveAt(order, p))
  {
    var order' := RemoveAt(order, p);
    forall k | k in entries && k != order[p].1 ensures exists i :: 0 <= i < |order'| && order'[i].1 == k {
      var i :| 0 <= i < |order| && order[i].1 == k;
      assert order'[if i < p then i else i - 1].1 == k;
    }
  }

  lemma LinkNew(entries: Entries, order: Queue, key: DedupKey, fp: Fingerprint, sequence: nat)
    requires Linked(entries, order) && key !in entries
    requires forall i | 0 <= i < |order| :: order[i].0 < sequence
    ensures var entries' := entries[key := Entry(fp, sequence, InFlight)];
            var order' := order + [(sequence, key)];
            && Linked(entries', order')
            && ItemsOf(entries', order') == ItemsOf(entries, order) + [Item(key, fp, InFlight)]
  {
    var entries' := entries[key := Entry(fp, sequence, InFlight)];
    var order' := order + [(sequence, key)];
    forall k | k in entries' ensures exists i :: 0 <= i < |order'| && order'[i].1 == k {
      if k == key {
        assert order'[|order|].1 == k;
      } else {
        var i :| 0 <= i < |order| && order[i].1 == k;
        assert order'[i].1 == k;
      }
    }
  }

  lemma LinkFinished(entries: Entries, order: Queue, key: DedupKey, outcome: seq<byte>)
    requires Linked(entries, order) && key in entries
    ensures var entries' := entries[key := entries[key].(state := Completed(outcome))];
            && Linked(entries', order)
            && ItemsOf(entries', order) == Finish(ItemsOf(entries, order), key, outcome)
  {
    Lookup(entries, order, key);
    LinkedDistinct(entries, order);
    var items := ItemsOf(entries, order);
    var p := Find(items, key);
    var entries' := entries[key := entries[key].(state := Completed(outcome))];
    assert Linked(entries', order);
    forall i | 0 <= i < |order| ensures ItemsOf(entries', order)[i] == Finish(items, key, outcome)[i] {
      assert i != p ==> items[i].key != items[p].key;
    }
  }

  class DedupTable {
    const config: Config
    var entries: Entries
    var order: Queue
    var retained: nat
    var lastSequence: nat

    ghost predicate Consistent()
      reads this
    {
      && Linked(entries, order)
      && (forall i | 0 <= i < |order| :: order[i].0 <= lastSequence)
      && retained == Bytes(ItemsOf(entries, order))
    }

    ghost function Contents(): Table
      reads this
      requires Consistent()
    {
      Table(ItemsOf(entries, order), lastSequence)
    }

    /** Map, queue and counter agree, and both bounds hold. */
    ghost predicate Valid()
      reads this
    {
      Consistent() && Good(config, Contents())
    }

    constructor (config: Config)
      ensures Valid() && this.config == config && Contents() == EMPTY
    {
      this.config := config;
      entries, order, retained, lastSequence := map[], [], 0, 0;
    }

    method Reserve(key: DedupKey, fp: Fingerprint) returns (r: Result<BeginResult, CoreError>)
      requires Valid()
      modifies this
      ensures Valid() && Begun(Contents(), r) == Begin(config, old(Contents()), key, fp)
    {
      hide Linked, ItemsOf, Good, Thinned, MakeRoom, Bytes;
      Lookup(entries, order, key);
      BeginLaw(config, Contents(), key, fp);
      if key in entries {
        var entry := entries[key];
        if entry.fingerprint != fp {
          return Ok(BeginConflict);
        }
        match entry.state {
          case InFlight => return Ok(AlreadyInFlight);
          case Completed(outcome) => return Ok(Replay(outcome));
        }
      }
      if lastSequence == U64_MAX {
        return Err(SequenceExhausted);
      }
      var admitted := TrimEntries(key);
      if !admitted {
        return Ok(Full);
      }
      Insert(key, fp);
      r := Ok(New);
    }

    /** Evicts oldest completed entries until one more entry fits. */
    method TrimEntries(ghost key: DedupKey) returns (admitted: bool)
      requires Consistent() && key !in entries
      modifies this
      ensures Consistent() && key !in entries && lastSequence == old(lastSequence)
      ensures ItemsOf(entries, order) == MakeRoom(old(ItemsOf(entries, order)), config.maxEntries)
      ensures admitted == (|ItemsOf(entries, order)| < config.maxEntries)
    {
      hide Linked, Bytes;
      LinkedSize(entries, order);
      while |entries| >= config.maxEntries
        invariant Consistent() && |entries| == |order| && key !in entries
        invariant lastSequence == old(lastSequence)
        invariant MakeRoom(ItemsOf(entries, order), config.maxEntries)
               == MakeRoom(old(ItemsOf(entries, order)), config.maxEntries)
        decreases |order|
      {
        var evicted := EvictOldest(None);
        LinkedSize(entries, order);
        if !evicted {
          return false;
        }
      }
      admitted := true;
    }

    /** Puts a new reservation last. */
    method Insert(key: DedupKey, fp: Fingerprint)
      requires Consistent() && key !in entries
      modifies this
      ensures Consistent() && lastSequence == old(lastSequence) + 1
      ensures ItemsOf(entries, order) == old(ItemsOf(entries, order)) + [Item(key, fp, InFlight)]
    {
      hide Linked;
      LinkNew(entries, order, key, fp, lastSequence + 1);
      BytesConcat(ItemsOf(entries, order), [Item(key, fp, InFlight)]);
      entries := entries[key := Entry(fp, lastSequence + 1, InFlight)];
      order := order + [(lastSequence + 1, key)];
      lastSequence := lastSequence + 1;
    }

    method Store(key: DedupKey, fp: Fingerprint, outcome: seq<byte>)
      returns (r: Result<CompleteResult, CoreError>)
      requires Valid()
      modifies this
      ensures Valid() && Finished(Contents(), r) == Complete(config, old(Contents()), key, fp, outcome)
    {
      hide Linked, ItemsOf, Good, Thinned, MakeSpace, Bytes;
      Lookup(entries, order, key);
      CompleteLaw(config, Contents(), key, fp, outcome);
      if key !in entries {
        return Ok(NotReserved);
      }
      if entries[key].fingerprint != fp {
        return Ok(CompleteConflict);
      }
      if entries[key].state.Completed? {
        return Ok(AlreadyCompleted);
      }
      if |outcome| > config.maxOutcomeBytes {
        return Err(OutcomeTooLarge(|outcome|, config.maxOutcomeBytes));
      }
      TrimBytes(key, |outcome|);
      if retained + |outcome| > config.maxTotalBytes {
        // The source's total-limit error: the bounds rule it out.
        assert false;
      }
      Fill(key, outcome);
      r := Ok(Done);
    }

    /** Evicts oldest other completed entries until `extra` more bytes fit. */
    method TrimBytes(key: DedupKey, extra: nat)
      requires Consistent() && key in entries && entries[key].state.InFlight?
      modifies this
      ensures Consistent() && key in entries && entries[key] == old(entries[key])
      ensures lastSequence == old(lastSequence)
      ensures ItemsOf(entries, order)
           == MakeSpace(old(ItemsOf(entries, order)), key, extra, config.maxTotalBytes)
    {
      hide Linked;
      while retained + extra > config.maxTotalBytes
        invariant Consistent() && key in entries && entries[key] == old(entries[key])
        invariant lastSequence == old(lastSequence)
        invariant MakeSpace(ItemsOf(entries, order), key, extra, config.maxTotalBytes)
               == MakeSpace(old(ItemsOf(entries, order)), key, extra, config.maxTotalBytes)
        decreases |order|
      {
        var evicted := EvictOldest(Some(key));
        if !evicted {
          break;
        }
      }
    }

    /** Stores an outcome in place. */
    method Fill(key: DedupKey, outcome: seq<byte>)
      requires Consistent() && key in entries && entries[key].state.InFlight?
      modifies this
      ensures Consistent() && lastSequence == old(lastSequence)
      ensures ItemsOf(entries, order) == Finish(old(ItemsOf(entries, order)), key, outcome)
    {
      hide Linked;
      Lookup(entries, order, key);
      LinkFinished(entries, order, key, outcome);
      BytesFinish(ItemsOf(entries, order), key, outcome);
      entries := entries[key := entries[key].(state := Completed(outcome))];
      retained := retained + |outcome|;
    }

    method Cancel(key: DedupKey, fp: Fingerprint) returns (r: AbortResult)
      requires Valid()
      modifies this
      ensures Valid() && Dropped(Contents(), r) == Abort(old(Contents()), key, fp)
    {
      hide Linked, Good, Bytes;
      Lookup(entries, order, key);
      AbortLaw(config, Contents(), key, fp);
      if key !in entries {
        return AbortNotReserved;
      }
      if entries[key].fingerprint != fp {
        return AbortConflict;
      }
      if entries[key].state.Completed? {
        return AbortCompleted;
      }
      var position := FindQueued(key);
      DropAt(position);
      r := Aborted;
    }

    /** The queue position of a listed key. */
    method FindQueued(key: DedupKey) returns (position: nat)
      requires Consistent() && key in entries
      ensures position < |order| && order[position].1 == key
      ensures position == Find(ItemsOf(entries, order), key)
    {
      var sequence := entries[key].insertionSequence;
      position := 0;
      while position < |order| && !(order[position].0 == sequence && order[position].1 == key)
        invariant position <= |order|
        invariant forall i | 0 <= i < position :: order[i].1 != key
      {
        position := position + 1;
      }
      PositionIsFind(entries, order, key, position);
    }

    method RestoreCompleted(key: DedupKey, fp: Fingerprint, outcome: seq<byte>)
      returns (r: Result<RestoreResult, CoreError>)
      requires Valid()
      modifies this
      ensures Valid() && Recovered(Contents(), r) == Restore(config, old(Contents()), key, fp, outcome)
    {
      var begun := Reserve(key, fp);
      if begun.Err? {
        return Err(begun.error);
      }
      match begun.value {
        case New =>
        case AlreadyInFlight => return Ok(RestoreInFlight);
        case Replay(existing) => return Ok(if existing == outcome then AlreadyPresent else RestoreConflict);
        case BeginConflict => return Ok(RestoreConflict);
        case Full => return Ok(RestoreFull);
      }
      var stored := Store(key, fp, outcome);
      if stored.Err? {
        return Err(stored.error);
      }
      match stored.value {
        case Done => r := Ok(Restored);
        case AlreadyCompleted => r := Ok(AlreadyPresent);
        case NotReserved => r := Ok(RestoreConflict);
        case CompleteConflict => r := Ok(RestoreConflict);
      }
    }

    /** Removes the oldest completed entry, if any other than `excluded`. */
    method EvictOldest(excluded: Option<DedupKey>) returns (evicted: bool)
      requires Consistent()
      modifies this
      ensures Consistent() && lastSequence == old(lastSequence)
      ensures var items := old(ItemsOf(entries, order));
              && evicted == CanEvict(items, excluded)
              && ItemsOf(entries, order) == (if evicted then Evict(items, excluded) else items)
      ensures evicted ==> |order| == |old(order)| - 1
      ensures entries.Keys <= old(entries.Keys)
      ensures forall k | k in old(entries) && (excluded == Some(k) || old(entries)[k].state.InFlight?) ::
                k in entries && entries[k] == old(entries)[k]
    {
      hide Bytes;
      var position := FindOldest(excluded);
      if position == |order| {
        return false;
      }
      DropAt(position);
      evicted := true;
    }

    /** The position of the oldest entry that may be evicted. */
    method FindOldest(excluded: Option<DedupKey>) returns (position: nat)
      requires Consistent()
      ensures position == Oldest(ItemsOf(entries, order), excluded)
    {
      ghost var items := ItemsOf(entries, order);
      position := 0;
      while position < |order|
            && (excluded == Some(order[position].1) || !entries[order[position].1].state.Completed?)
        invariant position <= |order|
        invariant forall i | 0 <= i < position :: !Evictable(items[i], excluded)
      {
        position := position + 1;
      }
      OldestIs(items, excluded, position);
    }

    /** Removes an entry from queue, map and byte count. */
    method DropAt(position: nat)
      requires Consistent() && position < |order|
      modifies this
      ensures Consistent() && lastSequence == old(lastSequence)
      ensures ItemsOf(entries, order) == RemoveAt(old(ItemsOf(entries, order)), position)
      ensures |order| == |old(order)| - 1
      ensures entries == old(entries) - {old(order)[position].1}
    {
      hide Sorted, Covered, Bytes;
      ghost var items := ItemsOf(entries, order);
      var key := order[position].1;
      UnlinkAt(entries, order, position);
      BytesRemoveAt(items, position);
      BytesAt(items, position);
      var removed := entries[key].state;
      order := RemoveAt(order, position);
      entries := entries - {key};
      if removed.Completed? {
        retained := retained - |removed.outcome|;
      }
    }
  }

  lemma OldestIs(items: seq<Item>, excluded: Option<DedupKey>, p: nat)
    requires p <= |items| && forall i | 0 <= i < p :: !Evictable(items[i], excluded)
    requires p < |items| ==> Evictable(items[p], excluded)
    ensures Oldest(items, excluded) == p
  {
    var q := Oldest(items, excluded);
  }

  lemma PositionIsFind(entries: Entries, order: Queue, key: DedupKey, p: nat)
    requires Linked(entries, order) && key in entries
    requires p <= |order| && forall i | 0 <= i < p :: order[i].1 != key
    requires p < |order| ==> order[p].1 == key
    ensures p < |order| && Find(ItemsOf(entries, order), key) == p
  {
    Lookup(entries, order, key);
    var items := ItemsOf(entries, order);
    var q := Find(items, key);
    assert items[q].key == order[q].1;
    assert p < |order| ==> items[p].key == key;
  }
}
