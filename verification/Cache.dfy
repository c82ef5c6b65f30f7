/**
 The packument cache: a TTL map under an entry cap and a byte budget, with running accounting in
 saturating 64-bit arithmetic, compared with an unbounded TTL map.
 */
module Cache {
  import opened Basics
  import opened Json
  import opened SizeEstimate

  datatype CacheKey = CacheKey(package: string, credential: Option<string>)

  datatype CacheEntry = CacheEntry(document: Value, stored: int, bytes: nat)

  type Entries = map<CacheKey, CacheEntry>

  /** What an unbounded TTL map holds under a key: the latest insert. */
  datatype Latest = Latest(document: Value, stored: int)

  /** `saturating_duration_since`. */
  function Elapsed(now: int, stored: int): nat {
    if now > stored then now - stored else 0
  }

  predicate IsFresh(stored: int, ttl: nat, now: int) {
    Elapsed(now, stored) < ttl
  }

  /** With caching on, an entry is fresh until a TTL after it was stored, also if the clock stood still. */
  lemma FreshReads(stored: int, ttl: nat, now: int)
    ensures ttl > 0 ==> (IsFresh(stored, ttl, now) <==> now < stored + ttl)
  {
  }

  /** The sum of the held entries' sizes. */
  ghost function Total(entries: Entries): nat
    decreases |entries|
  {
    if entries == map[] then 0
    else
      var k :| k in entries;
      assert (entries - {k}).Keys == entries.Keys - {k};
      entries[k].bytes + Total(entries - {k})
  }

  lemma {:induction false} TotalWithout(entries: Entries, key: CacheKey)
    requires key in entries
    ensures Total(entries) == entries[key].bytes + Total(entries - {key})
    decreases |entries|
  {
    var k :| k in entries && Total(entries) == entries[k].bytes + Total(entries - {k});
    if k != key {
      assert (entries - {k}).Keys == entries.Keys - {k};
      TotalWithout(entries - {k}, key);
      TotalWithout(entries - {key}, k);
      assert entries - {k} - {key} == entries - {key} - {k};
    }
  }

  lemma TotalWith(entries: Entries, key: CacheKey, entry: CacheEntry)
    requires key !in entries
    ensures Total(entries[key := entry]) == Total(entries) + entry.bytes
  {
    var more := entries[key := entry];
    TotalWithout(more, key);
    assert more - {key} == entries;
  }

  /** Room for one more entry, as the cache tests it. */
  predicate Fits(count: nat, bytes: nat, maxEntries: nat, maxBytes: nat, incoming: nat) {
    count < maxEntries && SaturatingAdd(bytes, incoming) <= maxBytes
  }

  /**
   The saturating test means the exact one, except under a budget of the largest `usize`: there
   it holds for totals past 64 bits, and only for those is it wrong.
   */
  lemma FitsExactly(count: nat, bytes: nat, maxEntries: nat, maxBytes: nat, incoming: nat)
    requires maxBytes <= U64_MAX
    ensures Fits(count, bytes, maxEntries, maxBytes, incoming) <==>
              && count < maxEntries
              && (bytes + incoming <= maxBytes || (maxBytes == U64_MAX && bytes + incoming > U64_MAX))
  {
  }

  lemma FitsBelowCeiling(count: nat, bytes: nat, maxEntries: nat, maxBytes: nat, incoming: nat)
    requires maxBytes < U64_MAX
    ensures Fits(count, bytes, maxEntries, maxBytes, incoming) <==> count < maxEntries && bytes + incoming <= maxBytes
  {
  }

  /** Entries in the order they were stored, oldest first; ties in any order. */
  ghost predicate ByAge(entries: Entries, order: seq<CacheKey>) {
    && (forall k :: k in order <==> k in entries)
    && Distinct(order)
    && forall i, j :: 0 <= i < j < |order| ==> entries[order[i]].stored <= entries[order[j]].stored
  }

  method SortByAge(entries: Entries) returns (order: seq<CacheKey>)
    ensures ByAge(entries, order)
  {
    order := [];
    var rest := entries.Keys;
    while rest != {}
      invariant rest <= entries.Keys
      invariant forall k :: k in order <==> k in entries && k !in rest
      invariant Distinct(order)
      invariant forall i, j :: 0 <= i < j < |order| ==> entries[order[i]].stored <= entries[order[j]].stored
      invariant forall k, r :: k in order && r in rest ==> entries[k].stored <= entries[r].stored
    {
      OldestExists(entries, rest);
      var k :| k in rest && forall r :: r in rest ==> entries[k].stored <= entries[r].stored;
      order := order + [k];
      rest := rest - {k};
    }
  }

  lemma {:induction false} OldestExists(entries: Entries, keys: set<CacheKey>)
    requires keys != {} && keys <= entries.Keys
    ensures exists k :: k in keys && forall r :: r in keys ==> entries[k].stored <= entries[r].stored
  {
    var x :| x in keys;
    if keys - {x} == {} {
      assert keys == {x};
    } else {
      OldestExists(entries, keys - {x});
      var k :| k in keys - {x} && forall r :: r in keys - {x} ==> entries[k].stored <= entries[r].stored;
      if entries[x].stored < entries[k].stored {
        assert forall r :: r in keys ==> entries[x].stored <= entries[r].stored;
      } else {
        assert forall r :: r in keys ==> entries[k].stored <= entries[r].stored;
      }
    }
  }

  /** `kept` is what `held` keeps: a part of it, unchanged. */
  ghost predicate PartOf(kept: Entries, held: Entries) {
    kept.Keys <= held.Keys && forall k :: k in kept ==> kept[k] == held[k]
  }

  ghost predicate EvictedFresh(kept: Entries, held: Entries, ttl: nat, now: int, e: CacheKey) {
    e in held && e !in kept && IsFresh(held[e].stored, ttl, now)
  }

  /** No evicted entry that was still fresh is younger than any entry kept. */
  ghost predicate OldestWentFirst(kept: Entries, held: Entries, ttl: nat, now: int) {
    forall e, k :: EvictedFresh(kept, held, ttl, now, e) && k in kept ==> held[e].stored <= kept[k].stored
  }

  /** No evicted entry that was still fresh is younger than this one. */
  ghost predicate YoungestEvicted(kept: Entries, held: Entries, ttl: nat, now: int, e: CacheKey) {
    && EvictedFresh(kept, held, ttl, now, e)
    && forall g :: EvictedFresh(kept, held, ttl, now, g) ==> held[g].stored <= held[e].stored
  }

  /** If a fresh entry was evicted, keeping the youngest of them as well would have left no room. */
  ghost predicate NoMoreThanNeeded(kept: Entries, held: Entries, ttl: nat, now: int,
                                   maxEntries: nat, maxBytes: nat, incoming: nat) {
    (exists e :: EvictedFresh(kept, held, ttl, now, e)) ==>
      exists e :: YoungestEvicted(kept, held, ttl, now, e)
                  && !(|kept| + 1 < maxEntries && Total(kept) + held[e].bytes + incoming <= maxBytes)
  }

  ghost predicate AllFresh(entries: Entries, ttl: nat, now: int) {
    forall k :: k in entries ==> IsFresh(entries[k].stored, ttl, now)
  }

  /**
   A fair eviction: nothing is altered, nothing expired stays if anything goes, the oldest fresh
   entries went first, and no more of them than needed.
   */
  ghost predicate FairEviction(kept: Entries, held: Entries, ttl: nat, now: int,
                               maxEntries: nat, maxBytes: nat, incoming: nat) {
    && PartOf(kept, held)
    && (kept != held ==> AllFresh(kept, ttl, now))
    && OldestWentFirst(kept, held, ttl, now)
    && NoMoreThanNeeded(kept, held, ttl, now, maxEntries, maxBytes, incoming)
  }

  /**
   What storing a document under a key does to the held entries. With caching on and a document
   within the budget the key holds it; a larger document leaves the key empty. The other entries
   lose none when there is room for the document beside them or nothing is stored, and otherwise
   only by a fair eviction.
   */
  ghost predicate StoredOver(before: Entries, after: Entries, key: CacheKey, document: Value, now: int,
                             ttl: nat, maxEntries: nat, maxBytes: nat) {
    var size := Min(U64_MAX, Cost(document));
    var enabled := ttl > 0 && maxEntries > 0 && maxBytes > 0;
    var others := before - {key};
    && (key in after <==> enabled && size <= maxBytes)
    && (key in after ==> after[key] == CacheEntry(document, now, size))
    && FairEviction(after - {key}, others, ttl, now, maxEntries, maxBytes, size)
    && (!enabled || size > maxBytes || (|others| < maxEntries && Total(others) + size <= maxBytes) ==>
          after - {key} == others)
  }

  /** Every held entry is the latest insert under its key, with its true size. */
  ghost predicate Faithful(entries: Entries, latest: map<CacheKey, Latest>) {
    forall k :: k in entries ==>
      && entries[k].bytes == Min(U64_MAX, Cost(entries[k].document))
      && k in latest && latest[k] == Latest(entries[k].document, entries[k].stored)
  }

  lemma FaithfulPart(kept: Entries, held: Entries, latest: map<CacheKey, Latest>)
    requires Faithful(held, latest) && PartOf(kept, held)
    ensures Faithful(kept, latest)
  {
  }

  /** A new latest insert leaves the other entries faithful, and so is the entry that holds it. */
  lemma FaithfulInsert(entries: Entries, latest: map<CacheKey, Latest>, key: CacheKey, document: Value, now: int)
    requires Faithful(entries, latest)
    ensures Faithful(entries - {key}, latest[key := Latest(document, now)])
    ensures entries == map[] ==> Faithful(entries, latest[key := Latest(document, now)])
    ensures Faithful((entries - {key})[key := CacheEntry(document, now, Min(U64_MAX, Cost(document)))],
                     latest[key := Latest(document, now)])
  {
  }

  class PackumentCache {
    const ttl: nat
    const maxEntries: nat
    const maxBytes: nat
    var entries: Entries
    var bytes: nat
    /** What an unbounded TTL map would hold after the same calls. */
    ghost var latest: map<CacheKey, Latest>

    ghost predicate Valid()
      reads this
    {
      && maxBytes < U64_MAX
      && bytes == Total(entries)
      && |entries| <= maxEntries && bytes <= maxBytes
      && (ttl == 0 || maxEntries == 0 || maxBytes == 0 ==> entries == map[])
      && Faithful(entries, latest)
    }

    constructor (ttl: nat, maxEntries: nat, maxBytes: nat)
      requires maxBytes < U64_MAX
      ensures Valid() && entries == map[] && latest == map[]
      ensures this.ttl == ttl && this.maxEntries == maxEntries && this.maxBytes == maxBytes
    {
      this.ttl, this.maxEntries, this.maxBytes := ttl, maxEntries, maxBytes;
      entries, bytes, latest := map[], 0, map[];
    }

    /** After removing a key the total is again the sum over what is left, without saturation. */
    method Remove(key: CacheKey)
      requires bytes == Total(entries)
      modifies this`entries, this`bytes
      ensures bytes == Total(entries)
      ensures entries == old(entries) - {key}
    {
      if key in entries {
        TotalWithout(entries, key);
        assert bytes >= entries[key].bytes;
        bytes := SaturatingSub(bytes, entries[key].bytes);
        entries := entries - {key};
      } else {
        assert entries - {key} == entries;
      }
    }

    /** First pass: drop what has expired, freeing its bytes at once. */
    method DropExpired(now: int)
      requires bytes == Total(entries) <= U64_MAX
      modifies this`entries, this`bytes
      ensures bytes == Total(entries) <= old(bytes)
      ensures PartOf(entries, old(entries))
      ensures forall k :: k in old(entries) ==> (k in entries <==> IsFresh(old(entries)[k].stored, ttl, now))
    {
      var freed := 0;
      var kept := entries;
      var rest := entries.Keys;
      while rest != {}
        invariant rest <= entries.Keys
        invariant PartOf(kept, entries)
        invariant forall k :: k in entries ==> (k in kept <==> k in rest || IsFresh(entries[k].stored, ttl, now))
        invariant Total(kept) + freed == bytes
        invariant entries == old(entries) && bytes == old(bytes)
      {
        var k :| k in rest;
        rest := rest - {k};
        if !IsFresh(entries[k].stored, ttl, now) {
          TotalWithout(kept, k);
          freed := SaturatingAdd(freed, kept[k].bytes);
          kept := kept - {k};
        }
      }
      entries := kept;
      bytes := SaturatingSub(bytes, freed);
    }

    /**
     Make room for `incoming` more bytes. It always ends with room; it drops nothing when there
     was room; otherwise everything expired goes, and then fresh entries oldest first, no more of
     them than needed.
     */
    method MakeRoom(incoming: nat, now: int)
      requires Valid() && ttl > 0 && maxEntries > 0 && maxBytes > 0 && incoming <= maxBytes
      modifies this`entries, this`bytes
      ensures Valid()
      ensures |entries| < maxEntries && bytes + incoming <= maxBytes
      ensures Fits(|old(entries)|, old(bytes), maxEntries, maxBytes, incoming) ==> entries == old(entries)
      ensures entries != old(entries) ==> AllFresh(entries, ttl, now)
      ensures FairEviction(entries, old(entries), ttl, now, maxEntries, maxBytes, incoming)
    {
      hide Total, IsFresh, Fits, FairEviction, AllFresh, Faithful, PartOf, Elapsed;
      ghost var held := entries;
      FitsBelowCeiling(|entries|, bytes, maxEntries, maxBytes, incoming);
      KeepingAllIsFair(entries, ttl, now, maxEntries, maxBytes, incoming);
      if Fits(|entries|, bytes, maxEntries, maxBytes, incoming) {
        return;
      }
      DropExpired(now);
      ghost var unexpired := entries;
      JustExpiredWent(unexpired, held, latest, ttl, now);
      FitsBelowCeiling(|entries|, bytes, maxEntries, maxBytes, incoming);
      KeepingAllIsFair(entries, ttl, now, maxEntries, maxBytes, incoming);
      if !Fits(|entries|, bytes, maxEntries, maxBytes, incoming) {
        EvictOldest(incoming, now);
      }
      FairAfterExpiry(entries, unexpired, held, ttl, now, maxEntries, maxBytes, incoming);
    }

    /** Evict the next victim in order of age. */
    method EvictNext(ghost held: Entries, order: seq<CacheKey>, i: nat, incoming: nat)
      requires bytes == Total(entries) && i < |order| && ByAge(held, order)
      requires Evicted(entries, held, order, i, maxEntries, maxBytes, incoming)
      requires !(|entries| < maxEntries && bytes + incoming <= maxBytes)
      modifies this`entries, this`bytes
      ensures bytes == Total(entries) <= old(bytes) && |entries| <= |old(entries)|
      ensures Evicted(entries, held, order, i + 1, maxEntries, maxBytes, incoming)
    {
      EvictOne(entries, held, order, i, maxEntries, maxBytes, incoming);
      hide Total, Evicted, ByAge;
      Remove(order[i]);
    }

    /** Second pass: evict oldest-stored first until both limits fit. */
    method EvictOldest(incoming: nat, now: int)
      requires Valid() && ttl > 0 && maxEntries > 0 && maxBytes > 0 && incoming <= maxBytes
      requires AllFresh(entries, ttl, now)
      modifies this`entries, this`bytes
      ensures Valid()
      ensures |entries| < maxEntries && bytes + incoming <= maxBytes
      ensures FairEviction(entries, old(entries), ttl, now, maxEntries, maxBytes, incoming)
    {
      hide AllFresh, FairEviction, Total, IsFresh, Fits, OldestWentFirst, NoMoreThanNeeded, Evicted, ByAge, Faithful;
      hide PartOf, Victims, LastWasNeeded, Elapsed, SaturatingAdd, Distinct;
      var order := SortByAge(entries);
      ghost var held := entries;
      NothingEvicted(held, order, maxEntries, maxBytes, incoming);
      for i := 0 to |order|
        invariant bytes == Total(entries) && bytes <= maxBytes && |entries| <= maxEntries
        invariant Evicted(entries, held, order, i, maxEntries, maxBytes, incoming)
      {
        FitsBelowCeiling(|entries|, bytes, maxEntries, maxBytes, incoming);
        if Fits(|entries|, bytes, maxEntries, maxBytes, incoming) {
          StoppedEvicting(entries, held, order, i, ttl, now, maxEntries, maxBytes, incoming);
          FaithfulPart(entries, held, latest);
          return;
        }
        EvictNext(held, order, i, incoming);
      }
      EvictedAll(entries, held, order, maxEntries, maxBytes, incoming);
      StoppedEvicting(entries, held, order, |order|, ttl, now, maxEntries, maxBytes, incoming);
      FaithfulPart(entries, held, latest);
      NothingHeld();
    }

    /** Hold a document that fits the budget, under a key that holds nothing, making room first. */
    method Hold(key: CacheKey, document: Value, size: nat, now: int)
      requires Valid() && ttl > 0 && maxEntries > 0 && maxBytes > 0
      requires key !in entries && key in latest && latest[key] == Latest(document, now)
      requires size == Min(U64_MAX, Cost(document)) <= maxBytes
      modifies this`entries, this`bytes
      ensures Valid()
      ensures StoredOver(old(entries), entries, key, document, now, ttl, maxEntries, maxBytes)
    {
      hide Total, IsFresh, FairEviction, Cost, Faithful, StoredOver, Elapsed;
      ghost var others := entries;
      FitsBelowCeiling(|entries|, bytes, maxEntries, maxBytes, size);
      MakeRoom(size, now);
      ghost var kept := entries;
      FaithfulHeld(entries, others, latest, key, document, now) by {
        FairIsPart(entries, others, ttl, now, maxEntries, maxBytes, size);
      }
      TotalWith(entries, key, CacheEntry(document, now, size));
      bytes := SaturatingAdd(bytes, size);
      entries := entries[key := CacheEntry(document, now, size)];
      HeldOver(others, kept, key, document, now, ttl, maxEntries, maxBytes);
    }

    /** Store a document, unless caching is off or it is larger than the whole budget. */
    method InsertAt(key: CacheKey, document: Value, now: int)
      requires Valid()
      modifies this
      ensures Valid()
      ensures latest == old(latest)[key := Latest(document, now)]
      ensures StoredOver(old(entries), entries, key, document, now, ttl, maxEntries, maxBytes)
    {
      hide Total, IsFresh, Cost, Faithful, StoredOver, Elapsed;
      FaithfulInsert(entries, latest, key, document, now);
      NothingHeldOver(entries, key, document, now, ttl, maxEntries, maxBytes);
      latest := latest[key := Latest(document, now)];
      if ttl == 0 || maxEntries == 0 || maxBytes == 0 {
        return;
      }
      var size := EstimateSize(document);
      WithoutKey(entries, key);
      Remove(key);
      if size > maxBytes {
        return;
      }
      Hold(key, document, size, now);
      OverOthers(old(entries), entries, key, document, now, ttl, maxEntries, maxBytes);
    }

    /**
     The cached document for a key, if it is still fresh. The bounded cache refines the unbounded
     TTL map: it answers nothing, or the latest document stored under that very package and
     credential less than one TTL ago.
     */
    method GetAt(key: CacheKey, now: int) returns (document: Option<Value>)
      requires Valid()
      ensures document.Some? <==> key in entries && now < entries[key].stored + ttl
      ensures document.Some? ==>
        key in latest && latest[key].document == document.value && now < latest[key].stored + ttl
    {
      if key !in entries {
        return None;
      }
      document := if IsFresh(entries[key].stored, ttl, now) then Some(entries[key].document) else None;
    }

    method Clear()
      requires Valid()
      modifies this
      ensures Valid() && entries == map[] && latest == map[]
    {
      entries, bytes, latest := map[], 0, map[];
    }
  }

  lemma {:induction false} PartSize(part: Entries, whole: Entries)
    requires PartOf(part, whole)
    ensures |part| <= |whole| && Total(part) <= Total(whole)
    decreases |whole|
  {
    if part.Keys == whole.Keys {
      assert part == whole;
    } else {
      var k :| k in whole && k !in part;
      assert (whole - {k}).Keys == whole.Keys - {k};
      TotalWithout(whole, k);
      PartSize(part, whole - {k});
    }
  }

  lemma NotYetReached(order: seq<CacheKey>, i: nat)
    requires Distinct(order) && i < |order|
    ensures order[i] !in order[..i]
  {
  }

  lemma EvictedAreOldest(held: Entries, kept: Entries, order: seq<CacheKey>, i: nat, ttl: nat, now: int)
    requires ByAge(held, order) && i <= |order|
    requires PartOf(kept, held)
    requires forall k :: k in held ==> (k in kept <==> k !in order[..i])
    ensures OldestWentFirst(kept, held, ttl, now)
  {
    forall e, k | e in held && e !in kept && k in kept
      ensures held[e].stored <= kept[k].stored
    {
      var a :| 0 <= a < i && order[a] == e;
      assert k in order;
      var b :| 0 <= b < |order| && order[b] == k;
      forall c | 0 <= c < i
        ensures order[c] !in kept
      {
        assert order[..i][c] == order[c];
      }
    }
  }

  /** The last entry evicted really had to go: with it still held there was no room. */
  ghost predicate LastWasNeeded(kept: Entries, held: Entries, last: CacheKey, maxEntries: nat, maxBytes: nat,
                                incoming: nat) {
    last in held && last !in kept && !(|kept| + 1 < maxEntries && Total(kept) + held[last].bytes + incoming <= maxBytes)
  }

  function Victims(order: seq<CacheKey>, i: nat): set<CacheKey>
    requires i <= |order|
  {
    set k | k in order[..i]
  }

  /** What the eviction loop has done after its first i victims. */
  ghost predicate Evicted(kept: Entries, held: Entries, order: seq<CacheKey>, i: nat, maxEntries: nat, maxBytes: nat,
                          incoming: nat) {
    && i <= |order|
    && kept == held - Victims(order, i)
    && (i > 0 ==> LastWasNeeded(kept, held, order[i - 1], maxEntries, maxBytes, incoming))
  }

  lemma EvictOne(kept: Entries, held: Entries, order: seq<CacheKey>, i: nat, maxEntries: nat, maxBytes: nat,
                 incoming: nat)
    requires ByAge(held, order) && i < |order|
    requires Evicted(kept, held, order, i, maxEntries, maxBytes, incoming)
    requires !(|kept| < maxEntries && Total(kept) + incoming <= maxBytes)
    ensures order[i] in kept
    ensures Evicted(kept - {order[i]}, held, order, i + 1, maxEntries, maxBytes, incoming)
    ensures |kept - {order[i]}| <= |kept| && Total(kept - {order[i]}) <= Total(kept)
  {
    hide ByAge, Total, Victims;
    NextVictim(held, order, i);
    var last, victims := order[i], Victims(order, i);
    assert last in held && last !in victims;
    assert kept[last] == held[last];
    WithoutKey(kept, last);
    TotalWithout(kept, last);
    MinusOneMore(held, victims, last);
    SizeWithout(kept, last);
  }

  lemma SizeWithout(entries: Entries, key: CacheKey)
    requires key in entries
    ensures |entries - {key}| + 1 == |entries|
  {
    assert entries.Keys == (entries - {key}).Keys + {key};
  }

  lemma MinusOneMore(held: Entries, victims: set<CacheKey>, last: CacheKey)
    ensures held - victims - {last} == held - (victims + {last})
  {
  }

  lemma NextVictim(held: Entries, order: seq<CacheKey>, i: nat)
    requires ByAge(held, order) && i < |order|
    ensures order[i] in held && order[i] !in Victims(order, i)
    ensures Victims(order, i + 1) == Victims(order, i) + {order[i]}
  {
    NotYetReached(order, i);
    assert order[i] in order;
    assert order[..i + 1] == order[..i] + [order[i]];
  }

  lemma StoppedEvicting(kept: Entries, held: Entries, order: seq<CacheKey>, i: nat, ttl: nat, now: int,
                        maxEntries: nat, maxBytes: nat, incoming: nat)
    requires ByAge(held, order)
    requires AllFresh(held, ttl, now)
    requires Evicted(kept, held, order, i, maxEntries, maxBytes, incoming)
    ensures PartOf(kept, held)
    ensures FairEviction(kept, held, ttl, now, maxEntries, maxBytes, incoming)
  {
    hide Total, IsFresh;
    EvictedAreOldest(held, kept, order, i, ttl, now);
    FreshPart(kept, held, ttl, now);
    if i > 0 {
      LastIsYoungest(kept, held, order, i, ttl, now);
      assert YoungestEvicted(kept, held, ttl, now, order[i - 1]);
    }
  }

  lemma FreshPart(kept: Entries, held: Entries, ttl: nat, now: int)
    requires PartOf(kept, held) && AllFresh(held, ttl, now)
    ensures AllFresh(kept, ttl, now)
  {
  }

  lemma LastIsYoungest(kept: Entries, held: Entries, order: seq<CacheKey>, i: nat, ttl: nat, now: int)
    requires ByAge(held, order) && 0 < i <= |order| && AllFresh(held, ttl, now)
    requires kept == held - Victims(order, i)
    ensures YoungestEvicted(kept, held, ttl, now, order[i - 1])
  {
    var last := order[i - 1];
    assert order[..i][i - 1] == last;
    assert last in order;
    forall g | EvictedFresh(kept, held, ttl, now, g)
      ensures held[g].stored <= held[last].stored
    {
      var a :| 0 <= a < i && order[..i][a] == g;
      assert order[a] == g;
    }
  }

  lemma NothingEvicted(held: Entries, order: seq<CacheKey>, maxEntries: nat, maxBytes: nat, incoming: nat)
    ensures Evicted(held, held, order, 0, maxEntries, maxBytes, incoming)
  {
  }

  lemma JustExpiredWent(unexpired: Entries, held: Entries, latest: map<CacheKey, Latest>, ttl: nat, now: int)
    requires PartOf(unexpired, held) && Faithful(held, latest)
    requires forall k :: k in held ==> (k in unexpired <==> IsFresh(held[k].stored, ttl, now))
    ensures AllFresh(unexpired, ttl, now) && Faithful(unexpired, latest)
    ensures |unexpired| <= |held|
  {
    FaithfulPart(unexpired, held, latest);
    hide IsFresh;
    PartSize(unexpired, held);
  }

  /** A fair eviction after everything expired went is fair on the whole. */
  lemma FairAfterExpiry(kept: Entries, unexpired: Entries, held: Entries, ttl: nat, now: int,
                        maxEntries: nat, maxBytes: nat, incoming: nat)
    requires PartOf(unexpired, held)
    requires forall k :: k in held ==> (k in unexpired <==> IsFresh(held[k].stored, ttl, now))
    requires FairEviction(kept, unexpired, ttl, now, maxEntries, maxBytes, incoming)
    ensures FairEviction(kept, held, ttl, now, maxEntries, maxBytes, incoming)
    ensures kept != held ==> AllFresh(kept, ttl, now)
  {
    hide IsFresh, Total;
    forall e
      ensures EvictedFresh(kept, held, ttl, now, e) <==> EvictedFresh(kept, unexpired, ttl, now, e)
    {
    }
    if exists e :: EvictedFresh(kept, unexpired, ttl, now, e) {
      var e :| YoungestEvicted(kept, unexpired, ttl, now, e)
               && !(|kept| + 1 < maxEntries && Total(kept) + unexpired[e].bytes + incoming <= maxBytes);
      assert YoungestEvicted(kept, held, ttl, now, e);
    }
  }

  lemma FairIsPart(kept: Entries, held: Entries, ttl: nat, now: int, maxEntries: nat, maxBytes: nat, incoming: nat)
    requires FairEviction(kept, held, ttl, now, maxEntries, maxBytes, incoming)
    ensures PartOf(kept, held)
  {
  }

  /** Storing on top of what a fair eviction kept. */
  lemma HeldOver(others: Entries, kept: Entries, key: CacheKey, document: Value, now: int, ttl: nat, maxEntries: nat,
                 maxBytes: nat)
    requires ttl > 0 && maxEntries > 0 && maxBytes > 0
    requires key !in others
    requires Min(U64_MAX, Cost(document)) <= maxBytes
    requires FairEviction(kept, others, ttl, now, maxEntries, maxBytes, Min(U64_MAX, Cost(document)))
    requires |others| < maxEntries && Total(others) + Min(U64_MAX, Cost(document)) <= maxBytes ==> kept == others
    ensures StoredOver(others, kept[key := CacheEntry(document, now, Min(U64_MAX, Cost(document)))], key, document, now,
                       ttl, maxEntries, maxBytes)
  {
    hide FairEviction, Total, Cost;
    assert others - {key} == others;
    FairIsPart(kept, others, ttl, now, maxEntries, maxBytes, Min(U64_MAX, Cost(document)));
    InsertFrame(kept, key, CacheEntry(document, now, Min(U64_MAX, Cost(document))));
  }

  /** Storing nothing: caching is off, or the document is larger than the whole budget. */
  lemma NothingHeldOver(entries: Entries, key: CacheKey, document: Value, now: int, ttl: nat, maxEntries: nat,
                        maxBytes: nat)
    ensures entries == map[] && (ttl == 0 || maxEntries == 0 || maxBytes == 0) ==>
              StoredOver(entries, entries, key, document, now, ttl, maxEntries, maxBytes)
    ensures Min(U64_MAX, Cost(document)) > maxBytes ==>
              StoredOver(entries, entries - {key}, key, document, now, ttl, maxEntries, maxBytes)
  {
    hide Total, Cost, FairEviction;
    assert entries - {key} - {key} == entries - {key};
    assert entries == map[] ==> entries - {key} == entries;
    KeepingAllIsFair(entries - {key}, ttl, now, maxEntries, maxBytes, Min(U64_MAX, Cost(document)));
  }

  lemma KeepingAllIsFair(entries: Entries, ttl: nat, now: int, maxEntries: nat, maxBytes: nat, incoming: nat)
    ensures FairEviction(entries, entries, ttl, now, maxEntries, maxBytes, incoming)
  {
  }

  lemma OverOthers(before: Entries, after: Entries, key: CacheKey, document: Value, now: int, ttl: nat,
                   maxEntries: nat, maxBytes: nat)
    requires StoredOver(before - {key}, after, key, document, now, ttl, maxEntries, maxBytes)
    ensures StoredOver(before, after, key, document, now, ttl, maxEntries, maxBytes)
  {
    hide Total, Cost, FairEviction;
    assert before - {key} - {key} == before - {key};
  }

  lemma WithoutKey(entries: Entries, key: CacheKey)
    ensures |entries - {key}| <= |entries| && Total(entries - {key}) <= Total(entries)
    ensures entries - {key} - {key} == entries - {key}
    ensures key !in entries - {key}
  {
    hide Total;
    PartSize(entries - {key}, entries);
  }

  /** The entry just stored on top of what was kept. */
  lemma FaithfulHeld(kept: Entries, others: Entries, latest: map<CacheKey, Latest>, key: CacheKey, document: Value,
                     now: int)
    requires PartOf(kept, others) && key !in others && Faithful(others, latest)
    requires key in latest && latest[key] == Latest(document, now)
    ensures var entry := CacheEntry(document, now, Min(U64_MAX, Cost(document)));
      && key !in kept
      && Faithful(kept[key := entry], latest)
      && kept[key := entry] - {key} == kept
      && |kept[key := entry]| == |kept| + 1
  {
    hide Cost;
    var entry := CacheEntry(document, now, Min(U64_MAX, Cost(document)));
    InsertFrame(kept, key, entry);
    FaithfulPart(kept, others, latest);
  }

  lemma InsertFrame(kept: Entries, key: CacheKey, entry: CacheEntry)
    requires key !in kept
    ensures kept[key := entry] - {key} == kept
    ensures |kept[key := entry]| == |kept| + 1
  {
    assert kept[key := entry].Keys == kept.Keys + {key};
  }

  lemma NothingHeld()
    ensures Total(map[]) == 0
  {
  }

  lemma EvictedAll(kept: Entries, held: Entries, order: seq<CacheKey>, maxEntries: nat, maxBytes: nat, incoming: nat)
    requires ByAge(held, order)
    requires Evicted(kept, held, order, |order|, maxEntries, maxBytes, incoming)
    ensures kept == map[]
  {
    assert order[..|order|] == order;
    assert held.Keys <= Victims(order, |order|);
    assert kept.Keys == {};
  }
}
