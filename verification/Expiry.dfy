/** How long a record stays in the cache: cache.go, with lifetimes in nanoseconds. */
module Expiry {
  import opened Octets
  import opened Names
  import opened Records
  import opened Tiebreak
  import opened Caching

  /** The operation is about key: an upsert of one of its records, or a removal of it or its name. */
  predicate Touches(op: Op, key: CacheKey) {
    match op
    case Upsert(rr) => RecordKey(rr) == key
    case Remove(k) => k == key
    case RemoveName(name) => LowerName(NormalizeName(name)) == key.name
    case Expire => false
  }

  predicate Untouched(later: seq<Timed>, key: CacheKey) {
    forall i :: 0 <= i < |later| ==> !Touches(later[i].op, key)
  }

  lemma {:induction false} LiveTwice(list: seq<Entry>, now: int, later: int)
    requires now <= later
    ensures Live(Live(list, now), later) == Live(list, later)
  {
    if list != [] {
      LiveTwice(list[1..], now, later);
    }
  }

  lemma UntouchedStep(t: Buckets, o: Timed, key: CacheKey, now: int)
    requires !Touches(o.op, key) && o.at <= now
    ensures Live(Bucket(Apply(t, o), key), now) == Live(Bucket(t, key), now)
  {
    hide Live, Place, RecordKey, LowerName, NormalizeName;
    if o.op.Expire? && key in t {
      LiveTwice(t[key], o.at, now);
    }
  }

  /** Whatever happens to other keys, and however often the cache is purged, a lookup finds the same. */
  lemma {:induction false} UntouchedLookup(h: seq<Timed>, later: seq<Timed>, key: CacheKey, now: int)
    requires Untouched(later, key) && NotAfter(later, now)
    ensures Live(Bucket(Run(h + later), key), now) == Live(Bucket(Run(h), key), now)
    ensures LookupIn(Run(h + later), key, now) == LookupIn(Run(h), key, now)
  {
    hide Live, Apply, Touches, RecordsOf;
    if later == [] {
      assert h + later == h;
    } else {
      var front, last := later[..|later| - 1], later[|later| - 1];
      assert (h + later)[..|h + later| - 1] == h + front && (h + later)[|h + later| - 1] == last;
      UntouchedLookup(h, front, key, now);
      UntouchedStep(Run(h + front), last, key, now);
    }
  }

  lemma {:induction false} UntouchedStatus(h: seq<Timed>, later: seq<Timed>, r: ResourceRecord)
    requires Untouched(later, RecordKey(r))
    ensures Status(h + later, r) == Status(h, r)
  {
    hide Status, RecordsEqual, RecordKey, LowerName, NormalizeName;
    if later == [] {
      assert h + later == h;
    } else {
      var front, last := later[..|later| - 1], later[|later| - 1];
      assert h + later == (h + front) + [last];
      UntouchedStatus(h, front, r);
      StatusSnoc(h + front, last, r);
      if last.op.Upsert? && RecordsEqual(last.op.rr, r) {
        EqualSameKey(last.op.rr, r);
      }
    }
  }

  /** A record that is upserted, and whose key nothing touches later, is found for as many seconds
      as its TTL says and no longer, and with that TTL. */
  lemma UpsertHolds(h: seq<Timed>, rr: ResourceRecord, at: int, later: seq<Timed>, now: int)
    requires Untouched(later, RecordKey(rr))
    requires InOrder(h + [Timed(Op.Upsert(rr), at)] + later) && NotAfter(h + [Timed(Op.Upsert(rr), at)] + later, now)
    ensures var found := LookupIn(Run(h + [Timed(Op.Upsert(rr), at)] + later), RecordKey(rr), now);
            && (Holds(found, rr) <==> now - at < rr.ttl as int * 1_000_000_000)
            && (Holds(found, rr) ==> HasAlike(found, rr, rr.ttl))
  {
    hide Status, Run, RecordsEqual, RecordKey, LookupIn, InOrder, NotAfter, Holds, HasAlike, Untouched;
    var upsert := Timed(Op.Upsert(rr), at);
    UntouchedStatus(h + [upsert], later, rr);
    StatusSnoc(h, upsert, rr);
    EqualIsEquivalence(rr, rr, rr);
    CacheHistory(h + [upsert] + later, rr, now);
  }

  /** A unique record that is upserted, and whose key nothing touches later, is all that is found
      under its key for as long as its TTL says; after that nothing is. */
  lemma FlushedFound(h: seq<Timed>, rr: ResourceRecord, at: int, later: seq<Timed>, now: int)
    requires rr.cacheFlush && Untouched(later, RecordKey(rr)) && NotAfter(later, now)
    ensures LookupIn(Run(h + [Timed(Op.Upsert(rr), at)] + later), RecordKey(rr), now) ==
            if now - at < rr.ttl as int * 1_000_000_000 then [rr] else []
  {
    hide RecordKey, Untouched, RecordsEqual;
    var upsert := Timed(Op.Upsert(rr), at);
    var all := h + [upsert];
    assert all[..|all| - 1] == h;
    UntouchedLookup(all, later, RecordKey(rr), now);
    assert Bucket(Run(all), RecordKey(rr)) == Place([], rr, at);
    FoundSteps(Place([], rr, at), 0, now);
    FoundSteps(Place([], rr, at), 1, now);
  }

  // ----- every entry -----

  /** Each entry expires as many seconds after it came as its TTL says. */
  predicate Aged(list: seq<Entry>) {
    forall i :: 0 <= i < |list| ==> list[i].expires == list[i].received + list[i].rr.ttl as int * 1_000_000_000
  }

  lemma {:induction false} PlaceAged(list: seq<Entry>, rr: ResourceRecord, now: int)
    requires Aged(list)
    ensures Aged(Place(list, rr, now))
  {
    hide RecordsEqual;
    if list != [] {
      PlaceAged(list[1..], rr, now);
    }
  }

  lemma LiveAged(list: seq<Entry>, now: int)
    requires Aged(list)
    ensures Aged(Live(list, now))
  {
    hide Live;
    LiveFrom(list, now);
    var live := Live(list, now);
    forall i | 0 <= i < |live|
      ensures live[i].expires == live[i].received + live[i].rr.ttl as int * 1_000_000_000
    {
      assert live[i] in list;
    }
  }

  lemma {:induction false} EntriesAged(h: seq<Timed>, key: CacheKey)
    ensures Aged(Bucket(Run(h), key))
  {
    hide Aged, Place, Live, RecordKey, NormalizeName, LowerName;
    NothingAged();
    if h != [] {
      var before, last := h[..|h| - 1], h[|h| - 1];
      EntriesAged(before, key);
      match last.op
      case Upsert(rr) =>
        if RecordKey(rr) == key {
          PlaceAged(if rr.cacheFlush then [] else Bucket(Run(before), key), rr, last.at);
        }
      case Expire => LiveAged(Bucket(Run(before), key), last.at);
      case _ =>
    }
  }

  lemma NothingAged()
    ensures Aged([])
  {
  }
}
