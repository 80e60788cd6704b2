/** The record cache: cache.go, and the cache pass of handleResponse in server.go. */
module Caching {
  import opened Octets
  import opened Names
  import opened Records
  import opened Tiebreak

  datatype CacheKey = CacheKey(name: Bytes, rtype: U16)

  /** rrKey */
  function KeyFor(name: Bytes, rtype: U16): CacheKey {
    CacheKey(LowerName(NormalizeName(name)), rtype)
  }

  function RecordKey(rr: ResourceRecord): CacheKey {
    KeyFor(rr.name, rr.rtype)
  }

  datatype Entry = Entry(rr: ResourceRecord, expires: int, received: int)

  type Buckets = map<CacheKey, seq<Entry>>

  // ----- one list -----

  function Lifetime(rr: ResourceRecord): int {
    rr.ttl as int * SECOND
  }

  /** The list with rr in it: the first equal entry is refreshed, or a new entry comes last. */
  function Place(list: seq<Entry>, rr: ResourceRecord, now: int): seq<Entry> {
    if list == [] then [Entry(rr, now + Lifetime(rr), now)]
    else if RecordsEqual(list[0].rr, rr) then
      [Entry(list[0].rr.(ttl := rr.ttl), now + Lifetime(rr), now)] + list[1..]
    else [list[0]] + Place(list[1..], rr, now)
  }

  function Live(list: seq<Entry>, now: int): seq<Entry> {
    if list == [] then []
    else if list[0].expires > now then [list[0]] + Live(list[1..], now)
    else Live(list[1..], now)
  }

  // ----- operations -----

  datatype Op = Upsert(rr: ResourceRecord) | Remove(key: CacheKey) | RemoveName(name: Bytes) | Expire

  datatype Timed = Timed(op: Op, at: int)

  function Bucket(t: Buckets, key: CacheKey): seq<Entry> {
    if key in t then t[key] else []
  }

  function Apply(t: Buckets, o: Timed): Buckets {
    match o.op
    case Upsert(rr) =>
      var existing := if rr.cacheFlush then [] else Bucket(t, RecordKey(rr));
      t[RecordKey(rr) := Place(existing, rr, o.at)]
    case Remove(key) => t - {key}
    case RemoveName(name) => map k | k in t && k.name != LowerName(NormalizeName(name)) :: t[k]
    case Expire => map k | k in t && Live(t[k], o.at) != [] :: Live(t[k], o.at)
  }

  function RecordsOf(list: seq<Entry>): seq<ResourceRecord> {
    seq(|list|, i requires 0 <= i < |list| => list[i].rr)
  }

  function LookupIn(t: Buckets, key: CacheKey, now: int): seq<ResourceRecord> {
    RecordsOf(Live(Bucket(t, key), now))
  }

  /** The cache after a history of operations. */
  function Run(h: seq<Timed>): Buckets {
    if h == [] then map[] else Apply(Run(h[..|h| - 1]), h[|h| - 1])
  }

  predicate InOrder(h: seq<Timed>) {
    forall i, j :: 0 <= i < j < |h| ==> h[i].at <= h[j].at
  }

  predicate NotAfter(h: seq<Timed>, now: int) {
    forall i :: 0 <= i < |h| ==> h[i].at <= now
  }

  // ----- what a history means, without lists -----

  datatype Standing = Standing(expires: int, ttl: U32)

  /** What the history alone says of r: the expiry and TTL of its latest upsert, unless its key was
      removed, or flushed by another record, since. Expire plays no part. */
  function Status(h: seq<Timed>, r: ResourceRecord): Option<Standing> {
    if h == [] then None
    else
      var before, last := h[..|h| - 1], h[|h| - 1];
      match last.op
      case Upsert(rr) =>
        if RecordsEqual(rr, r) then Some(Standing(last.at + rr.ttl as int * SECOND, rr.ttl))
        else if rr.cacheFlush && RecordKey(rr) == RecordKey(r) then None
        else Status(before, r)
      case Remove(key) => if key == RecordKey(r) then None else Status(before, r)
      case RemoveName(name) => if LowerName(NormalizeName(name)) == RecordKey(r).name then None else Status(before, r)
      case Expire => Status(before, r)
  }

  function Until(s: Option<Standing>, now: int): Option<Standing> {
    if s.Some? && now < s.value.expires then s else None
  }

  // ----- lists searched -----

  /** The standing of the first entry equal to r. */
  function Find(list: seq<Entry>, r: ResourceRecord): Option<Standing> {
    if list == [] then None
    else if RecordsEqual(list[0].rr, r) then Some(Standing(list[0].expires, list[0].rr.ttl))
    else Find(list[1..], r)
  }

  /** No two entries are equal, and all belong under key. */
  predicate Tidy(list: seq<Entry>, key: CacheKey) {
    && (forall i, j :: 0 <= i < j < |list| ==> !RecordsEqual(list[i].rr, list[j].rr))
    && (forall i :: 0 <= i < |list| ==> RecordKey(list[i].rr) == key)
  }

  lemma EqualIsEquivalence(a: ResourceRecord, b: ResourceRecord, c: ResourceRecord)
    ensures RecordsEqual(a, a) && (RecordsEqual(a, b) <==> RecordsEqual(b, a))
    ensures RecordsEqual(a, b) ==> (RecordsEqual(a, c) <==> RecordsEqual(b, c))
  {
    hide RecordsEqual, EssenceOf;
    EqualIffSameEssence(a, a);
    EqualIffSameEssence(a, b);
    EqualIffSameEssence(b, a);
    EqualIffSameEssence(a, c);
    EqualIffSameEssence(b, c);
  }

  lemma TtlIgnored(a: ResourceRecord, ttl: U32, b: ResourceRecord)
    ensures RecordsEqual(a.(ttl := ttl), b) <==> RecordsEqual(a, b)
    ensures RecordKey(a.(ttl := ttl)) == RecordKey(a)
  {
    hide LowerName, IpEqual, NormalizeName;
  }

  lemma EqualSameKey(a: ResourceRecord, b: ResourceRecord)
    requires RecordsEqual(a, b)
    ensures RecordKey(a) == RecordKey(b)
  {
    LowerNormal(a.name, b.name);
  }

  lemma {:induction false} FindPlace(list: seq<Entry>, x: ResourceRecord, now: int, r: ResourceRecord)
    ensures Find(Place(list, x, now), r) ==
      if RecordsEqual(x, r) then Some(Standing(now + x.ttl as int * SECOND, x.ttl)) else Find(list, r)
  {
    hide RecordsEqual;
    if list != [] {
      EqualIsEquivalence(list[0].rr, x, r);
      EqualIsEquivalence(x, r, list[0].rr);
      EqualIsEquivalence(list[0].rr, r, x);
      TtlIgnored(list[0].rr, x.ttl, r);
      FindPlace(list[1..], x, now, r);
      assert Place(list, x, now)[1..] == if RecordsEqual(list[0].rr, x) then list[1..] else Place(list[1..], x, now);
    }
  }

  lemma {:induction false} PlaceTidy(list: seq<Entry>, x: ResourceRecord, now: int)
    requires Tidy(list, RecordKey(x))
    ensures Tidy(Place(list, x, now), RecordKey(x))
    ensures forall r :: (forall i :: 0 <= i < |list| ==> !RecordsEqual(r, list[i].rr)) && !RecordsEqual(r, x) ==>
              forall i :: 0 <= i < |Place(list, x, now)| ==> !RecordsEqual(r, Place(list, x, now)[i].rr)
  {
    hide RecordsEqual, RecordKey;
    if list != [] {
      var head, rest := list[0].rr, list[1..];
      var placed := Place(list, x, now);
      forall r
        ensures RecordsEqual(r, head.(ttl := x.ttl)) <==> RecordsEqual(r, head)
      {
        EqualIsEquivalence(r, head, r);
        EqualIsEquivalence(r, head.(ttl := x.ttl), r);
        TtlIgnored(head, x.ttl, r);
      }
      if RecordsEqual(head, x) {
        TtlIgnored(head, x.ttl, head);
        forall j | 0 < j < |list|
          ensures !RecordsEqual(placed[0].rr, placed[j].rr)
        {
          TtlIgnored(head, x.ttl, list[j].rr);
        }
      } else {
        PlaceTidy(rest, x, now);
        assert forall i :: 0 <= i < |rest| ==> rest[i] == list[i + 1];
        assert forall i :: 0 <= i < |rest| ==> !RecordsEqual(head, rest[i].rr);
      }
    }
  }

  lemma {:induction false} LiveFrom(list: seq<Entry>, now: int)
    ensures forall e :: e in Live(list, now) ==> e in list && e.expires > now
  {
    if list != [] {
      LiveFrom(list[1..], now);
    }
  }

  lemma {:induction false} LiveTidy(list: seq<Entry>, key: CacheKey, now: int)
    requires Tidy(list, key)
    ensures Tidy(Live(list, now), key)
  {
    hide RecordsEqual, RecordKey;
    if list != [] {
      var rest := list[1..];
      assert forall i :: 0 <= i < |rest| ==> rest[i] == list[i + 1];
      LiveTidy(rest, key, now);
      LiveFrom(rest, now);
      var live := Live(rest, now);
      forall j | 0 <= j < |live|
        ensures !RecordsEqual(list[0].rr, live[j].rr)
      {
        assert live[j] in rest;
      }
    }
  }

  lemma {:induction false} FindNone(list: seq<Entry>, r: ResourceRecord)
    ensures Find(list, r).Some? <==> exists i :: 0 <= i < |list| && RecordsEqual(list[i].rr, r)
  {
    hide RecordsEqual;
    if list != [] {
      FindNone(list[1..], r);
      assert forall i :: 0 <= i < |list| - 1 ==> list[1..][i] == list[i + 1];
      if i :| 0 <= i < |list| && RecordsEqual(list[i].rr, r) {
        assert i > 0 ==> RecordsEqual(list[1..][i - 1].rr, r);
      }
    }
  }

  lemma {:induction false} FindLive(list: seq<Entry>, key: CacheKey, now: int, r: ResourceRecord)
    requires Tidy(list, key)
    ensures Find(Live(list, now), r) == Until(Find(list, r), now)
  {
    hide RecordsEqual, RecordKey;
    if list != [] {
      var rest := list[1..];
      assert forall i :: 0 <= i < |rest| ==> rest[i] == list[i + 1];
      FindLive(rest, key, now, r);
      if RecordsEqual(list[0].rr, r) {
        FindNone(rest, r);
        if i :| 0 <= i < |rest| && RecordsEqual(rest[i].rr, r) {
          assert !RecordsEqual(list[0].rr, list[i + 1].rr);
          EqualIsEquivalence(rest[i].rr, r, r);
          EqualIsEquivalence(list[0].rr, r, rest[i].rr);
        }
      }
    }
  }

  // ----- the history theorem -----

  function Held(t: Buckets, r: ResourceRecord): Option<Standing> {
    Find(Bucket(t, RecordKey(r)), r)
  }

  predicate TidyBuckets(t: Buckets) {
    forall k :: k in t ==> t[k] != [] && Tidy(t[k], k)
  }

  lemma PlaceNonEmpty(list: seq<Entry>, x: ResourceRecord, now: int)
    ensures Place(list, x, now) != []
  {
  }

  lemma ApplyTidy(t: Buckets, o: Timed)
    requires TidyBuckets(t)
    ensures TidyBuckets(Apply(t, o))
  {
    hide RecordsEqual, RecordKey, Live, Place, Tidy, NormalizeName, LowerName;
    EmptyTidy();
    match o.op
    case Upsert(rr) =>
      var existing := if rr.cacheFlush then [] else Bucket(t, RecordKey(rr));
      PlaceTidy(existing, rr, o.at);
      PlaceNonEmpty(existing, rr, o.at);
    case Expire =>
      forall k | k in t
        ensures Tidy(Live(t[k], o.at), k)
      {
        LiveTidy(t[k], k, o.at);
      }
    case _ =>
  }

  lemma EmptyTidy()
    ensures forall k :: Tidy([], k)
  {
  }

  /** What one operation does to the standing of r. */
  function Affected(s: Option<Standing>, r: ResourceRecord, o: Timed): Option<Standing> {
    match o.op
    case Upsert(rr) =>
      if RecordsEqual(rr, r) then Some(Standing(o.at + rr.ttl as int * SECOND, rr.ttl))
      else if rr.cacheFlush && RecordKey(rr) == RecordKey(r) then None
      else s
    case Remove(key) => if key == RecordKey(r) then None else s
    case RemoveName(name) => if LowerName(NormalizeName(name)) == RecordKey(r).name then None else s
    case Expire => Until(s, o.at)
  }

  lemma ApplyHeld(t: Buckets, o: Timed, r: ResourceRecord)
    requires TidyBuckets(t)
    ensures Held(Apply(t, o), r) == Affected(Held(t, r), r, o)
  {
    hide RecordsEqual, RecordKey, Live, Place, Find, Tidy, NormalizeName, LowerName;
    FindEmpty(r);
    match o.op
    case Upsert(rr) =>
      var existing := if rr.cacheFlush then [] else Bucket(t, RecordKey(rr));
      FindPlace(existing, rr, o.at, r);
      if RecordsEqual(rr, r) {
        EqualSameKey(rr, r);
      }
    case Expire =>
      if RecordKey(r) in t {
        FindLive(t[RecordKey(r)], RecordKey(r), o.at, r);
      }
    case _ =>
  }

  lemma FindEmpty(r: ResourceRecord)
    ensures Find([], r) == None
  {
  }

  lemma {:induction false} RunTidy(h: seq<Timed>)
    ensures TidyBuckets(Run(h))
  {
    hide Apply, TidyBuckets;
    if h == [] {
      NothingTidy();
    } else {
      RunTidy(h[..|h| - 1]);
      ApplyTidy(Run(h[..|h| - 1]), h[|h| - 1]);
    }
  }

  lemma NothingTidy()
    ensures TidyBuckets(map[])
  {
  }

  /** The cache and its history agree on everything not yet expired. */
  lemma {:induction false} RunHolds(h: seq<Timed>, r: ResourceRecord, now: int)
    requires InOrder(h) && NotAfter(h, now)
    ensures Until(Held(Run(h), r), now) == Until(Status(h, r), now)
  {
    hide Apply, RecordsEqual, RecordKey, Held, TidyBuckets, NormalizeName, LowerName;
    if h == [] {
      NothingHeld(r);
    } else {
      var before, last := h[..|h| - 1], h[|h| - 1];
      RunTidy(before);
      ApplyHeld(Run(before), last, r);
      RunHolds(before, r, now);
      RunHolds(before, r, last.at);
    }
  }

  lemma NothingHeld(r: ResourceRecord)
    ensures Held(map[], r) == None
  {
  }

  predicate Holds(all: seq<ResourceRecord>, r: ResourceRecord) {
    exists j :: 0 <= j < |all| && RecordsEqual(all[j], r)
  }

  predicate HasAlike(all: seq<ResourceRecord>, r: ResourceRecord, ttl: U32) {
    exists j :: 0 <= j < |all| && RecordsEqual(all[j], r) && all[j].ttl == ttl
  }

  lemma HoldsFirst(first: ResourceRecord, rest: seq<ResourceRecord>, r: ResourceRecord, ttl: U32)
    ensures Holds([first] + rest, r) <==> RecordsEqual(first, r) || Holds(rest, r)
    ensures HasAlike([first] + rest, r, ttl) <==> (RecordsEqual(first, r) && first.ttl == ttl) || HasAlike(rest, r, ttl)
  {
    hide RecordsEqual;
    var all := [first] + rest;
    assert all[0] == first && forall j :: 0 <= j < |rest| ==> rest[j] == all[j + 1];
    if j :| 0 <= j < |all| && RecordsEqual(all[j], r) {
      assert j > 0 ==> RecordsEqual(rest[j - 1], r);
    }
    if j :| 0 <= j < |all| && RecordsEqual(all[j], r) && all[j].ttl == ttl {
      assert j > 0 ==> RecordsEqual(rest[j - 1], r) && rest[j - 1].ttl == ttl;
    }
    if j :| 0 <= j < |rest| && RecordsEqual(rest[j], r) {
      assert RecordsEqual(all[j + 1], r);
    }
    if j :| 0 <= j < |rest| && RecordsEqual(rest[j], r) && rest[j].ttl == ttl {
      assert RecordsEqual(all[j + 1], r) && all[j + 1].ttl == ttl;
    }
  }

  lemma {:induction false} LookupFinds(list: seq<Entry>, r: ResourceRecord)
    ensures Find(list, r).Some? <==> Holds(RecordsOf(list), r)
    ensures Find(list, r).Some? ==> HasAlike(RecordsOf(list), r, Find(list, r).value.ttl)
  {
    hide RecordsEqual, Holds, HasAlike;
    if list == [] {
      assert RecordsOf(list) == [];
      NothingHolds(r);
    } else {
      LookupFinds(list[1..], r);
      assert RecordsOf(list) == [list[0].rr] + RecordsOf(list[1..]);
      HoldsFirst(list[0].rr, RecordsOf(list[1..]), r, if Find(list, r).Some? then Find(list, r).value.ttl else 0);
    }
  }

  lemma NothingHolds(r: ResourceRecord)
    ensures !Holds([], r)
  {
  }

  /** After any run of operations at times in order, a lookup finds a record equal to r exactly when
      the history says that r is in force; it is found with the TTL of its latest upsert. */
  lemma CacheHistory(h: seq<Timed>, r: ResourceRecord, now: int)
    requires InOrder(h) && NotAfter(h, now)
    ensures var found := LookupIn(Run(h), RecordKey(r), now);
            && (Holds(found, r) <==> Until(Status(h, r), now).Some?)
            && (Holds(found, r) ==> HasAlike(found, r, Status(h, r).value.ttl))
  {
    hide Run, RecordsEqual, RecordKey, Live, Find, Tidy, Status, RecordsOf, Holds, HasAlike, InOrder, NotAfter;
    RunTidy(h);
    RunHolds(h, r, now);
    var bucket := Bucket(Run(h), RecordKey(r));
    EmptyTidy();
    FindLive(bucket, RecordKey(r), now, r);
    LookupFinds(Live(bucket, now), r);
  }

  /** A lookup never gives two equal records, and only records of the key it was asked for. */
  lemma LookupDistinct(h: seq<Timed>, key: CacheKey, now: int)
    ensures var found := LookupIn(Run(h), key, now);
            && (forall i, j :: 0 <= i < j < |found| ==> !RecordsEqual(found[i], found[j]))
            && (forall i :: 0 <= i < |found| ==> RecordKey(found[i]) == key)
  {
    hide Run, RecordsEqual, RecordKey, Live;
    RunTidy(h);
    LiveTidy(Bucket(Run(h), key), key, now);
  }

  // ----- Expire -----

  function WithoutExpire(h: seq<Timed>): seq<Timed> {
    if h == [] then []
    else if h[|h| - 1].op.Expire? then WithoutExpire(h[..|h| - 1])
    else WithoutExpire(h[..|h| - 1]) + [h[|h| - 1]]
  }

  lemma StatusSnoc(h: seq<Timed>, o: Timed, r: ResourceRecord)
    ensures Status(h + [o], r) == if o.op.Expire? then Status(h, r) else Affected(Status(h, r), r, o)
  {
    hide RecordsEqual, RecordKey, NormalizeName, LowerName;
    assert (h + [o])[..|h|] == h;
  }

  lemma {:induction false} WithoutExpireStatus(h: seq<Timed>, r: ResourceRecord)
    ensures Status(WithoutExpire(h), r) == Status(h, r)
  {
    hide Status, Affected;
    if h != [] {
      var before, last := h[..|h| - 1], h[|h| - 1];
      WithoutExpireStatus(before, r);
      assert before + [last] == h;
      StatusSnoc(before, last, r);
      if !last.op.Expire? {
        StatusSnoc(WithoutExpire(before), last, r);
      }
    } else {
      assert WithoutExpire(h) == h;
    }
  }

  lemma {:induction false} WithoutExpireInOrder(h: seq<Timed>, now: int)
    requires InOrder(h) && NotAfter(h, now)
    ensures InOrder(WithoutExpire(h)) && NotAfter(WithoutExpire(h), now)
  {
    if h != [] {
      WithoutExpireInOrder(h[..|h| - 1], h[|h| - 1].at);
    }
  }

  /** Purging is unobservable: at any later time the cache holds the same records, with the same
      expiry times and TTLs, as if Expire had never been called. */
  lemma ExpireUnobservable(h: seq<Timed>, r: ResourceRecord, now: int)
    requires InOrder(h) && NotAfter(h, now)
    ensures Until(Held(Run(h), r), now) == Until(Held(Run(WithoutExpire(h)), r), now)
  {
    hide Run, Held, Status, WithoutExpire;
    WithoutExpireStatus(h, r);
    WithoutExpireInOrder(h, now);
    RunHolds(h, r, now);
    RunHolds(WithoutExpire(h), r, now);
  }

  /** Every record of one list is in the other, up to recordsEqual and with the same TTL. */
  predicate Among(some: seq<ResourceRecord>, all: seq<ResourceRecord>) {
    forall i :: 0 <= i < |some| ==> HasAlike(all, some[i], some[i].ttl)
  }

  lemma AlikeFound(h: seq<Timed>, r: ResourceRecord, now: int)
    requires InOrder(h) && NotAfter(h, now) && Until(Status(h, r), now).Some?
    ensures HasAlike(LookupIn(Run(h), RecordKey(r), now), r, Status(h, r).value.ttl)
  {
    hide Run, RecordsEqual, RecordKey, Status, LookupIn, InOrder, NotAfter, Holds, HasAlike;
    CacheHistory(h, r, now);
  }

  /** A record found has the TTL of its latest upsert. */
  lemma FoundTtl(h: seq<Timed>, key: CacheKey, now: int, i: nat)
    requires InOrder(h) && NotAfter(h, now) && i < |LookupIn(Run(h), key, now)|
    ensures var r := LookupIn(Run(h), key, now)[i];
            RecordKey(r) == key && Until(Status(h, r), now).Some? && r.ttl == Status(h, r).value.ttl
  {
    hide Run, RecordsEqual, RecordKey, Status, LookupIn;
    var found := LookupIn(Run(h), key, now);
    LookupDistinct(h, key, now);
    CacheHistory(h, found[i], now);
    EqualIsEquivalence(found[i], found[i], found[i]);
    var k :| 0 <= k < |found| && RecordsEqual(found[k], found[i]) && found[k].ttl == Status(h, found[i]).value.ttl;
    EqualIsEquivalence(found[k], found[i], found[i]);
  }

  lemma FoundAmong(h: seq<Timed>, g: seq<Timed>, key: CacheKey, now: int)
    requires InOrder(h) && NotAfter(h, now) && InOrder(g) && NotAfter(g, now)
    requires forall r :: Status(h, r) == Status(g, r)
    ensures Among(LookupIn(Run(h), key, now), LookupIn(Run(g), key, now))
  {
    hide Run, RecordsEqual, RecordKey, Status, LookupIn, InOrder, NotAfter, HasAlike;
    var found := LookupIn(Run(h), key, now);
    forall i | 0 <= i < |found|
      ensures HasAlike(LookupIn(Run(g), key, now), found[i], found[i].ttl)
    {
      FoundTtl(h, key, now, i);
      assert Status(h, found[i]) == Status(g, found[i]);
      AlikeFound(g, found[i], now);
    }
  }

  /** So a lookup finds the same records with the same TTLs, up to recordsEqual, as if Expire had
      never been called; only their order may differ. */
  lemma LookupWithoutExpire(h: seq<Timed>, key: CacheKey, now: int)
    requires InOrder(h) && NotAfter(h, now)
    ensures var with, without := LookupIn(Run(h), key, now), LookupIn(Run(WithoutExpire(h)), key, now);
            Among(with, without) && Among(without, with)
  {
    hide Run, Status, WithoutExpire, LookupIn, InOrder, NotAfter, Among;
    WithoutExpireInOrder(h, now);
    forall r
      ensures Status(WithoutExpire(h), r) == Status(h, r)
    {
      WithoutExpireStatus(h, r);
    }
    FoundAmong(h, WithoutExpire(h), key, now);
    FoundAmong(WithoutExpire(h), h, key, now);
  }

  // ----- handleResponse -----

  /** The cache pass of handleResponse: a goodbye removes its whole key, anything else is upserted. */
  function ResponseOps(rrs: seq<ResourceRecord>, now: int): seq<Timed> {
    seq(|rrs|, i requires 0 <= i < |rrs| =>
      Timed(if rrs[i].ttl == 0 then Remove(RecordKey(rrs[i])) else Upsert(rrs[i]), now))
  }

  /** A later record of the response that takes r out of the cache: a goodbye for its key, or
      another record of the key with the cache-flush bit. */
  predicate Displaces(later: ResourceRecord, r: ResourceRecord) {
    RecordKey(later) == RecordKey(r) && (later.ttl == 0 || (later.cacheFlush && !RecordsEqual(later, r)))
  }

  predicate Undisplaced(rrs: seq<ResourceRecord>, r: ResourceRecord, from: nat) {
    forall j :: from <= j < |rrs| ==> !Displaces(rrs[j], r)
  }

  /** The response carries r, alive, at i, and nothing after it takes r out. */
  predicate CarriedAt(rrs: seq<ResourceRecord>, r: ResourceRecord, i: nat) {
    i < |rrs| && rrs[i].ttl > 0 && RecordsEqual(rrs[i], r) && Undisplaced(rrs, r, i + 1)
  }

  predicate LeftBy(rrs: seq<ResourceRecord>, r: ResourceRecord, before: bool) {
    (exists i :: 0 <= i < |rrs| && CarriedAt(rrs, r, i)) || (before && Undisplaced(rrs, r, 0))
  }

  lemma LeftByLast(rrs: seq<ResourceRecord>, r: ResourceRecord, before: bool)
    requires rrs != []
    ensures var front, last := rrs[..|rrs| - 1], rrs[|rrs| - 1];
            LeftBy(rrs, r, before) <==>
              (last.ttl > 0 && RecordsEqual(last, r)) || (LeftBy(front, r, before) && !Displaces(last, r))
  {
    hide RecordsEqual, Displaces;
    var front, last := rrs[..|rrs| - 1], rrs[|rrs| - 1];
    forall from: nat | from <= |front|
      ensures Undisplaced(rrs, r, from) <==> Undisplaced(front, r, from) && !Displaces(last, r)
    {
      assert forall j :: from <= j < |front| ==> front[j] == rrs[j];
    }
    assert forall i: nat :: i < |front| ==> (CarriedAt(rrs, r, i) <==> CarriedAt(front, r, i) && !Displaces(last, r));
    assert CarriedAt(rrs, r, |front|) <==> last.ttl > 0 && RecordsEqual(last, r);
  }

  lemma {:induction false} StatusOfResponse(h: seq<Timed>, rrs: seq<ResourceRecord>, now: int, r: ResourceRecord)
    ensures Until(Status(h + ResponseOps(rrs, now), r), now).Some?
       <==> LeftBy(rrs, r, Until(Status(h, r), now).Some?)
  {
    hide RecordsEqual, RecordKey, LeftBy;
    var all := h + ResponseOps(rrs, now);
    var before := Until(Status(h, r), now).Some?;
    if rrs == [] {
      assert all == h;
      LeftByNone(r, before);
    } else {
      var front, last := rrs[..|rrs| - 1], rrs[|rrs| - 1];
      assert all[..|all| - 1] == h + ResponseOps(front, now);
      assert all[|all| - 1] == ResponseOps(rrs, now)[|rrs| - 1];
      StatusOfResponse(h, front, now, r);
      LeftByLast(rrs, r, before);
    }
  }

  lemma LeftByNone(r: ResourceRecord, before: bool)
    ensures LeftBy([], r, before) <==> before
  {
  }

  lemma ResponseInOrder(h: seq<Timed>, rrs: seq<ResourceRecord>, now: int)
    requires InOrder(h) && NotAfter(h, now)
    ensures InOrder(h + ResponseOps(rrs, now)) && NotAfter(h + ResponseOps(rrs, now), now)
  {
  }

  /** What is in the cache just after a response: exactly the records that it carries alive and
      does not itself displace later on, and those that were there before and that it does not
      displace at all. In particular, unique records of one name and type in one response drop
      one another, and one goodbye drops every record of its key. */
  lemma ResponseKeepsIff(h: seq<Timed>, rrs: seq<ResourceRecord>, now: int, r: ResourceRecord)
    requires InOrder(h) && NotAfter(h, now)
    ensures var was, found := LookupIn(Run(h), RecordKey(r), now), LookupIn(Run(h + ResponseOps(rrs, now)), RecordKey(r), now);
            Holds(found, r) <==> LeftBy(rrs, r, Holds(was, r))
  {
    hide RecordsEqual, RecordKey, LookupIn, Run, Status, LeftBy, InOrder, NotAfter, Holds, HasAlike;
    ResponseInOrder(h, rrs, now);
    StatusOfResponse(h, rrs, now, r);
    CacheHistory(h, r, now);
    CacheHistory(h + ResponseOps(rrs, now), r, now);
  }

  // ----- the cache as the source keeps it -----

  ghost function AnyKey(t: Buckets): (k: CacheKey)
    requires t != map[]
    ensures k in t
  {
    var k :| k in t;
    k
  }

  /** The number of entries in all. */
  ghost function Total(t: Buckets): nat
    decreases |t|
  {
    if t == map[] then 0 else |t[AnyKey(t)]| + Total(t - {AnyKey(t)})
  }

  lemma {:induction false} TotalSplit(t: Buckets, k: CacheKey)
    requires k in t
    ensures Total(t) == |t[k]| + Total(t - {k})
    decreases |t|
  {
    var a := AnyKey(t);
    if a != k {
      var rest := t - {a};
      TotalSplit(rest, k);
      TotalSplit(t - {k}, a);
      assert rest - {k} == t - {k} - {a};
    }
  }

  lemma TotalUpdate(t: Buckets, k: CacheKey, list: seq<Entry>)
    requires k in t
    ensures Total(t[k := list]) == Total(t) - |t[k]| + |list|
  {
    hide Total;
    TotalSplit(t, k);
    TotalSplit(t[k := list], k);
    assert t[k := list] - {k} == t - {k};
  }

  lemma NothingBefore<T>(none: seq<T>, all: seq<T>)
    requires none == []
    ensures none + all == all
  {
  }

  lemma NothingAfter<T>(all: seq<T>, none: seq<T>)
    requires none == []
    ensures all + none == all
  {
  }

  lemma EntryKept(front: seq<Entry>, e: Entry, rest: seq<Entry>)
    ensures front + ([e] + rest) == (front + [e]) + rest
  {
  }

  /** The in-place filter of Expire: the entries still alive are moved to the front of the array. */
  method Compact(recs: array<Entry>, now: int) returns (kept: nat, dropped: nat)
    modifies recs
    ensures kept + dropped == recs.Length
    ensures recs[..kept] == Live(old(recs[..]), now)
  {
    hide Live;
    kept, dropped := 0, 0;
    ghost var was := recs[..];
    LiveSteps(was, 0, now);
    NothingBefore(recs[..0], Live(was, now));
    for i := 0 to recs.Length
      invariant kept + dropped == i
      invariant recs[i..] == was[i..]
      invariant recs[..kept] + Live(was[i..], now) == Live(was, now)
    {
      LiveSteps(was, i, now);
      var cr := recs[i];
      assert cr == was[i..][0];
      ghost var front := recs[..kept];
      if cr.expires > now {
        recs[kept] := cr;
        kept := kept + 1;
        assert recs[..kept] == front + [cr];
        EntryKept(front, cr, Live(was[i + 1..], now));
      } else {
        dropped := dropped + 1;
      }
      assert recs[i + 1..] == was[i..][1..];
    }
    LiveSteps(was, recs.Length, now);
    NothingAfter(recs[..kept], Live(was[recs.Length..], now));
  }

  lemma LiveSteps(list: seq<Entry>, i: nat, now: int)
    requires i <= |list|
    ensures i == 0 ==> list[i..] == list
    ensures i == |list| ==> Live(list[i..], now) == []
    ensures i < |list| ==>
      Live(list[i..], now) == if list[i].expires > now then [list[i]] + Live(list[i + 1..], now) else Live(list[i + 1..], now)
  {
    hide Live;
    if i < |list| {
      LiveHead(list[i..], now);
      assert list[i..][1..] == list[i + 1..];
    } else {
      assert list[i..] == [];
      LiveNone(now);
    }
  }

  lemma FoundSteps(list: seq<Entry>, i: nat, now: int)
    requires i <= |list|
    ensures i == 0 ==> list[i..] == list
    ensures i == |list| ==> RecordsOf(Live(list[i..], now)) == []
    ensures i < |list| ==>
      RecordsOf(Live(list[i..], now)) ==
        (if list[i].expires > now then [list[i].rr] + RecordsOf(Live(list[i + 1..], now)) else RecordsOf(Live(list[i + 1..], now)))
  {
    hide Live;
    LiveSteps(list, i, now);
    if i < |list| {
      var rest := Live(list[i + 1..], now);
      assert RecordsOf([list[i]] + rest) == [list[i].rr] + RecordsOf(rest);
    }
  }

  lemma RecordKept(front: seq<ResourceRecord>, r: ResourceRecord, rest: seq<ResourceRecord>)
    ensures front + ([r] + rest) == (front + [r]) + rest
  {
  }

  lemma LiveHead(list: seq<Entry>, now: int)
    requires list != []
    ensures Live(list, now) == if list[0].expires > now then [list[0]] + Live(list[1..], now) else Live(list[1..], now)
  {
  }

  lemma LiveNone(now: int)
    ensures Live([], now) == []
  {
  }

  class Cache {
    var records: Buckets

    constructor ()
      ensures records == map[]
    {
      records := map[];
    }

    method Upsert(rr: ResourceRecord, now: int) returns (modified: bool)
      modifies this
      ensures modified && records == Apply(old(records), Timed(Op.Upsert(rr), now))
    {
      hide Place, RecordsEqual;
      var key := RecordKey(rr);
      var existing := Bucket(records, key);
      if rr.cacheFlush {
        existing := [];
      }
      for i := 0 to |existing|
        invariant records == old(records)
        invariant Place(existing, rr, now) == existing[..i] + Place(existing[i..], rr, now)
      {
        PlaceSteps(existing, i, rr, now);
        if RecordsEqual(existing[i].rr, rr) {
          var refreshed := existing[i].rr.(ttl := rr.ttl);
          records := records[key := existing[i := Entry(refreshed, now + Lifetime(rr), now)]];
          return true;
        }
      }
      PlaceSteps(existing, |existing|, rr, now);
      existing := existing + [Entry(rr, now + Lifetime(rr), now)];
      records := records[key := existing];
      return true;
    }

    method Lookup(key: CacheKey, now: int) returns (result: seq<ResourceRecord>)
      ensures result == LookupIn(records, key, now)
    {
      hide Live, RecordsOf;
      result := [];
      var list := Bucket(records, key);
      FoundSteps(list, 0, now);
      NothingBefore(result, RecordsOf(Live(list, now)));
      for i := 0 to |list|
        invariant result + RecordsOf(Live(list[i..], now)) == RecordsOf(Live(list, now))
      {
        FoundSteps(list, i, now);
        if list[i].expires > now {
          RecordKept(result, list[i].rr, RecordsOf(Live(list[i + 1..], now)));
          result := result + [list[i].rr];
        }
      }
      FoundSteps(list, |list|, now);
      NothingAfter(result, RecordsOf(Live(list[|list|..], now)));
    }

    method Remove(key: CacheKey)
      modifies this
      ensures forall now :: records == Apply(old(records), Timed(Op.Remove(key), now))
    {
      records := records - {key};
    }

    method RemoveName(name: Bytes)
      modifies this
      ensures forall now :: records == Apply(old(records), Timed(Op.RemoveName(name), now))
    {
      hide LowerName, NormalizeName;
      var ln := LowerName(NormalizeName(name));
      var left := records.Keys;
      while left != {}
        invariant left <= old(records).Keys
        invariant records == map k | k in old(records) && (k in left || k.name != ln) :: old(records)[k]
        decreases left
      {
        var key :| key in left;
        left := left - {key};
        if key.name == ln {
          records := records - {key};
        }
      }
    }

    /** Purges what has expired: every entry is either kept or counted. */
    method Expire(now: int) returns (count: nat)
      modifies this
      ensures records == Apply(old(records), Timed(Op.Expire, now))
      ensures count + Total(records) == Total(old(records))
    {
      hide Live, Total;
      count := 0;
      var left := records.Keys;
      while left != {}
        invariant left <= old(records).Keys
        invariant records.Keys <= old(records).Keys
        invariant forall k :: k in left ==> k in records && records[k] == old(records)[k]
        invariant forall k :: k in old(records).Keys - left ==>
          && (k in records <==> Live(old(records)[k], now) != [])
          && (k in records ==> records[k] == Live(old(records)[k], now))
        invariant count + Total(records) == Total(old(records))
        decreases left
      {
        var key :| key in left;
        left := left - {key};
        var bucket := records[key];
        var recs := new Entry[|bucket|](i requires 0 <= i < |bucket| => bucket[i]);
        assert recs[..] == bucket;
        var kept, dropped := Compact(recs, now);
        count := count + dropped;
        TotalSplit(records, key);
        TotalUpdate(records, key, recs[..kept]);
        if kept == 0 {
          records := records - {key};
        } else {
          records := records[key := recs[..kept]];
        }
      }
    }
  }

  lemma PlaceSteps(list: seq<Entry>, i: nat, rr: ResourceRecord, now: int)
    requires i <= |list|
    ensures i == 0 ==> list[..i] + Place(list[i..], rr, now) == Place(list, rr, now)
    ensures i == |list| ==> list[..i] + Place(list[i..], rr, now) == list + [Entry(rr, now + Lifetime(rr), now)]
    ensures i < |list| && !RecordsEqual(list[i].rr, rr) ==>
      list[..i] + Place(list[i..], rr, now) == list[..i + 1] + Place(list[i + 1..], rr, now)
    ensures i < |list| && RecordsEqual(list[i].rr, rr) ==>
      list[..i] + Place(list[i..], rr, now) == list[i := Entry(list[i].rr.(ttl := rr.ttl), now + Lifetime(rr), now)]
  {
    hide RecordsEqual;
    if i < |list| {
      assert list[i..][1..] == list[i + 1..] && list[..i + 1] == list[..i] + [list[i]];
    }
    if i == 0 {
      assert list[0..] == list;
    }
  }
}
