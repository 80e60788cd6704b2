/** From the records of a service to the instance that a browser tells its listeners of:
    generateServiceRecords of service.go, the cache pass of handleResponse in server.go, and
    resolveInstance, handlePTR and normalizeServiceTypeDomain of browser.go. */
module Discovery {
  import opened Octets
  import opened Names
  import opened Records
  import opened Messages
  import opened Tiebreak
  import opened Services
  import opened Caching
  import opened Expiry
  import opened Folding
  import opened Responses
  import opened Browsing

  // ----- resolveInstance -----

  function Ips(rrs: seq<ResourceRecord>): seq<Bytes> {
    seq(|rrs|, k requires 0 <= k < |rrs| => rrs[k].ip)
  }

  /** What the cache says of an instance, if it has an SRV record. */
  function Resolve(t: Buckets, serviceType: Bytes, instance: Bytes, now: int): Option<Info> {
    var found := LookupIn(t, KeyFor(instance, TYPE_SRV), now);
    if found == [] then None
    else
      var srv, texts := found[0], LookupIn(t, KeyFor(instance, TYPE_TXT), now);
      Some(Info(ExtractInstanceName(instance, serviceType), srv.target, srv.port, srv.priority, srv.weight,
                  if texts == [] then [] else texts[0].text,
                  Ips(LookupIn(t, KeyFor(srv.target, TYPE_A), now)) + Ips(LookupIn(t, KeyFor(srv.target, TYPE_AAAA), now))))
  }

  method ResolveInstance(cache: Cache, serviceType: Bytes, instance: Bytes, now: int) returns (info: Option<Info>)
    ensures info == Resolve(cache.records, serviceType, instance, now)
  {
    hide LookupIn, KeyFor;
    var srvs := cache.Lookup(KeyFor(instance, TYPE_SRV), now);
    if |srvs| == 0 {
      return None;
    }
    var srv := srvs[0];
    var text: seq<Bytes> := [];
    var texts := cache.Lookup(KeyFor(instance, TYPE_TXT), now);
    if |texts| > 0 {
      text := texts[0].text;
    }
    var ips: seq<Bytes> := [];
    var a := cache.Lookup(KeyFor(srv.target, TYPE_A), now);
    for k := 0 to |a|
      invariant ips == Ips(a)[..k]
    {
      ips := ips + [a[k].ip];
    }
    assert Ips(a)[..|a|] == Ips(a);
    var aaaa := cache.Lookup(KeyFor(srv.target, TYPE_AAAA), now);
    for k := 0 to |aaaa|
      invariant ips == Ips(a) + Ips(aaaa)[..k]
    {
      ips := ips + [aaaa[k].ip];
    }
    assert Ips(aaaa)[..|aaaa|] == Ips(aaaa);
    return Some(Info(ExtractInstanceName(instance, serviceType), srv.target, srv.port, srv.priority, srv.weight, text, ips));
  }

  // ----- the cache pass -----

  lemma ResponseOpsSnoc(rrs: seq<ResourceRecord>, n: nat, now: int)
    requires n < |rrs|
    ensures ResponseOps(rrs[..n + 1], now) == ResponseOps(rrs[..n], now) +
              [Timed(if rrs[n].ttl == 0 then Op.Remove(RecordKey(rrs[n])) else Op.Upsert(rrs[n]), now)]
  {
    hide RecordKey;
  }

  lemma RunSnoc(h: seq<Timed>, o: Timed)
    ensures Run(h + [o]) == Apply(Run(h), o)
  {
    assert (h + [o])[..|h|] == h;
  }

  /** The first pass of handleResponse, on a cache with history h. */
  method CacheResponse(cache: Cache, answers: seq<ResourceRecord>, additionals: seq<ResourceRecord>, now: int,
                       ghost h: seq<Timed>)
    requires cache.records == Run(h)
    modifies cache
    ensures cache.records == Run(h + ResponseOps(answers + additionals, now))
  {
    hide Run, Apply, RecordKey;
    var all := answers + additionals;
    NothingAfter(h, ResponseOps(all[..0], now));
    for n := 0 to |all|
      invariant cache.records == Run(h + ResponseOps(all[..n], now))
    {
      ghost var done := ResponseOps(all[..n], now);
      ResponseOpsSnoc(all, n, now);
      if all[n].ttl == 0 {
        RunSnoc(h + done, Timed(Op.Remove(RecordKey(all[n])), now));
        assert (h + done) + [Timed(Op.Remove(RecordKey(all[n])), now)] == h + ResponseOps(all[..n + 1], now);
        cache.Remove(RecordKey(all[n]));
      } else {
        RunSnoc(h + done, Timed(Op.Upsert(all[n]), now));
        assert (h + done) + [Timed(Op.Upsert(all[n]), now)] == h + ResponseOps(all[..n + 1], now);
        var modified := cache.Upsert(all[n], now);
      }
    }
    assert all[..|all|] == all;
  }

  /** The p-th record is the last of its name and type in the response. */
  predicate LastOfKey(rrs: seq<ResourceRecord>, p: nat)
    requires p < |rrs|
  {
    forall j :: p < j < |rrs| ==> RecordKey(rrs[j]) != RecordKey(rrs[p])
  }

  lemma ResponseSplits(rrs: seq<ResourceRecord>, p: nat, now: int)
    requires p < |rrs| && rrs[p].ttl > 0
    ensures ResponseOps(rrs, now) ==
              ResponseOps(rrs[..p], now) + [Timed(Op.Upsert(rrs[p]), now)] + ResponseOps(rrs[p + 1..], now)
  {
    hide RecordKey;
  }

  /** Of the unique records of one name and type in a response the last is found, alone, for as long
      as its TTL says. */
  lemma FoundAfterResponse(h: seq<Timed>, rrs: seq<ResourceRecord>, p: nat, at: int, later: seq<Timed>, now: int)
    requires p < |rrs| && rrs[p].cacheFlush && rrs[p].ttl > 0 && LastOfKey(rrs, p)
    requires at <= now && NotAfter(later, now) && Untouched(later, RecordKey(rrs[p]))
    ensures LookupIn(Run(h + ResponseOps(rrs, at) + later), RecordKey(rrs[p]), now) ==
            if now - at < rrs[p].ttl as int * 1_000_000_000 then [rrs[p]] else []
  {
    hide RecordKey, Run, LookupIn;
    var before, after := ResponseOps(rrs[..p], at), ResponseOps(rrs[p + 1..], at);
    var upsert := [Timed(Op.Upsert(rrs[p]), at)];
    ResponseSplits(rrs, p, at);
    assert h + ResponseOps(rrs, at) + later == (h + before) + upsert + (after + later);
    forall k | 0 <= k < |after|
      ensures !Touches(after[k].op, RecordKey(rrs[p]))
    {
      assert RecordKey(rrs[p + 1 + k]) != RecordKey(rrs[p]);
    }
    FlushedFound(h + before, rrs[p], at, after + later, now);
  }

  /** A response without records of a key leaves its lookup as it was. */
  lemma NotInResponse(h: seq<Timed>, rrs: seq<ResourceRecord>, key: CacheKey, at: int, later: seq<Timed>, now: int)
    requires forall j :: 0 <= j < |rrs| ==> RecordKey(rrs[j]) != key
    requires at <= now && NotAfter(later, now) && Untouched(later, key)
    ensures LookupIn(Run(h + ResponseOps(rrs, at) + later), key, now) == LookupIn(Run(h), key, now)
  {
    hide RecordKey, Run, LookupIn;
    assert h + ResponseOps(rrs, at) + later == h + (ResponseOps(rrs, at) + later);
    UntouchedLookup(h, ResponseOps(rrs, at) + later, key, now);
  }

  // ----- the records of a service as they are received -----

  lemma NameJoined(a: Bytes, b: Bytes)
    requires EndsWithDot(b) && (a != [] || b != [DOT])
    ensures NormalizeName(a + b) == a + b && EndsWithDot(a + b)
  {
  }

  lemma NamesNormal(i: Instance)
    ensures NormalizeName(ServiceType(i)) == ServiceType(i) && EndsWithDot(ServiceType(i))
    ensures NormalizeName(InstanceName(i)) == InstanceName(i) && EndsWithDot(InstanceName(i))
  {
    hide NormalizeName;
    var domain := EnsureDomain(i.domain);
    assert EndsWithDot(domain);
    NameJoined(i.stype + [DOT], domain);
    NameJoined(i.name + [DOT], ServiceType(i));
  }

  /** The seconds for which a service's SRV record and addresses, or its PTR and TXT record, are good. */
  function HostSeconds(i: Instance): int {
    if i.ttl == 0 then 120 else i.ttl as int
  }

  function OtherSeconds(i: Instance): int {
    if i.ttl == 0 then 75 else i.ttl as int
  }

  function Received(i: Instance): seq<ResourceRecord> {
    NormalRecords(ServiceRecords(i))
  }

  /** A PTR record from the type to the instance, an SRV record with its port and host and a TXT record
      with its text, both of the instance, and the addresses of the host; all but the PTR unique. */
  lemma ReceivedRecords(i: Instance)
    ensures var r := Received(i);
            && |r| == 3 + |i.ips|
            && r[0] == Blank(ServiceType(i), 12, 1, OtherSeconds(i) as U32, false).(target := InstanceName(i))
            && r[1] == Blank(InstanceName(i), 33, 1, HostSeconds(i) as U32, true).(
                 priority := i.priority, weight := i.weight, port := i.port, target := NormalizeName(i.host))
            && r[2] == Blank(InstanceName(i), 16, 1, OtherSeconds(i) as U32, true).(text := WrittenText(i.text))
  {
    hide NormalRecord, PtrRecord, SrvRecord, TxtRecord, InstanceName, ServiceType, NormalizeName, ServiceRecords, WrittenText;
    PtrReceived(i);
    SrvReceived(i);
    TxtReceived(i);
    ServiceRecordAt(i, 0);
    ServiceRecordAt(i, 1);
    ServiceRecordAt(i, 2);
  }

  lemma PtrReceived(i: Instance)
    ensures NormalRecord(PtrRecord(i)) ==
            Blank(ServiceType(i), 12, 1, OtherSeconds(i) as U32, false).(target := InstanceName(i))
  {
    hide NormalizeName, InstanceName, ServiceType;
    NamesNormal(i);
  }

  lemma SrvReceived(i: Instance)
    ensures NormalRecord(SrvRecord(i)) ==
            Blank(InstanceName(i), 33, 1, HostSeconds(i) as U32, true).(
              priority := i.priority, weight := i.weight, port := i.port, target := NormalizeName(i.host))
  {
    hide NormalizeName, InstanceName, To4, To16, WrittenText;
    NamesNormal(i);
    HostProper(i.host);
    var rr := SrvRecord(i);
    assert KindOf(rr.rtype) == Service;
    assert NormalHeader(rr) == Blank(InstanceName(i), 33, 1, HostSeconds(i) as U32, true);
  }

  lemma TxtReceived(i: Instance)
    ensures NormalRecord(TxtRecord(i)) ==
            Blank(InstanceName(i), 16, 1, OtherSeconds(i) as U32, true).(text := WrittenText(i.text))
  {
    hide NormalizeName, InstanceName;
    NamesNormal(i);
  }

  /** 4 or 16 octets that say an IPv4 address. */
  predicate IPv4(ip: Bytes) {
    |ip| == 4 || (|ip| == 16 && ip[10] == 255 && ip[11] == 255 && forall k :: 0 <= k < 10 ==> ip[k] == 0)
  }

  lemma IPv4Is(ip: Bytes)
    ensures IPv4(ip) <==> To4(ip).Some?
  {
    if |ip| == 16 {
      assert ip[..12] == MAPPED <==> forall k :: 0 <= k < 12 ==> ip[k] == MAPPED[k];
    }
  }

  lemma ReceivedAddress(i: Instance, k: nat)
    requires k < |i.ips|
    ensures |Received(i)| == 3 + |i.ips|
    ensures var r, ip := Received(i)[3 + k], i.ips[k];
            && r == Blank(NormalizeName(i.host), if IPv4(ip) then 1 else 28, 1, HostSeconds(i) as U32, true).(ip := r.ip)
            && (|ip| == 4 || |ip| == 16 ==> |r.ip| == (if IPv4(ip) then 4 else 16) && IpEqual(r.ip, ip))
  {
    hide NormalizeName, InstanceName, ServiceType, PtrRecord, SrvRecord, TxtRecord, IPv4;
    HostProper(i.host);
    IPv4Is(i.ips[k]);
    ServiceRecordAt(i, 3 + k);
  }

  /** Without a domain a service is in the domain local. */
  lemma NamesSpelled(i: Instance)
    ensures i.domain == [] ==> ServiceType(i) == i.stype + [46, 108, 111, 99, 97, 108, 46]
    ensures i.domain != [] && EndsWithDot(i.domain) ==> ServiceType(i) == i.stype + [46] + i.domain
    ensures InstanceName(i) == i.name + [46] + ServiceType(i)
  {
    hide ServiceType;
    if i.domain == [] {
      assert ServiceType(i) == i.stype + ([DOT] + LOCAL) by {
        TypeParts(i);
        assert i.stype + ([DOT] + LOCAL) == i.stype + [DOT] + LOCAL;
      }
    } else {
      TypeParts(i);
    }
  }

  lemma TypeParts(i: Instance)
    ensures ServiceType(i) == i.stype + [DOT] + EnsureDomain(i.domain)
  {
  }

  // ----- what is cached -----

  function HostKey(i: Instance, rtype: U16): CacheKey {
    KeyFor(NormalizeName(i.host), rtype)
  }

  /** SRV and TXT are cached under the key by which the service is known, the addresses under its host. */
  lemma ReceivedKeys(i: Instance, k: nat)
    requires k < |Received(i)|
    ensures |Received(i)| == 3 + |i.ips|
    ensures RecordKey(Received(i)[k]) ==
            if k == 0 then KeyFor(ServiceType(i), 12)
            else if k == 1 then CacheKey(KeyOf(i), 33)
            else if k == 2 then CacheKey(KeyOf(i), 16)
            else HostKey(i, if IPv4(i.ips[k - 3]) then 1 else 28)
  {
    hide Received, LowerName, NormalizeName, InstanceName, ServiceType, IPv4;
    ReceivedRecords(i);
    if k >= 3 {
      ReceivedAddress(i, k - 3);
      HostProper(i.host);
    }
  }

  predicate OthersOfHost(later: seq<Timed>, i: Instance) {
    Untouched(later, HostKey(i, 1)) && Untouched(later, HostKey(i, 28))
  }

  predicate OthersOfName(later: seq<Timed>, i: Instance) {
    Untouched(later, CacheKey(KeyOf(i), 33)) && Untouched(later, CacheKey(KeyOf(i), 16))
  }

  /** Once the records of a service have been received, its SRV and its TXT record are what is found
      under its name, each for as many seconds as it is good, whatever else the cache is told. */
  lemma ServiceCached(h: seq<Timed>, i: Instance, at: int, later: seq<Timed>, now: int)
    requires at <= now && NotAfter(later, now) && OthersOfName(later, i)
    ensures var t, r := Run(h + ResponseOps(Received(i), at) + later), Received(i);
            && |r| >= 3
            && LookupIn(t, CacheKey(KeyOf(i), 33), now) == (if now - at < HostSeconds(i) * 1_000_000_000 then [r[1]] else [])
            && LookupIn(t, CacheKey(KeyOf(i), 16), now) == (if now - at < OtherSeconds(i) * 1_000_000_000 then [r[2]] else [])
  {
    hide Received, LookupIn, Run, RecordKey, KeyOf, NormalizeName, InstanceName, ServiceType, Untouched, IPv4;
    var r := Received(i);
    ReceivedRecords(i);
    forall k | 0 <= k < |r|
      ensures k != 1 ==> RecordKey(r[k]) != CacheKey(KeyOf(i), 33)
      ensures k != 2 ==> RecordKey(r[k]) != CacheKey(KeyOf(i), 16)
    {
      ReceivedKeys(i, k);
    }
    ReceivedKeys(i, 1);
    ReceivedKeys(i, 2);
    FoundAfterResponse(h, r, 1, at, later, now);
    FoundAfterResponse(h, r, 2, at, later, now);
  }

  /** The k-th address is the last of its family. */
  predicate LastOfFamily(ips: seq<Bytes>, k: nat) {
    k < |ips| && forall j :: k < j < |ips| ==> IPv4(ips[j]) != IPv4(ips[k])
  }

  predicate NoneOfFamily(ips: seq<Bytes>, four: bool) {
    forall k :: 0 <= k < |ips| ==> IPv4(ips[k]) != four
  }

  /** Of the service's addresses of one family the last alone is cached, as it is good; and what was
      cached before is left where it has none. */
  lemma AddressCached(h: seq<Timed>, i: Instance, four: bool, k: nat, at: int, later: seq<Timed>, now: int)
    requires at <= now && NotAfter(later, now) && OthersOfHost(later, i)
    ensures var found := LookupIn(Run(h + ResponseOps(Received(i), at) + later), HostKey(i, if four then 1 else 28), now);
            && |Received(i)| == 3 + |i.ips|
            && (LastOfFamily(i.ips, k) && IPv4(i.ips[k]) == four ==>
                  found == if now - at < HostSeconds(i) * 1_000_000_000 then [Received(i)[3 + k]] else [])
            && (NoneOfFamily(i.ips, four) ==> found == LookupIn(Run(h), HostKey(i, if four then 1 else 28), now))
  {
    hide Received, LookupIn, Run, RecordKey, NormalizeName, InstanceName, ServiceType, Untouched, IPv4, LowerName;
    var r, key := Received(i), HostKey(i, if four then 1 else 28);
    ReceivedRecords(i);
    forall n | 0 <= n < |r|
      ensures RecordKey(r[n]) == key <==> n >= 3 && IPv4(i.ips[n - 3]) == four
    {
      ReceivedKeys(i, n);
    }
    if LastOfFamily(i.ips, k) && IPv4(i.ips[k]) == four {
      ReceivedAddress(i, k);
      assert LastOfKey(r, 3 + k);
      FoundAfterResponse(h, r, 3 + k, at, later, now);
    }
    if NoneOfFamily(i.ips, four) {
      NotInResponse(h, r, key, at, later, now);
    }
  }

  // ----- what is resolved -----

  /** Every address is of 4 or 16 octets; no other packs. */
  predicate Addresses(ips: seq<Bytes>) {
    forall k :: 0 <= k < |ips| ==> |ips[k]| == 4 || |ips[k]| == 16
  }

  /** learnt holds the last address of the family, or, if there is none, what was known before. */
  predicate Learns(ips: seq<Bytes>, four: bool, before: seq<Bytes>, learnt: seq<Bytes>) {
    && (forall k :: 0 <= k < |ips| && LastOfFamily(ips, k) && IPv4(ips[k]) == four ==>
          |learnt| == 1 && IpEqual(learnt[0], ips[k]))
    && (NoneOfFamily(ips, four) ==> learnt == before)
  }

  lemma AddressesLearnt(h: seq<Timed>, i: Instance, four: bool, at: int)
    requires Addresses(i.ips)
    ensures var key := HostKey(i, if four then 1 else 28);
            Learns(i.ips, four, Ips(LookupIn(Run(h), key, at)), Ips(LookupIn(Run(h + ResponseOps(Received(i), at)), key, at)))
  {
    hide Received, LookupIn, Run, IPv4, LastOfFamily, NoneOfFamily, IpEqual, HostKey;
    NothingAfter(h + ResponseOps(Received(i), at), []);
    forall k | 0 <= k <= |i.ips|
      ensures k < |i.ips| && LastOfFamily(i.ips, k) && IPv4(i.ips[k]) == four ==>
                var key := HostKey(i, if four then 1 else 28);
                var found := LookupIn(Run(h + ResponseOps(Received(i), at)), key, at);
                |found| == 1 && IpEqual(found[0].ip, i.ips[k])
    {
      AddressCached(h, i, four, k, at, [], at);
      if k < |i.ips| {
        ReceivedAddress(i, k);
      }
    }
    AddressCached(h, i, four, 0, at, [], at);
  }

  lemma NameExtracted(i: Instance, serviceType: Bytes)
    requires LowerName(serviceType) == LowerName(ServiceType(i))
    ensures ExtractInstanceName(InstanceName(i), serviceType) == i.name
  {
    hide LowerName, ServiceType, NormalizeName, ExtractInstanceName, EndsWith;
    var end := [DOT] + LowerName(serviceType);
    NamesNormal(i);
    DotIgnoresCase(ServiceType(i), serviceType);
    assert InstanceName(i) == i.name + ([DOT] + ServiceType(i));
    LowerConcat(i.name, [DOT] + ServiceType(i));
    LowerConcat([DOT], ServiceType(i));
    LowerDot();
    JoinedEnd(LowerName(i.name), end);
    ExtractedAtEnd(InstanceName(i), serviceType);
    assert |serviceType| == |ServiceType(i)|;
    assert InstanceName(i)[..|i.name|] == i.name;
  }

  lemma DotIgnoresCase(a: Bytes, b: Bytes)
    requires LowerName(a) == LowerName(b) && EndsWithDot(a)
    ensures EndsWithDot(b) && |a| == |b|
  {
    assert LowerName(a)[|a| - 1] == LowerName(b)[|b| - 1];
  }

  /** As soon as the records of a service are cached, its name resolves to that service: to its own
      name, host, port, priority, weight and text, and of each family to the last of its addresses. */
  lemma ServiceResolved(h: seq<Timed>, i: Instance, serviceType: Bytes, at: int)
    requires SameIgnoringCase(serviceType, ServiceType(i)) && Addresses(i.ips)
    ensures var t := Run(h + ResponseOps(Received(i), at));
            var a, aaaa := Ips(LookupIn(t, HostKey(i, 1), at)), Ips(LookupIn(t, HostKey(i, 28), at));
            && Resolve(t, serviceType, InstanceName(i), at) ==
                 Some(Info(i.name, NormalizeName(i.host), i.port, i.priority, i.weight, WrittenText(i.text), a + aaaa))
            && Learns(i.ips, true, Ips(LookupIn(Run(h), HostKey(i, 1), at)), a)
            && Learns(i.ips, false, Ips(LookupIn(Run(h), HostKey(i, 28), at)), aaaa)
  {
    hide Received, LookupIn, Run, Learns, SameIgnoringCase, InstanceName, ServiceType, NormalizeName, LowerName, ExtractInstanceName;
    NothingAfter(h + ResponseOps(Received(i), at), []);
    LowerNameMeans(serviceType, ServiceType(i));
    NameExtracted(i, serviceType);
    ServiceCached(h, i, at, [], at);
    ReceivedRecords(i);
    AddressesLearnt(h, i, true, at);
    AddressesLearnt(h, i, false, at);
  }

  /** So of two IPv4 addresses of a service the first is lost on everyone who hears of it. */
  lemma FirstAddressLost(i: Instance, a: Bytes, b: Bytes, serviceType: Bytes, at: int)
    requires i.ips == [a, b] && |a| == 4 && |b| == 4 && SameIgnoringCase(serviceType, ServiceType(i))
    ensures var info := Resolve(Run(ResponseOps(Received(i), at)), serviceType, InstanceName(i), at);
            info.Some? && |info.value.ips| == 1 && IpEqual(info.value.ips[0], b)
  {
    hide Received, LookupIn, Run, SameIgnoringCase, InstanceName, ServiceType, Resolve, HostKey, IpEqual;
    NothingBefore([], ResponseOps(Received(i), at));
    ServiceResolved([], i, serviceType, at);
    NothingCached(HostKey(i, 28), at);
    assert LastOfFamily(i.ips, 1) && NoneOfFamily(i.ips, false);
  }

  lemma NothingCached(key: CacheKey, now: int)
    ensures Ips(LookupIn(Run([]), key, now)) == []
  {
  }

  // ----- what the listeners are told -----

  /** The notify pass over rrs, when the cache says t. */
  ghost predicate NoticesOf(ns: seq<Notice>, rrs: seq<ResourceRecord>, t: Buckets, serviceType: Bytes, now: int) {
    |ns| == |rrs| && forall k :: 0 <= k < |ns| ==>
      && ns[k].Notice? && ns[k].rr == rrs[k]
      && (Matches(rrs[k], serviceType) ==> ns[k].resolved == Resolve(t, serviceType, NormalizeName(rrs[k].target), now))
  }

  /** Only a goodbye for its PTR record, or a first one, is an event for an instance. */
  predicate Quiet(n: Notice) {
    n.Notice? && n.rr.ttl > 0 && n.rr.rtype != 12
  }

  lemma {:induction false} QuietNotices(st: State, serviceType: Bytes, ns: seq<Notice>)
    requires forall k :: 0 <= k < |ns| ==> Quiet(ns[k])
    ensures var after := NotifyAll(st, serviceType, ns);
            after.offered == st.offered && after.instances.Keys == st.instances.Keys
  {
    hide InstanceKey;
    if ns != [] {
      QuietNotices(st, serviceType, ns[..|ns| - 1]);
    }
  }

  lemma {:induction false} NotifyFirst(st: State, serviceType: Bytes, n: Notice, rest: seq<Notice>)
    ensures NotifyAll(st, serviceType, [n] + rest) == NotifyAll(Notify(st, serviceType, n), serviceType, rest)
  {
    hide Notify;
    var all := [n] + rest;
    if rest == [] {
      assert all == [n] && all[..0] == [];
    } else {
      assert all[..|all| - 1] == [n] + rest[..|rest| - 1];
      NotifyFirst(st, serviceType, n, rest[..|rest| - 1]);
    }
  }

  /** A PTR record for an instance not known yet puts into the table, and offers, what the cache says
      of the instance, and where that is nothing its name alone. */
  lemma AddTells(st: State, serviceType: Bytes, n: Notice)
    requires n.Notice? && Matches(n.rr, serviceType) && n.rr.ttl > 0 && InstanceKey(n.rr) !in st.instances
    ensures var after, key := Notify(st, serviceType, n), InstanceKey(n.rr);
            && after.instances.Keys == st.instances.Keys + {key}
            && (forall k :: k in st.instances ==> after.instances[k] == st.instances[k])
            && after.offered == st.offered + [ServiceEvent(Action.Add, key, after.instances[key])]
            && (n.resolved.Some? ==> after.instances[key] == n.resolved.value)
            && (n.resolved.None? ==>
                  var name := ExtractInstanceName(NormalizeName(n.rr.target), serviceType);
                  after.instances[key] == Info(name, [], 0, 0, 0, [], []))
  {
    hide InstanceKey, Matches, ExtractInstanceName, NormalizeName;
  }

  /** A goodbye for a known instance takes it out of the table, and nothing else, and offers what was
      known of it; one for an unknown instance does nothing. */
  lemma RemoveTells(st: State, serviceType: Bytes, n: Notice)
    requires n.Notice? && Matches(n.rr, serviceType) && n.rr.ttl == 0
    ensures var after, key := Notify(st, serviceType, n), InstanceKey(n.rr);
            && after.instances.Keys == st.instances.Keys - {key}
            && (forall k :: k in after.instances ==> after.instances[k] == st.instances[k])
            && after.offered == if key in st.instances
                                then st.offered + [ServiceEvent(Action.Remove, key, st.instances[key])] else st.offered
  {
    hide InstanceKey, Matches;
  }

  /** An SRV, TXT or address record offers nothing and adds nothing; it changes what is known of the
      instances that it refreshes, and of no other. */
  lemma RefreshTells(st: State, serviceType: Bytes, n: Notice)
    requires n.Notice? && n.rr.rtype in {1, 16, 28, 33} && n.rr.ttl > 0
    ensures var after := Notify(st, serviceType, n);
            && after.offered == st.offered && after.instances.Keys == st.instances.Keys
            && forall k :: k in st.instances ==>
                 after.instances[k] == if k in n.refreshed then n.refreshed[k] else st.instances[k]
  {
    hide InstanceKey;
  }

  /** A browser of its type that hears the records of a service for the first time offers its
      listeners one event: the addition of that service, with all that the records say of it. */
  lemma ServiceOffered(h: seq<Timed>, i: Instance, serviceType: Bytes, at: int, st: State, ns: seq<Notice>)
    requires SameIgnoringCase(serviceType, ServiceType(i)) && Addresses(i.ips) && KeyOf(i) !in st.instances
    requires NoticesOf(ns, Received(i), Run(h + ResponseOps(Received(i), at)), serviceType, at)
    ensures var info := Resolve(Run(h + ResponseOps(Received(i), at)), serviceType, InstanceName(i), at);
            var after := NotifyAll(st, serviceType, ns);
            && info.Some?
            && after.offered == st.offered + [ServiceEvent(Action.Add, KeyOf(i), info.value)]
            && after.instances.Keys == st.instances.Keys + {KeyOf(i)}
  {
    hide Received, Run, ResponseOps, SameIgnoringCase, InstanceName, KeyOf, NormalizeName, Resolve, Learns, HostKey;
    hide Notify, NotifyAll, Matches, InstanceKey, Quiet;
    ServiceResolved(h, i, serviceType, at);
    PtrTells(i, serviceType);
    forall k | 1 <= k < |ns|
      ensures Quiet(ns[k])
    {
      OthersQuiet(i, ns[k], k);
    }
    assert ns == [ns[0]] + ns[1..];
    NotifyFirst(st, serviceType, ns[0], ns[1..]);
    AddTells(st, serviceType, ns[0]);
    QuietNotices(Notify(st, serviceType, ns[0]), serviceType, ns[1..]);
  }

  /** The PTR record is for browsers of the service's type, and tells them of the service. */
  lemma PtrTells(i: Instance, serviceType: Bytes)
    requires SameIgnoringCase(serviceType, ServiceType(i))
    ensures |Received(i)| >= 3
    ensures var ptr := Received(i)[0];
            Matches(ptr, serviceType) && ptr.ttl > 0 && InstanceKey(ptr) == KeyOf(i)
            && NormalizeName(ptr.target) == InstanceName(i)
  {
    hide Received, SameIgnoringCase, InstanceName, ServiceType, NormalizeName, LowerName;
    ReceivedRecords(i);
    NamesNormal(i);
    LowerNameMeans(serviceType, ServiceType(i));
  }

  lemma OthersQuiet(i: Instance, n: Notice, k: nat)
    requires 1 <= k < |Received(i)| && n.Notice? && n.rr == Received(i)[k]
    ensures Quiet(n)
  {
    hide Received, InstanceName, ServiceType, NormalizeName, IPv4;
    ReceivedRecords(i);
    if k >= 3 {
      ReceivedAddress(i, k - 3);
    }
  }

  // ----- over the network, and by the type asked for -----

  /** What announceService multicasts is read by its receivers as the records of the service. */
  lemma AnnouncementRead(i: Instance)
    requires ProperInstance(i) && ShortSection(ServiceRecords(i)) && Pack(Reply(ServiceRecords(i), [])).Ok?
    ensures var read := Unpack(Pack(Reply(ServiceRecords(i), [])).value);
            read.Ok? && read.value.answers == Received(i) && read.value.additionals == []
  {
    hide Pack, Unpack, ProperRecord, ShortRecord, NormalRecord, ServiceRecords, ProperInstance, Reply;
    forall k | 0 <= k < |ServiceRecords(i)|
      ensures ProperRecord(ServiceRecords(i)[k])
    {
      ServiceRecordAt(i, k);
      RecordsProper(i, if k < 3 then [] else i.ips[k - 3]);
    }
    ReplyRead(ServiceRecords(i), []);
  }

  /** normalizeServiceTypeDomain: the type that a browser looks for. */
  function BrowsedType(stype: Bytes, domain: Bytes): Bytes {
    var t, d := TrimDot(stype), TrimDot(domain);
    (if EndsWith(t, d) then t else t + [DOT] + d) + [DOT]
  }

  /** A browser of a type finds the services registered for that type and domain exactly if the type
      ends neither with a dot nor with the text of the domain. */
  lemma BrowseFindsIff(i: Instance)
    ensures SameIgnoringCase(BrowsedType(i.stype, i.domain), ServiceType(i)) <==>
              !EndsWithDot(i.stype) && !EndsWith(i.stype, TrimDot(i.domain))
  {
    var t, d := TrimDot(i.stype), TrimDot(i.domain);
    if i.domain != [] {
      assert EnsureDomain(i.domain) == d + [DOT];
      assert i.stype + [DOT] + (d + [DOT]) == i.stype + [DOT] + d + [DOT];
    }
  }
}
