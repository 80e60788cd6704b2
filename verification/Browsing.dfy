/** The table of known service instances and the events its listeners are offered: onRecordAdd,
    handlePTR and onRecordRemove of browser.go, and the notify pass of handleResponse in server.go. */
module Browsing {
  import opened Octets
  import opened Names
  import opened Records

  datatype Info = Info(name: Bytes, host: Bytes, port: U16, priority: U16, weight: U16, text: seq<Bytes>, ips: seq<Bytes>)

  datatype Action = Add | Remove

  /** An event, with the key of the instance it is about. */
  datatype ServiceEvent = ServiceEvent(action: Action, key: Bytes, instance: Info)

  /** offered holds the events in the order in which the listeners are offered them. */
  datatype State = State(instances: map<Bytes, Info>, offered: seq<ServiceEvent>)

  /** What may happen to a browser: one record of the notify pass, with what the cache then says, the
      instance that a PTR record resolves to, if it has an SRV record, and the known instances that
      another record refreshes; or an expiry of the cache, with the records that it purges. */
  datatype Notice =
    | Notice(rr: ResourceRecord, resolved: Option<Info>, refreshed: map<Bytes, Info>)
    | Purge(expired: seq<ResourceRecord>)

  function InstanceKey(rr: ResourceRecord): Bytes {
    LowerName(NormalizeName(rr.target))
  }

  predicate Matches(rr: ResourceRecord, serviceType: Bytes) {
    rr.rtype == TYPE_PTR && LowerName(rr.name) == LowerName(serviceType)
  }

  // ----- the name of an instance -----

  function TrimDot(s: Bytes): Bytes {
    if s != [] && s[|s| - 1] == DOT then s[..|s| - 1] else s
  }

  predicate FoundAt(s: Bytes, part: Bytes, i: nat) {
    i + |part| <= |s| && s[i..i + |part|] == part
  }

  /** strings.LastIndex(s, part), looking at indices up to upTo. */
  function LastIndex(s: Bytes, part: Bytes, upTo: nat): (r: int)
    ensures -1 <= r <= upTo
    ensures r >= 0 ==> FoundAt(s, part, r)
  {
    if FoundAt(s, part, upTo) then upTo else if upTo == 0 then -1 else LastIndex(s, part, upTo - 1)
  }

  function ExtractInstanceName(instance: Bytes, serviceType: Bytes): Bytes {
    var ln, st := TrimDot(instance), TrimDot(serviceType);
    var i := LastIndex(LowerName(ln), LowerName(st), |ln|);
    if i > 0 then ln[..i - 1] else ln
  }

  lemma {:induction false} LastIndexOfEnd(s: Bytes, part: Bytes, upTo: nat)
    requires |part| <= |s| && |s| - |part| <= upTo && s[|s| - |part|..] == part
    ensures LastIndex(s, part, upTo) == |s| - |part|
  {
    if upTo > |s| - |part| {
      LastIndexOfEnd(s, part, upTo - 1);
    }
  }

  lemma EndsAt(s: Bytes, end: Bytes, k: nat)
    requires EndsWith(s, end) && k < |end|
    ensures s[|s| - |end| + k] == end[k]
  {
    assert s[|s| - |end|..][k] == end[k];
  }

  lemma TrimmedEnd(instance: Bytes, serviceType: Bytes)
    requires EndsWithDot(instance) && EndsWithDot(serviceType)
    requires EndsWith(LowerName(instance), [DOT] + LowerName(serviceType))
    ensures var ln, st := TrimDot(instance), TrimDot(serviceType);
            |ln| > |st| && LowerName(ln)[|ln| - |st|..] == LowerName(st)
  {
    hide EndsWith, LowerName;
    var ln, st := TrimDot(instance), TrimDot(serviceType);
    var n := |instance| - |serviceType|;
    EndsWithLength(LowerName(instance), [DOT] + LowerName(serviceType));
    forall k | 0 <= k < |st|
      ensures LowerName(ln)[n + k] == LowerName(st)[k]
    {
      EndsAt(LowerName(instance), [DOT] + LowerName(serviceType), k + 1);
    }
  }

  lemma EndsWithLength(s: Bytes, end: Bytes)
    requires EndsWith(s, end)
    ensures |end| <= |s|
  {
  }

  /** Where the name ends with the service type, what comes before the dot is extracted. */
  lemma ExtractedAtEnd(instance: Bytes, serviceType: Bytes)
    requires EndsWithDot(instance) && EndsWithDot(serviceType)
    requires EndsWith(LowerName(instance), [DOT] + LowerName(serviceType))
    ensures var n := |instance| - |serviceType|;
            n > 0 && ExtractInstanceName(instance, serviceType) == instance[..n - 1]
  {
    hide LowerName, LastIndex, EndsWith;
    var ln, st := TrimDot(instance), TrimDot(serviceType);
    TrimmedEnd(instance, serviceType);
    LastIndexOfEnd(LowerName(ln), LowerName(st), |ln|);
    assert ln[..|ln| - |st| - 1] == instance[..|instance| - |serviceType| - 1];
  }

  lemma JoinedEnd(a: Bytes, b: Bytes)
    ensures EndsWith(a + b, b)
  {
  }

  /** Known answers and updates name an instance as its extracted name, a dot and the service type.
      Up to case that is the instance's own name exactly when the name ends with a dot and the
      service type. */
  lemma ExtractIff(instance: Bytes, serviceType: Bytes)
    requires EndsWithDot(instance) && EndsWithDot(serviceType)
    ensures LowerName(ExtractInstanceName(instance, serviceType) + [DOT] + serviceType) == LowerName(instance)
       <==> EndsWith(LowerName(instance), [DOT] + LowerName(serviceType))
  {
    hide LowerName, LastIndex, EndsWith, ExtractInstanceName;
    var name := ExtractInstanceName(instance, serviceType);
    var end := [DOT] + LowerName(serviceType);
    LowerConcat(name + [DOT], serviceType);
    LowerConcat(name, [DOT]);
    LowerDot();
    Assoc(LowerName(name), [DOT], LowerName(serviceType));
    JoinedEnd(LowerName(name), end);
    if EndsWith(LowerName(instance), end) {
      ExtractedAtEnd(instance, serviceType);
      LowerEnd(instance, |instance| - |serviceType| - 1, end);
    }
  }

  lemma LowerEnd(s: Bytes, n: nat, end: Bytes)
    requires EndsWith(LowerName(s), end) && n + |end| == |s|
    ensures LowerName(s) == LowerName(s[..n]) + end
  {
    hide LowerName;
    assert s == s[..n] + s[n..];
    LowerConcat(s[..n], s[n..]);
  }

  lemma LowerDot()
    ensures LowerName([DOT]) == [DOT]
  {
  }

  // ----- one record -----

  function Partial(serviceType: Bytes, instance: Bytes): Info {
    Info(ExtractInstanceName(instance, serviceType), [], 0, 0, 0, [], [])
  }

  function Discovered(serviceType: Bytes, n: Notice): Info
    requires n.Notice?
  {
    if n.resolved.Some? then n.resolved.value else Partial(serviceType, NormalizeName(n.rr.target))
  }

  function Refreshed(instances: map<Bytes, Info>, refreshed: map<Bytes, Info>): map<Bytes, Info> {
    map k | k in instances :: if k in refreshed then refreshed[k] else instances[k]
  }

  function OnAdd(st: State, serviceType: Bytes, n: Notice): State
    requires n.Notice?
  {
    var key := InstanceKey(n.rr);
    if Matches(n.rr, serviceType) then
      if key in st.instances then st
      else
        var info := Discovered(serviceType, n);
        State(st.instances[key := info], st.offered + [ServiceEvent(Add, key, info)])
    else if n.rr.rtype in {TYPE_SRV, TYPE_TXT, TYPE_A, TYPE_AAAA} then
      st.(instances := Refreshed(st.instances, n.refreshed))
    else st
  }

  function OnRemove(st: State, serviceType: Bytes, rr: ResourceRecord): State {
    var key := InstanceKey(rr);
    if Matches(rr, serviceType) && key in st.instances then
      State(st.instances - {key}, st.offered + [ServiceEvent(Remove, key, st.instances[key])])
    else st
  }

  /** The periodic expiry purges the cache and tells no browser. */
  function Notify(st: State, serviceType: Bytes, n: Notice): State {
    if n.Purge? then st
    else if n.rr.ttl == 0 then OnRemove(st, serviceType, n.rr)
    else OnAdd(st, serviceType, n)
  }

  function NotifyAll(st: State, serviceType: Bytes, ns: seq<Notice>): State {
    if ns == [] then st else Notify(NotifyAll(st, serviceType, ns[..|ns| - 1]), serviceType, ns[|ns| - 1])
  }

  const FRESH := State(map[], [])

  /** The browser after every record that it was ever notified of. */
  function StateAfter(serviceType: Bytes, ns: seq<Notice>): State {
    NotifyAll(FRESH, serviceType, ns)
  }

  // ----- what the listeners can conclude -----

  /** The instances of someone who only follows the events. */
  function Replay(events: seq<ServiceEvent>): map<Bytes, Info> {
    if events == [] then map[]
    else
      var before, last := Replay(events[..|events| - 1]), events[|events| - 1];
      if last.action == Add then before[last.key := last.instance] else before - {last.key}
  }

  /** The actions offered for one key. */
  function ActionsFor(events: seq<ServiceEvent>, key: Bytes): seq<Action> {
    if events == [] then []
    else
      var before, last := ActionsFor(events[..|events| - 1], key), events[|events| - 1];
      if last.key == key then before + [last.action] else before
  }

  predicate Alternating(actions: seq<Action>) {
    forall i :: 0 <= i < |actions| ==> actions[i] == if i % 2 == 0 then Add else Remove
  }

  predicate Consistent(st: State, key: Bytes) {
    var actions := ActionsFor(st.offered, key);
    && Alternating(actions)
    && (key in st.instances <==> |actions| % 2 == 1)
    && (key in st.instances <==> key in Replay(st.offered))
  }

  lemma OfferStep(offered: seq<ServiceEvent>, e: ServiceEvent, key: Bytes)
    ensures ActionsFor(offered + [e], key) ==
            if e.key == key then ActionsFor(offered, key) + [e.action] else ActionsFor(offered, key)
    ensures Replay(offered + [e]) ==
            if e.action == Add then Replay(offered)[e.key := e.instance] else Replay(offered) - {e.key}
  {
    assert (offered + [e])[..|offered|] == offered;
  }

  lemma NotifyConsistent(st: State, serviceType: Bytes, n: Notice, key: Bytes)
    requires Consistent(st, key)
    ensures Consistent(Notify(st, serviceType, n), key)
  {
    hide InstanceKey, Matches, ActionsFor, Replay, Discovered;
    if n.Purge? {
      return;
    }
    var k := InstanceKey(n.rr);
    if n.rr.ttl == 0 {
      if k in st.instances {
        OfferStep(st.offered, ServiceEvent(Remove, k, st.instances[k]), key);
      }
    } else {
      OfferStep(st.offered, ServiceEvent(Add, k, Discovered(serviceType, n)), key);
    }
  }

  /** Over every run the events for one instance strictly alternate, an Add first, and the instance
      is in the table exactly when its last event is an Add; so whoever replays the events knows
      exactly the instances of the table. */
  lemma EventsReplay(serviceType: Bytes, ns: seq<Notice>, key: Bytes)
    ensures var st := StateAfter(serviceType, ns);
            var actions := ActionsFor(st.offered, key);
            && Alternating(actions)
            && (key in st.instances <==> actions != [] && actions[|actions| - 1] == Add)
            && (key in st.instances <==> key in Replay(st.offered))
  {
    hide StateAfter, ActionsFor, Replay;
    RunConsistent(serviceType, ns, key);
  }

  lemma {:induction false} RunConsistent(serviceType: Bytes, ns: seq<Notice>, key: Bytes)
    ensures Consistent(StateAfter(serviceType, ns), key)
  {
    hide Notify, Consistent;
    if ns == [] {
      FreshConsistent(key);
    } else {
      RunConsistent(serviceType, ns[..|ns| - 1], key);
      NotifyConsistent(StateAfter(serviceType, ns[..|ns| - 1]), serviceType, ns[|ns| - 1], key);
    }
  }

  lemma FreshConsistent(key: Bytes)
    ensures Consistent(FRESH, key)
  {
  }

  // ----- which instances are known -----

  predicate Concerns(n: Notice, serviceType: Bytes, key: Bytes): (b: bool)
    ensures b ==> n.Notice?
  {
    n.Notice? && Matches(n.rr, serviceType) && InstanceKey(n.rr) == key
  }

  /** The i-th record announces the instance, and no later one says goodbye to it. */
  predicate AnnouncedAt(ns: seq<Notice>, serviceType: Bytes, key: Bytes, i: nat) {
    && i < |ns| && Concerns(ns[i], serviceType, key) && ns[i].rr.ttl > 0
    && forall j :: i < j < |ns| && Concerns(ns[j], serviceType, key) ==> ns[j].rr.ttl > 0
  }

  lemma AnnouncedLast(ns: seq<Notice>, serviceType: Bytes, key: Bytes)
    requires ns != []
    ensures var front, last := ns[..|ns| - 1], ns[|ns| - 1];
            (exists i :: 0 <= i < |ns| && AnnouncedAt(ns, serviceType, key, i)) <==>
              if Concerns(last, serviceType, key) then last.rr.ttl > 0
              else exists i :: 0 <= i < |front| && AnnouncedAt(front, serviceType, key, i)
  {
    hide Concerns;
    var front, last := ns[..|ns| - 1], ns[|ns| - 1];
    assert forall i :: 0 <= i < |front| ==> front[i] == ns[i];
    assert AnnouncedAt(ns, serviceType, key, |front|) <==> Concerns(last, serviceType, key) && last.rr.ttl > 0;
    forall i: nat | i < |front|
      ensures AnnouncedAt(ns, serviceType, key, i) <==>
              AnnouncedAt(front, serviceType, key, i) && (Concerns(last, serviceType, key) ==> last.rr.ttl > 0)
    {
    }
  }

  lemma NotifyKnown(st: State, serviceType: Bytes, n: Notice, key: Bytes)
    ensures key in Notify(st, serviceType, n).instances <==>
            if Concerns(n, serviceType, key) then n.rr.ttl > 0 else key in st.instances
  {
    hide InstanceKey, Matches, Discovered;
  }

  /** An instance is known exactly when some PTR record announced it and none has said goodbye to
      it since. Its TTL plays no part, and neither does any purge of its records in between. */
  lemma {:induction false} KnownIff(serviceType: Bytes, ns: seq<Notice>, key: Bytes)
    ensures key in StateAfter(serviceType, ns).instances <==>
            exists i :: 0 <= i < |ns| && AnnouncedAt(ns, serviceType, key, i)
  {
    hide Notify, Concerns, AnnouncedAt;
    if ns != [] {
      KnownIff(serviceType, ns[..|ns| - 1], key);
      NotifyKnown(StateAfter(serviceType, ns[..|ns| - 1]), serviceType, ns[|ns| - 1], key);
      AnnouncedLast(ns, serviceType, key);
    }
  }

  // ----- the browser as the source keeps it -----

  class Browser {
    const serviceType: Bytes
    var instances: map<Bytes, Info>
    var offered: seq<ServiceEvent>

    function Shows(): State
      reads this
    {
      State(instances, offered)
    }

    constructor (serviceType: Bytes)
      ensures this.serviceType == serviceType && Shows() == FRESH
    {
      this.serviceType := serviceType;
      instances, offered := map[], [];
    }

    method OnRecordAdd(n: Notice)
      requires n.Notice?
      modifies this
      ensures Shows() == OnAdd(old(Shows()), serviceType, n)
    {
      hide LowerName, NormalizeName;
      if n.rr.rtype == TYPE_PTR && LowerName(n.rr.name) == LowerName(serviceType) {
        HandlePTR(n);
        return;
      }
      if n.rr.rtype == TYPE_SRV || n.rr.rtype == TYPE_TXT || n.rr.rtype == TYPE_A || n.rr.rtype == TYPE_AAAA {
        instances := Refreshed(instances, n.refreshed);
      }
    }

    method HandlePTR(n: Notice)
      requires n.Notice? && Matches(n.rr, serviceType)
      modifies this
      ensures Shows() == OnAdd(old(Shows()), serviceType, n)
    {
      hide LowerName, NormalizeName;
      var instanceName := NormalizeName(n.rr.target);
      if LowerName(instanceName) in instances {
        return;
      }
      var info := Partial(serviceType, instanceName);
      if n.resolved.Some? {
        info := n.resolved.value;
      }
      instances := instances[LowerName(instanceName) := info];
      offered := offered + [ServiceEvent(Add, LowerName(instanceName), info)];
    }

    method OnRecordRemove(rr: ResourceRecord)
      modifies this
      ensures Shows() == OnRemove(old(Shows()), serviceType, rr)
    {
      hide LowerName, NormalizeName;
      if rr.rtype != TYPE_PTR || LowerName(rr.name) != LowerName(serviceType) {
        return;
      }
      var key := LowerName(NormalizeName(rr.target));
      if key !in instances {
        return;
      }
      var info := instances[key];
      instances := instances - {key};
      offered := offered + [ServiceEvent(Remove, key, info)];
    }

    /** The notify pass of handleResponse. */
    method OnResponse(ns: seq<Notice>)
      requires forall i :: 0 <= i < |ns| ==> ns[i].Notice?
      modifies this
      ensures Shows() == NotifyAll(old(Shows()), serviceType, ns)
    {
      hide OnAdd, OnRemove;
      for i := 0 to |ns|
        invariant Shows() == NotifyAll(old(Shows()), serviceType, ns[..i])
      {
        assert ns[..i + 1][..i] == ns[..i];
        if ns[i].rr.ttl == 0 {
          OnRecordRemove(ns[i].rr);
        } else {
          OnRecordAdd(ns[i]);
        }
      }
      assert ns[..|ns|] == ns;
    }
  }
}
