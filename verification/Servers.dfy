/** The server's table of services and the critical sections that update it: service.go and
    handleProbe of server.go. Each takes the server's lock in the source, so each is one step. */
module Servers {
  import opened Octets
  import opened Names
  import opened Records
  import opened Tiebreak
  import opened Services
  import opened Probing
  import opened Renaming
  import opened Lifecycle

  class RegisteredService {
    var instance: Instance
    var records: seq<ResourceRecord>
    var state: State
    /** Whether probeCh is closed. */
    var closed: bool

    constructor (i: Instance)
      ensures instance == i && records == ServiceRecords(i) && state == StateIdle && !closed
    {
      instance, records, state, closed := i, ServiceRecords(i), StateIdle, false;
    }

    /** The fields are those of p in the transition system of Lifecycle. */
    ghost predicate Shows(p: Party)
      reads this
    {
      instance == p.instance && records == p.records && state == p.state && closed == (p.closes > 0)
    }

    /** The first critical section of probeService. */
    method BeginProbing()
      requires state == StateIdle && !closed
      modifies this`state
      ensures state == StateProbing
      ensures forall p: Party :: old(Shows(p)) && Enabled(p, Event.Begin) ==> Shows(Step(p, Event.Begin))
    {
      state := StateProbing;
    }

    /** The last critical section of probeService; closing a closed channel panics. */
    method Announce() returns (panics: bool)
      modifies this`state, this`closed
      ensures state == StateAnnounced && closed && panics == old(closed)
      ensures forall p: Party :: old(Shows(p)) && Enabled(p, Event.Announce) ==>
                Shows(Step(p, Event.Announce)) && panics == Crashed(Step(p, Event.Announce))
    {
      state := StateAnnounced;
      panics := closed;
      closed := true;
    }

    /** The part of handleConflictRename that concerns the service alone. */
    method StartOver()
      modifies this
      ensures instance == RenamedInstance(old(instance)) && records == ServiceRecords(instance)
      ensures instance == old(instance).(name := IncrementNameSuffix(old(instance.name)))
      ensures state == StateIdle && !closed
      ensures forall p: Party :: old(Shows(p)) && Enabled(p, Event.Rename) ==> Shows(Step(p, Event.Rename))
    {
      hide ServiceRecords, IncrementNameSuffix;
      instance := instance.(name := IncrementNameSuffix(instance.name));
      records := GenerateServiceRecords(instance);
      state := StateIdle;
      closed := false;
    }

    /** The body of handleProbe for one service: the record to defend with, if any. */
    method HandleRecord(ns: ResourceRecord) returns (defend: Option<ResourceRecord>)
      requires state == StateProbing ==> !closed
      modifies this`state, this`closed
      ensures state == OnProbe(old(state), records, ns)
      ensures closed == (old(closed) || state != old(state))
      ensures defend == if old(state) == StateAnnounced && Judge(records, ns).Conflict?
                        then Some(Judge(records, ns).rr) else None
      ensures forall p: Party :: old(Shows(p)) && Enabled(p, Event.Hear(ns)) ==> Shows(Step(p, Event.Hear(ns)))
    {
      hide Judge, CanonicalRdata, Less;
      defend := None;
      if state != StateAnnounced && state != StateProbing {
        return;
      }
      var verdict := JudgeRecord(records, ns);
      if !verdict.Conflict? {
        return;
      }
      if state == StateAnnounced {
        defend := Some(verdict.rr);
      } else {
        var ours := ComputeCanonicalRdata(verdict.rr);
        var theirs := ComputeCanonicalRdata(ns);
        if Less(ours, theirs) {
          state := StateConflictLost;
          closed := true;
        }
      }
    }
  }

  /** An announced service answers a probe record that conflicts with one of its own. */
  ghost predicate Defends(rs: RegisteredService, ns: ResourceRecord)
    reads rs
  {
    rs.state == StateAnnounced && Judge(rs.records, ns).Conflict?
  }

  /** The step of handleProbe for one service. */
  twostate predicate Handled(rs: RegisteredService, ns: ResourceRecord)
    reads rs
  {
    rs.state == OnProbe(old(rs.state), rs.records, ns) && rs.closed == (old(rs.closed) || rs.state != old(rs.state))
  }

  datatype RegisterError = MissingName | AlreadyRegistered

  /** svc with the server's defaults for what it leaves open. */
  function WithDefaults(i: Instance, domain: Bytes, host: Bytes, ips: seq<Bytes>): Instance {
    i.(domain := if i.domain == [] then domain else i.domain,
       host := if i.host == [] then host else i.host,
       ips := if i.ips == [] then ips else i.ips)
  }

  /** What a service has of its own it keeps, and what it leaves empty is the server's. */
  predicate Filled<T(==)>(own: seq<T>, servers: seq<T>, result: seq<T>) {
    if own == [] then result == servers else result == own
  }

  class Server {
    const domain: Bytes
    const hostName: Bytes
    const hostIps: seq<Bytes>
    var services: map<Bytes, RegisteredService>

    constructor (domain: Bytes, hostName: Bytes, hostIps: seq<Bytes>)
      ensures services == map[] && Valid()
      ensures this.domain == domain && this.hostName == hostName && this.hostIps == hostIps
    {
      this.domain, this.hostName, this.hostIps := domain, hostName, hostIps;
      services := map[];
    }

    /** Every service is under its own name, under no other, and has an open channel while it probes. */
    ghost predicate Valid()
      reads this, services.Values
    {
      && (forall k :: k in services ==> k == KeyOf(services[k].instance))
      && (forall k :: k in services && services[k].state == StateProbing ==> !services[k].closed)
    }

    method RegisterService(svc: Instance) returns (err: Option<RegisterError>)
      requires Valid()
      modifies this`services
      ensures Valid()
      ensures err == Some(MissingName) <==> svc.name == [] || svc.stype == []
      ensures var i := WithDefaults(svc, domain, hostName, hostIps);
              && (err == Some(AlreadyRegistered) <==> svc.name != [] && svc.stype != [] && KeyOf(i) in old(services))
              && (err == None ==>
                    && KeyOf(i) in services && fresh(services[KeyOf(i)])
                    && services == old(services)[KeyOf(i) := services[KeyOf(i)]]
                    && services[KeyOf(i)].instance == i && services[KeyOf(i)].records == ServiceRecords(i)
                    && services[KeyOf(i)].state == StateIdle && !services[KeyOf(i)].closed
                    && Filled(svc.domain, domain, services[KeyOf(i)].instance.domain)
                    && Filled(svc.host, hostName, services[KeyOf(i)].instance.host)
                    && Filled(svc.ips, hostIps, services[KeyOf(i)].instance.ips)
                    && services[KeyOf(i)].instance == svc.(domain := i.domain, host := i.host, ips := i.ips))
              && (err != None ==> services == old(services))
    {
      hide KeyOf, ServiceRecords;
      if svc.name == [] || svc.stype == [] {
        return Some(MissingName);
      }
      var i := WithDefaults(svc, domain, hostName, hostIps);
      var key := KeyOf(i);
      if key in services {
        return Some(AlreadyRegistered);
      }
      var rs := new RegisteredService(i);
      services := services[key := rs];
      return None;
    }

    /** Removes a service; the records to say goodbye for, if it was announced. */
    method UnregisterService(svc: Instance) returns (found: bool, goodbye: Option<seq<ResourceRecord>>)
      requires Valid()
      modifies this`services
      ensures Valid()
      ensures found <==> KeyOf(svc) in old(services)
      ensures services == old(services) - {KeyOf(svc)}
      ensures goodbye == if found && old(services)[KeyOf(svc)].state == StateAnnounced
                         then Some(old(services)[KeyOf(svc)].records) else None
    {
      hide KeyOf;
      var key := KeyOf(svc);
      goodbye := None;
      found := key in services;
      if found {
        var rs := services[key];
        services := services - {key};
        if rs.state == StateAnnounced {
          goodbye := Some(rs.records);
        }
      }
    }

    /** handleProbe: every service, in any order, judges the record for itself; defended gives the
        record with which each announced service in conflict answers. */
    method HandleProbe(ns: ResourceRecord) returns (defended: map<RegisteredService, ResourceRecord>)
      requires Valid()
      modifies services.Values`state, services.Values`closed
      ensures Valid() && services == old(services)
      ensures forall rs :: rs in services.Values ==> Handled(rs, ns)
      ensures forall rs :: rs in defended <==> rs in services.Values && Defends(rs, ns)
      ensures forall rs :: rs in defended ==> Judge(rs.records, ns) == Conflict(defended[rs])
    {
      hide KeyOf, OnProbe, Judge, Defends, Step, Enabled, Crashed, ServiceRecords;
      defended := map[];
      var left := services.Values;
      while left != {}
        invariant left <= services.Values
        invariant forall rs :: rs in services.Values && rs.state == StateProbing ==> !rs.closed
        invariant forall rs :: rs in left ==> rs.state == old(rs.state) && rs.closed == old(rs.closed)
        invariant forall rs :: rs in services.Values - left ==> Handled(rs, ns)
        invariant forall rs :: rs in defended <==> rs in services.Values - left && Defends(rs, ns)
        invariant forall rs :: rs in defended ==> Judge(rs.records, ns) == Conflict(defended[rs])
        decreases left
      {
        var rs :| rs in left;
        left := left - {rs};
        ProbeOutcome(rs.state, rs.records, ns);
        var defend := rs.HandleRecord(ns);
        DefendsIs(rs, ns);
        if defend.Some? {
          defended := defended[rs := defend.value];
        }
      }
    }

    /** handleConflictRename: the next name of the sequence, fresh records, a fresh channel, and the
        service under its new key. */
    method HandleConflictRename(rs: RegisteredService)
      modifies this`services, rs
      ensures rs.instance == RenamedInstance(old(rs.instance)) && rs.records == ServiceRecords(rs.instance)
      ensures rs.state == StateIdle && !rs.closed
      ensures services == (old(services) - {KeyOf(old(rs.instance))})[KeyOf(rs.instance) := rs]
      ensures old(Valid()) ==> Valid()
      ensures KeepsOthers(old(services), services, rs) <==>
                HoldsOnly(old(services), KeyOf(rs.instance), rs) && HoldsOnly(old(services), KeyOf(old(rs.instance)), rs)
    {
      hide LowerName, NormalizeName, ServiceType, ServiceRecords, IncrementNameSuffix, KeyOf;
      var oldName := rs.instance.name;
      rs.StartOver();
      var oldKey := LowerName(oldName + [DOT] + ServiceType(rs.instance));
      OldKeyIs(rs.instance, oldName);
      assert rs.instance.(name := oldName) == old(rs.instance);
      var newKey := KeyOf(rs.instance);
      RenameKeepsOthersIff(services, rs, oldKey, newKey);
      services := services - {oldKey};
      services := services[newKey := rs];
    }
  }

  lemma DefendsIs(rs: RegisteredService, ns: ResourceRecord)
    ensures Defends(rs, ns) <==> rs.state == StateAnnounced && Judge(rs.records, ns).Conflict?
  {
    hide Judge;
  }

  lemma ProbeOutcome(state: State, records: seq<ResourceRecord>, ns: ResourceRecord)
    ensures OnProbe(state, records, ns) == StateProbing ==> state == StateProbing
    ensures OnProbe(state, records, ns) == StateAnnounced <==> state == StateAnnounced
  {
  }

  lemma OldKeyIs(i: Instance, name: Bytes)
    ensures LowerName(name + [DOT] + ServiceType(i)) == KeyOf(i.(name := name))
  {
    hide LowerName, NormalizeName;
    InstanceNameDotted(i.(name := name));
  }

  /** The key is free, or belongs to rs. */
  predicate HoldsOnly<S(==)>(services: map<Bytes, S>, key: Bytes, rs: S) {
    key in services ==> services[key] == rs
  }

  /** The map that handleConflictRename leaves drops no other service exactly when the new key is
      free, or the service's own, and the old key is not another service's by now. */
  lemma RenameKeepsOthersIff<S>(services: map<Bytes, S>, rs: S, oldKey: Bytes, newKey: Bytes)
    ensures KeepsOthers(services, (services - {oldKey})[newKey := rs], rs)
       <==> HoldsOnly(services, newKey, rs) && HoldsOnly(services, oldKey, rs)
  {
    var after := (services - {oldKey})[newKey := rs];
    if oldKey in services && services[oldKey] != rs {
      assert oldKey !in after || after[oldKey] == rs;
    }
  }

  predicate KeepsOthers<S(==)>(before: map<Bytes, S>, after: map<Bytes, S>, rs: S) {
    forall k :: k in before && before[k] != rs ==> k in after && after[k] == before[k]
  }

  /** Such a rename happens: if the next name of a service is another's, the other is dropped. */
  lemma RenameDrops<S>(i: Instance, one: S, other: S)
    requires one != other
    ensures var oldKey, newKey := KeyOf(i), KeyOf(RenamedInstance(i));
            var before := map[oldKey := one, newKey := other];
            var after := (before - {oldKey})[newKey := one];
            before[newKey] == other && other !in after.Values && !KeepsOthers(before, after, one)
  {
    hide KeyOf, RenamedInstance;
    NextKeyDiffers(i);
  }

  lemma NextKeyDiffers(i: Instance)
    ensures KeyOf(RenamedInstance(i)) != KeyOf(i)
  {
    hide LowerName, NormalizeName, ServiceType, IncrementNameSuffix, KeyOf;
    var j := RenamedInstance(i);
    SameType(i, j.name);
    KeyParts(i);
    KeyParts(j);
    RenamingNeverRepeats(i.name, 0, 1);
    FirstRenaming(i.name);
    PrefixOf(LowerName(i.name), LowerName([DOT] + ServiceType(i)));
    PrefixOf(LowerName(j.name), LowerName([DOT] + ServiceType(i)));
  }

  lemma FirstRenaming(name: Bytes)
    ensures Renamed(name, 0) == name && Renamed(name, 1) == IncrementNameSuffix(name)
  {
    hide IncrementNameSuffix;
    assert Renamed(name, 1) == IncrementNameSuffix(Renamed(name, 0));
  }

  /** Some renaming, among the first as many as there are services, leads to a free key. */
  lemma RenameEscapes<S>(i: Instance, services: map<Bytes, S>) returns (n: nat)
    ensures 1 <= n <= 1 + |services.Keys|
    ensures KeyOf(i.(name := Renamed(i.name, n))) !in services
  {
    hide LowerName, Renamed, NormalizeName, ServiceType, KeyOf;
    var suffix := LowerName([DOT] + ServiceType(i));
    var taken := set k | k in services && EndsWith(k, suffix) :: k[..|k| - |suffix|];
    forall t | t in taken
      ensures t + suffix in services.Keys
    {
      var k :| k in services && EndsWith(k, suffix) && t == k[..|k| - |suffix|];
      assert k == k[..|k| - |suffix|] + k[|k| - |suffix|..];
    }
    TakenSmaller(services.Keys, suffix, taken);
    n := RenamingEscapes(i.name, 1, taken);
    var j := i.(name := Renamed(i.name, n));
    SameType(i, j.name);
    KeyParts(j);
    var key := KeyOf(j);
    PrefixOf(LowerName(j.name), suffix);
  }

  lemma PrefixOf(a: Bytes, b: Bytes)
    ensures EndsWith(a + b, b) && (a + b)[..|a + b| - |b|] == a
  {
  }

  lemma KeyParts(i: Instance)
    ensures KeyOf(i) == LowerName(i.name) + LowerName([DOT] + ServiceType(i))
  {
    hide ServiceType, NormalizeName;
    InstanceNameDotted(i);
    assert InstanceName(i) == i.name + ([DOT] + ServiceType(i));
  }

  lemma {:induction false} TakenSmaller(keys: set<Bytes>, suffix: Bytes, taken: set<Bytes>)
    requires forall t :: t in taken ==> t + suffix in keys
    ensures |taken| <= |keys|
    decreases |taken|
  {
    if taken != {} {
      var t :| t in taken;
      forall u | u in taken - {t}
        ensures u + suffix in keys - {t + suffix}
      {
        PrefixOf(u, suffix);
        PrefixOf(t, suffix);
      }
      TakenSmaller(keys - {t + suffix}, suffix, taken - {t});
    }
  }
}
