/** The life of one registered service as a transition system: one step for every critical section
    of probeService, handleConflictRename and handleProbe, interleaved in any order. */
module Lifecycle {
  import opened Octets
  import opened Names
  import opened Records
  import opened Services
  import opened Probing
  import opened Renaming

  const PROBE_COUNT := 3

  /** Where the goroutine that runs probeService stands. */
  datatype Phase = Starting | Sending(sent: nat) | Decided(seen: State) | Finished | Stopped

  /** A registered service with its goroutine. closes counts how often the current probeCh was
      closed; sent and judged record, for the current round, the probes sent and the probe records
      handled while probing. */
  datatype Party = Party(
    instance: Instance,
    records: seq<ResourceRecord>,
    state: State,
    closes: nat,
    phase: Phase,
    sent: nat,
    judged: set<ResourceRecord>
  )

  datatype Event = Begin | Send | Read | Announce | Rename | Stop | Hear(ns: ResourceRecord)

  function Fresh(i: Instance): Party {
    Party(i, ServiceRecords(i), StateIdle, 0, Starting, 0, {})
  }

  /** Closing a channel twice ends the program. */
  predicate Crashed(p: Party) {
    p.closes >= 2
  }

  predicate Enabled(p: Party, e: Event) {
    && !Crashed(p)
    && match e
       case Begin => p.phase == Starting
       case Send => p.phase.Sending? && p.phase.sent < PROBE_COUNT
       case Read => p.phase == Sending(PROBE_COUNT)
       case Announce => p.phase.Decided? && p.phase.seen != StateConflictLost
       case Rename => p.phase == Decided(StateConflictLost)
       case Stop => p.phase.Sending?
       case Hear(_) => true
  }

  function RenamedInstance(i: Instance): Instance {
    i.(name := IncrementNameSuffix(i.name))
  }

  function Step(p: Party, e: Event): Party
    requires Enabled(p, e)
  {
    match e
    case Begin => p.(state := StateProbing, phase := Sending(0))
    case Send => p.(phase := Sending(p.phase.sent + 1), sent := p.sent + 1)
    case Read => p.(phase := Decided(p.state))
    case Announce => p.(state := StateAnnounced, closes := p.closes + 1, phase := Finished)
    case Rename => Fresh(RenamedInstance(p.instance))
    case Stop => p.(phase := Stopped)
    case Hear(ns) =>
      if p.state == StateProbing then
        var after := OnProbe(p.state, p.records, ns);
        p.(state := after, judged := p.judged + {ns},
           closes := if after == StateConflictLost then p.closes + 1 else p.closes)
      else p
  }

  predicate IsRun(states: seq<Party>, es: seq<Event>) {
    && |states| == |es| + 1
    && forall i :: 0 <= i < |es| ==> Enabled(states[i], es[i]) && states[i + 1] == Step(states[i], es[i])
  }

  /** A run of a newly registered service. */
  predicate IsLife(i: Instance, states: seq<Party>, es: seq<Event>) {
    IsRun(states, es) && states[0] == Fresh(i)
  }

  predicate PhaseFits(p: Party) {
    match p.phase
    case Starting => p.state == StateIdle && p.sent == 0
    case Sending(k) => (p.state == StateProbing || p.state == StateConflictLost) && p.sent == k <= PROBE_COUNT
    case Decided(seen) =>
      p.sent == PROBE_COUNT && (seen == StateProbing || seen == StateConflictLost)
      && (p.state == StateConflictLost || (p.state == StateProbing && seen == StateProbing))
    case Finished => p.state == StateAnnounced && p.sent == PROBE_COUNT
    case Stopped => p.state == StateProbing || p.state == StateConflictLost
  }

  /** The channel is closed once exactly in the two states that end a round; a service has lost
      exactly if one of the records it judged in this round beat it. */
  ghost predicate Inv(p: Party) {
    && PhaseFits(p)
    && p.closes == (if p.state == StateAnnounced || p.state == StateConflictLost then 1 else 0)
    && p.records == ServiceRecords(p.instance)
    && (p.state == StateIdle ==> p.judged == {})
    && (p.state == StateConflictLost <==> exists ns :: ns in p.judged && Loses(p.records, ns))
  }

  /** The step of the race: a lost tiebreak between the read of the state and the announcement. */
  predicate LosesInGap(p: Party, e: Event) {
    p.phase == Decided(StateProbing) && p.state == StateProbing && e.Hear? && Loses(p.records, e.ns)
  }

  predicate LostInGap(p: Party) {
    p.phase == Decided(StateProbing) && p.state == StateConflictLost
  }

  /** Every step keeps the invariant, but for the announcement of a service that lost in the gap:
      that one closes the channel a second time. */
  lemma StepKeepsInv(p: Party, e: Event)
    requires Inv(p) && Enabled(p, e)
    ensures !(LostInGap(p) && e == Announce) ==> Inv(Step(p, e))
    ensures LostInGap(p) && e == Announce ==> Crashed(Step(p, e))
  {
    hide Loses, ServiceRecords;
    if e.Hear? && p.state == StateProbing && !Loses(p.records, e.ns) {
      forall ns | ns in p.judged + {e.ns}
        ensures !Loses(p.records, ns)
      {
      }
    } else if e.Hear? && p.state == StateProbing {
      assert e.ns in Step(p, e).judged;
    }
  }

  lemma {:induction false} LifeKeepsInv(i: Instance, states: seq<Party>, es: seq<Event>, k: nat)
    requires IsLife(i, states, es) && k < |states|
    ensures Inv(states[k]) ||
      (k == |es| && k > 0 && es[k - 1] == Announce && Inv(states[k - 1]) && LostInGap(states[k - 1]) && Crashed(states[k]))
  {
    hide Inv, ServiceRecords;
    if k == 0 {
      FreshInv(i);
    } else {
      LifeKeepsInv(i, states, es, k - 1);
      assert Enabled(states[k - 1], es[k - 1]);
      if Inv(states[k - 1]) {
        StepKeepsInv(states[k - 1], es[k - 1]);
        if k < |es| {
          assert Enabled(states[k], es[k]);
        }
      }
    }
  }

  lemma FreshInv(i: Instance)
    ensures Inv(Fresh(i))
  {
    hide ServiceRecords, Loses;
  }

  /** Going back from a state lost in the gap, one finds the step that lost. */
  lemma {:induction false} GapLossHappened(i: Instance, states: seq<Party>, es: seq<Event>, j: nat) returns (k: nat)
    requires IsLife(i, states, es) && j < |states| && LostInGap(states[j])
    ensures k < j && LosesInGap(states[k], es[k])
  {
    hide Loses, ServiceRecords;
    if j == 0 {
      assert false;
    }
    var p, e := states[j - 1], es[j - 1];
    assert Enabled(p, e) && states[j] == Step(p, e);
    if LostInGap(p) {
      k := GapLossHappened(i, states, es, j - 1);
    } else {
      k := j - 1;
    }
  }

  /** After a loss in the gap the service stays lost there until it announces. */
  lemma {:induction false} GapLossStays(i: Instance, states: seq<Party>, es: seq<Event>, k: nat, j: nat)
    requires IsLife(i, states, es) && k < j < |es| && LosesInGap(states[k], es[k])
    ensures LostInGap(states[j])
  {
    hide Loses, ServiceRecords;
    var p, e := states[j - 1], es[j - 1];
    assert Enabled(p, e) && states[j] == Step(p, e);
    if k < j - 1 {
      GapLossStays(i, states, es, k, j - 1);
      LifeKeepsInv(i, states, es, j - 1);
      assert Enabled(states[j], es[j]);
      LifeKeepsInv(i, states, es, j);
    }
  }

  /** The channel of a round is closed twice in exactly the runs in which a tiebreak is lost between
      the read of the state and an announcement that follows it. */
  lemma DoubleCloseIff(i: Instance, states: seq<Party>, es: seq<Event>)
    requires IsLife(i, states, es)
    ensures Crashed(states[|es|]) <==>
      exists k, j :: 0 <= k < j < |es| && LosesInGap(states[k], es[k]) && es[j] == Announce
  {
    hide Loses, ServiceRecords;
    if Crashed(states[|es|]) {
      LifeKeepsInv(i, states, es, |es|);
      var k := GapLossHappened(i, states, es, |es| - 1);
      assert LosesInGap(states[k], es[k]) && es[|es| - 1] == Announce;
    }
    if k, j :| 0 <= k < j < |es| && LosesInGap(states[k], es[k]) && es[j] == Announce {
      GapLossStays(i, states, es, k, j);
      LifeKeepsInv(i, states, es, j);
      assert Enabled(states[j], es[j]);
      assert Crashed(states[j + 1]);
      if j + 1 < |es| {
        assert Enabled(states[j + 1], es[j + 1]);
      }
    }
  }

  /** Without that race, over every run: the channel is closed, once, exactly when the service is
      announced or has lost; and an announced service sent three probes in its round and lost to no
      record it judged in it. */
  lemma LifeWithoutRace(i: Instance, states: seq<Party>, es: seq<Event>, k: nat)
    requires IsLife(i, states, es) && k < |states|
    requires forall j :: 0 <= j < |es| ==> !LosesInGap(states[j], es[j])
    ensures states[k].closes == if states[k].state == StateAnnounced || states[k].state == StateConflictLost then 1 else 0
    ensures states[k].state == StateAnnounced ==>
              states[k].sent == PROBE_COUNT && forall ns :: ns in states[k].judged ==> !Loses(states[k].records, ns)
  {
    hide Loses, ServiceRecords;
    LifeKeepsInv(i, states, es, k);
    if !Inv(states[k]) {
      var g := GapLossHappened(i, states, es, k - 1);
    }
  }

  lemma AnnouncedStays(p: Party, e: Event)
    requires (Inv(p) || Crashed(p)) && Enabled(p, e) && p.state == StateAnnounced
    ensures Step(p, e).state == StateAnnounced && Step(p, e).records == p.records && Step(p, e).instance == p.instance
  {
    hide ServiceRecords, OnProbe, Loses;
  }

  /** An announced service stays announced, with the same name and records. */
  lemma {:induction false} AnnouncedForGood(i: Instance, states: seq<Party>, es: seq<Event>, k: nat, j: nat)
    requires IsLife(i, states, es) && k <= j < |states| && states[k].state == StateAnnounced
    ensures states[j].state == StateAnnounced && states[j].records == states[k].records
  {
    hide Inv, Step, Enabled, ServiceRecords, Crashed, Fresh;
    if k < j {
      AnnouncedForGood(i, states, es, k, j - 1);
      LifeKeepsInv(i, states, es, j - 1);
      assert Enabled(states[j - 1], es[j - 1]);
      AnnouncedStays(states[j - 1], es[j - 1]);
    }
  }

  /** The race can be run: any record that beats the service does it, heard between the read of the
      state and the announcement. */
  lemma DoubleClose(i: Instance, ns: ResourceRecord) returns (states: seq<Party>, es: seq<Event>)
    requires Loses(ServiceRecords(i), ns)
    ensures IsLife(i, states, es) && Crashed(states[|es|]) && Hear(ns) in es
    ensures exists k, j :: 0 <= k < j < |es| && LosesInGap(states[k], es[k]) && es[j] == Announce
  {
    hide ServiceRecords, Loses;
    es := [Begin, Send, Send, Send, Read, Hear(ns), Announce];
    assert es[5] == Hear(ns);
    var r := ServiceRecords(i);
    states := [
      Fresh(i),
      Party(i, r, StateProbing, 0, Sending(0), 0, {}),
      Party(i, r, StateProbing, 0, Sending(1), 1, {}),
      Party(i, r, StateProbing, 0, Sending(2), 2, {}),
      Party(i, r, StateProbing, 0, Sending(3), 3, {}),
      Party(i, r, StateProbing, 0, Decided(StateProbing), 3, {}),
      Party(i, r, StateConflictLost, 1, Decided(StateProbing), 3, {} + {ns}),
      Party(i, r, StateAnnounced, 2, Finished, 3, {} + {ns})
    ];
    assert LosesInGap(states[5], es[5]) && es[6] == Announce;
  }
}
