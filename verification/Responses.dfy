/** What sendResponseWithAdditional of server.go sends: which records of what it was asked for, in
    which message, and what its receivers read. */
module Responses {
  import opened Octets
  import opened Names
  import opened Records
  import opened Messages
  import opened Tiebreak
  import opened RateLimiter

  // ----- the records that are left -----

  /** The i-th record of list is the first of those equal to it, and equals none of base. */
  predicate FirstAt(base: seq<ResourceRecord>, list: seq<ResourceRecord>, i: nat)
    requires i < |list|
  {
    !Contains(base, list[i]) && forall j :: 0 <= j < i ==> !RecordsEqual(list[j], list[i])
  }

  predicate FirstIn(base: seq<ResourceRecord>, list: seq<ResourceRecord>, rr: ResourceRecord) {
    exists i :: 0 <= i < |list| && list[i] == rr && FirstAt(base, list, i)
  }

  lemma FirstInStep(base: seq<ResourceRecord>, list: seq<ResourceRecord>, rr: ResourceRecord)
    requires list != []
    ensures var front, n := list[..|list| - 1], |list| - 1;
            FirstIn(base, list, rr) <==> FirstIn(base, front, rr) || (list[n] == rr && FirstAt(base, list, n))
  {
    hide RecordsEqual, Contains;
    var front, n := list[..|list| - 1], |list| - 1;
    forall i | 0 <= i < n
      ensures front[i] == list[i] && (FirstAt(base, front, i) <==> FirstAt(base, list, i))
    {
      assert forall j :: 0 <= j < i ==> front[j] == list[j];
    }
    if FirstIn(base, front, rr) {
      var i :| 0 <= i < n && front[i] == rr && FirstAt(base, front, i);
      assert list[i] == rr && FirstAt(base, list, i);
    }
    if FirstIn(base, list, rr) {
      var i :| 0 <= i <= n && list[i] == rr && FirstAt(base, list, i);
      assert i < n ==> front[i] == rr && FirstAt(base, front, i);
    }
  }

  /** Of equal records the first is kept, where base has none of them, and nothing else. */
  lemma {:induction false} DistinctMeans(base: seq<ResourceRecord>, list: seq<ResourceRecord>, rr: ResourceRecord)
    ensures rr in Distinct(base, list) <==> FirstIn(base, list, rr)
  {
    hide RecordsEqual, Contains, FirstIn, FirstAt;
    if list == [] {
      NothingFirst(base, rr);
    } else {
      var front, n := list[..|list| - 1], |list| - 1;
      DistinctMeans(base, front, rr);
      FirstInStep(base, list, rr);
      KeptIsFirst(base, list);
    }
  }

  lemma NothingFirst(base: seq<ResourceRecord>, rr: ResourceRecord)
    ensures !FirstIn(base, [], rr)
  {
  }

  lemma KeptIsFirst(base: seq<ResourceRecord>, list: seq<ResourceRecord>)
    requires list != []
    ensures var front, n := list[..|list| - 1], |list| - 1;
            FirstAt(base, list, n) <==> !Contains(base, list[n]) && !Contains(Distinct(base, front), list[n])
  {
    hide RecordsEqual, Distinct, Contains;
    var front, n := list[..|list| - 1], |list| - 1;
    var kept := Distinct(base, front);
    DistinctApart(base, front);
    if !Contains(base, list[n]) && Contains(kept, list[n]) {
      ContainsSubset(kept, front, list[n]);
      ContainedAt(front, list[n]);
    }
    forall j | 0 <= j < n && RecordsEqual(list[j], list[n])
      ensures Contains(base, list[n]) || Contains(kept, list[n])
    {
      DistinctCovers(base, front, j);
      EqualContained(base, list[j], list[n]);
      EqualContained(kept, list[j], list[n]);
    }
  }

  lemma ContainedAt(list: seq<ResourceRecord>, rr: ResourceRecord)
    requires Contains(list, rr)
    ensures exists j :: 0 <= j < |list| && RecordsEqual(list[j], rr)
  {
  }

  lemma EqualContained(list: seq<ResourceRecord>, a: ResourceRecord, b: ResourceRecord)
    requires RecordsEqual(a, b)
    ensures Contains(list, a) ==> Contains(list, b)
  {
    hide RecordsEqual, EssenceOf;
    if Contains(list, a) {
      var k :| 0 <= k < |list| && RecordsEqual(list[k], a);
      EqualIffSameEssence(list[k], a);
      EqualIffSameEssence(a, b);
      EqualIffSameEssence(list[k], b);
    }
  }

  /** some is what is left of all when some of its members are left out. */
  predicate Subsequence(some: seq<ResourceRecord>, all: seq<ResourceRecord>) {
    if all == [] then some == []
    else
      var front, last := all[..|all| - 1], all[|all| - 1];
      Subsequence(some, front) || (some != [] && some[|some| - 1] == last && Subsequence(some[..|some| - 1], front))
  }

  lemma {:induction false} DistinctInOrder(base: seq<ResourceRecord>, list: seq<ResourceRecord>)
    ensures Subsequence(Distinct(base, list), list)
  {
    hide RecordsEqual, Contains;
    if list != [] {
      DistinctInOrder(base, list[..|list| - 1]);
    }
  }

  lemma {:induction false} SiftInOrder(t: Tracker, list: seq<ResourceRecord>, clock: seq<Reading>)
    requires |list| <= |clock|
    ensures Subsequence(Sift(t, Asks(list, clock)), list)
  {
    hide Granted, RunFrom;
    if list != [] {
      var front := list[..|list| - 1];
      assert Asks(list, clock)[..|list| - 1] == Asks(front, clock);
      SiftInOrder(t, front, clock);
    }
  }

  // ----- unicast and multicast -----

  predicate AllContained(list: seq<ResourceRecord>, rrs: seq<ResourceRecord>) {
    forall i :: 0 <= i < |rrs| ==> Contains(list, rrs[i])
  }

  /** A unicast response is always sent, whatever the limiter has granted. Its answers are the first
      of each kind of what was asked for, in that order; so each answer asked for has an equal. */
  lemma UnicastSent(t: Tracker, answers: seq<ResourceRecord>, additionals: seq<ResourceRecord>, clock: seq<Reading>)
    requires |answers| <= |clock|
    ensures var sent := Select(t, answers, additionals, false, clock);
            && sent.Send? && AllContained(sent.answers, answers) && Subsequence(sent.answers, answers)
            && (forall rr :: rr in sent.answers <==> FirstIn([], answers, rr))
            && NoTwins(sent) && Faithful(answers, additionals, sent)
  {
    hide RecordsEqual, Distinct, Contains, FirstIn, Subsequence, NoTwins, Faithful;
    var once := Distinct([], answers);
    SelectedNoTwins(t, answers, additionals, false, clock);
    SelectedFaithful(t, answers, additionals, false, clock);
    DistinctInOrder([], answers);
    forall i | 0 <= i < |answers|
      ensures Contains(once, answers[i])
    {
      DistinctCovers([], answers, i);
      NothingContained(answers[i]);
    }
    forall rr
      ensures rr in once <==> FirstIn([], answers, rr)
    {
      DistinctMeans([], answers, rr);
    }
  }

  lemma NothingContained(rr: ResourceRecord)
    ensures !Contains([], rr)
  {
  }

  predicate SomeGranted(h: seq<Event>, asks: seq<Event>) {
    exists i :: 0 <= i < |asks| && asks[i].Ask? && GrantedAt(h + asks, |h| + i)
  }

  /** Nothing is sent exactly for a multicast with answers none of which is granted. */
  lemma NothingIff(h: seq<Event>, answers: seq<ResourceRecord>, additionals: seq<ResourceRecord>,
                   multicast: bool, clock: seq<Reading>)
    requires |answers| <= |clock|
    ensures Select(RunFrom(map[], h), answers, additionals, multicast, clock) == Nothing <==>
              multicast && answers != [] && !SomeGranted(h, Asks(Distinct([], answers), clock))
  {
    hide RecordsEqual, Distinct, Sift, RunFrom, SomeGranted, Contains;
    var once := Distinct([], answers);
    var asks := Asks(once, clock);
    if answers != [] {
      DistinctCovers([], answers, 0);
      NothingContained(answers[0]);
    }
    SomeSifted(h, asks);
  }

  lemma SomeSifted(h: seq<Event>, asks: seq<Event>)
    requires AllAsks(asks)
    ensures Sift(RunFrom(map[], h), asks) != [] <==> SomeGranted(h, asks)
  {
    hide Sift, RunFrom, GrantedAt;
    var sifted := Sift(RunFrom(map[], h), asks);
    if sifted != [] {
      SiftedIsGranted(h, asks, sifted[0]);
      assert sifted[0] in sifted;
    }
    if SomeGranted(h, asks) {
      var i :| 0 <= i < |asks| && asks[i].Ask? && GrantedAt(h + asks, |h| + i);
      SiftedIsGranted(h, asks, asks[i].rr);
      assert asks[i].rr in sifted;
    }
  }

  // ----- the message -----

  /** flagResponse | flagAuthoritative */
  const RESPONSE: U16 := 0x8400

  function Reply(answers: seq<ResourceRecord>, additionals: seq<ResourceRecord>): Message {
    Message(0, RESPONSE, 0, (|answers| % 0x1_0000) as U16, 0, (|additionals| % 0x1_0000) as U16,
            [], answers, [], additionals)
  }

  /** A response whose names are proper and short is read by its receivers as those records, and as
      an authoritative response that is not truncated. */
  lemma ReplyRead(answers: seq<ResourceRecord>, additionals: seq<ResourceRecord>)
    requires ProperSection(answers) && ProperSection(additionals) && ShortSection(answers) && ShortSection(additionals)
    requires Pack(Reply(answers, additionals)).Ok?
    ensures var read := Unpack(Pack(Reply(answers, additionals)).value);
            && read.Ok? && read.value.answers == NormalRecords(answers)
            && read.value.additionals == NormalRecords(additionals)
            && read.value.questions == [] && read.value.authorities == []
            && read.value.flags as int / 0x400 == 0x21
  {
    hide Pack, Unpack, ProperRecord, ShortRecord, NormalRecord;
    MessageRoundTrip(Reply(answers, additionals));
  }
}
