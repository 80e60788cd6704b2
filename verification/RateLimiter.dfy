/** Multicast rate limiting (section 6 of RFC 6762) and the choice of a response's records:
    canSendMulticast, rdataKey, cleanupRateTracker and sendResponseWithAdditional of server.go. */
module RateLimiter {
  import opened Octets
  import opened Names
  import opened Records
  import opened Messages
  import opened Tiebreak
  import opened Renaming
  import opened Services

  const COLON: Byte := 58
  const COMMA: Byte := 44

  // ----- keys -----

  function HexDigit(d: Byte): Byte
    requires d < 16
  {
    if d < 10 then ZERO + d else 97 + (d - 10)
  }

  /** fmt.Sprintf("%x", bs) */
  function Hex(bs: Bytes): Bytes {
    if bs == [] then [] else [HexDigit(bs[0] / 16), HexDigit(bs[0] % 16)] + Hex(bs[1..])
  }

  /** Stands for the text of an address. As in the source, an IPv4 address and its mapped form have
      one text, and none has a dot before a colon. */
  function IpText(ip: Bytes): Bytes {
    [COLON] + Hex(Mapped(ip))
  }

  /** strings.Join(text, ",") */
  function JoinText(text: seq<Bytes>): Bytes {
    if text == [] then []
    else if |text| == 1 then text[0]
    else text[0] + [COMMA] + JoinText(text[1..])
  }

  predicate Addressing(rr: ResourceRecord) {
    KindOf(rr.rtype) == Address4 || KindOf(rr.rtype) == Address6
  }

  function RdataKey(rr: ResourceRecord): Bytes {
    if Addressing(rr) && rr.ip != [] then IpText(rr.ip)
    else match KindOf(rr.rtype)
      case Pointer => CanonicalName(rr.target)
      case Service => CanonicalName(rr.target) + [COLON] + Itoa(rr.port as int)
      case Text => JoinText(rr.text)
      case _ => Hex(rr.rawData)
  }

  function RateKey(rr: ResourceRecord): Bytes {
    CanonicalName(rr.name) + [COLON] + Itoa(rr.rtype as int) + [COLON] + RdataKey(rr)
  }

  /** What of the RDATA the limiter tells apart. */
  predicate SameRdataKey(a: ResourceRecord, b: ResourceRecord) {
    match KindOf(a.rtype)
    case Pointer => CanonicalName(a.target) == CanonicalName(b.target)
    case Service => CanonicalName(a.target) == CanonicalName(b.target) && a.port == b.port
    case Text => JoinText(a.text) == JoinText(b.text)
    case _ =>
      if Addressing(a) && (a.ip != [] || b.ip != []) then a.ip != [] && b.ip != [] && IpEqual(a.ip, b.ip)
      else a.rawData == b.rawData
  }

  lemma {:induction false} HexInjective(a: Bytes, b: Bytes)
    ensures Hex(a) == Hex(b) <==> a == b
    ensures COLON !in Hex(a)
  {
    if a != [] {
      assert Hex(a)[2..] == Hex(a[1..]);
      if b != [] {
        assert Hex(b)[2..] == Hex(b[1..]);
        HexInjective(a[1..], b[1..]);
        assert a == [a[0]] + a[1..] && b == [b[0]] + b[1..];
        if Hex(a) == Hex(b) {
          assert HexDigit(a[0] / 16) == Hex(a)[0] == Hex(b)[0] == HexDigit(b[0] / 16);
          assert HexDigit(a[0] % 16) == Hex(a)[1] == Hex(b)[1] == HexDigit(b[0] % 16);
        }
      } else {
        HexInjective(a[1..], a[1..]);
      }
    }
  }

  lemma LastColon(x: Bytes, d: Bytes, y: Bytes, e: Bytes)
    requires COLON !in d && COLON !in e
    ensures x + [COLON] + d == y + [COLON] + e <==> x == y && d == e
  {
    var l, r := x + [COLON] + d, y + [COLON] + e;
    if l == r {
      assert l[|x|] == COLON && r[|y|] == COLON;
      assert l[..|x|] == x && r[..|y|] == y && l[|x| + 1..] == d && r[|y| + 1..] == e;
    }
  }

  lemma PortText(port: U16)
    ensures Atoi(Itoa(port as int)) == Some(port as int) && COLON !in Itoa(port as int)
  {
    hide Itoa, Atoi;
    ItoaReads(port as int);
  }

  lemma SameRdataKeyMeans(a: ResourceRecord, b: ResourceRecord)
    requires a.rtype == b.rtype
    ensures RdataKey(a) == RdataKey(b) <==> SameRdataKey(a, b)
  {
    hide CanonicalName, Itoa, Atoi, JoinText, Hex, IpEqual, Mapped;
    HexInjective(a.rawData, b.rawData);
    HexInjective(b.rawData, a.rawData);
    IpEqualIsMapped(a.ip, b.ip);
    HexInjective(Mapped(a.ip), Mapped(b.ip));
    PrefixCancels([COLON], Hex(Mapped(a.ip)), Hex(Mapped(b.ip)));
    assert IpText(a.ip)[0] == COLON && IpText(b.ip)[0] == COLON;
    PortText(a.port);
    PortText(b.port);
    LastColon(CanonicalName(a.target), Itoa(a.port as int), CanonicalName(b.target), Itoa(b.port as int));
  }

  /** The part of a key before the RDATA. */
  function KeyPrefix(rr: ResourceRecord): Bytes {
    CanonicalName(rr.name) + [COLON] + Itoa(rr.rtype as int) + [COLON]
  }

  /** The name of b goes on where name and type of a end, and the RDATA of a spells out the rest. */
  predicate Nested(a: ResourceRecord, b: ResourceRecord) {
    var p := KeyPrefix(a);
    p <= CanonicalName(b.name)
    && RdataKey(a) == CanonicalName(b.name)[|p|..] + [COLON] + Itoa(b.rtype as int) + [COLON] + RdataKey(b)
  }

  predicate SameOwner(a: ResourceRecord, b: ResourceRecord) {
    CanonicalName(a.name) == CanonicalName(b.name) && a.rtype == b.rtype
  }

  lemma CanonicalEndsWithDot(name: Bytes)
    ensures EndsWithDot(CanonicalName(name))
  {
    hide NormalizeName;
  }

  lemma TypeText(t: U16)
    ensures COLON !in Itoa(t as int) && DOT !in Itoa(t as int)
  {
    hide Itoa, Atoi;
    ItoaReads(t as int);
  }

  lemma TypeTextInjective(a: U16, b: U16)
    ensures Itoa(a as int) == Itoa(b as int) <==> a == b
  {
    hide Itoa, Atoi;
    PortText(a);
    PortText(b);
  }

  lemma FirstColon(d: Bytes, x: Bytes, e: Bytes, y: Bytes)
    requires COLON !in d && COLON !in e
    ensures d + [COLON] + x == e + [COLON] + y <==> d == e && x == y
  {
    var l, r := d + [COLON] + x, e + [COLON] + y;
    if l == r {
      assert l[|d|] == COLON && r[|e|] == COLON;
      assert l[..|d|] == d && r[..|e|] == e && l[|d| + 1..] == x && r[|e| + 1..] == y;
    }
  }

  /** Of two equal keys with names of different lengths, the shorter name, its type and the colons
      around it lie within the longer name. */
  lemma LongerName(n: Bytes, t: Bytes, r: Bytes, n': Bytes, t': Bytes, r': Bytes)
    requires EndsWithDot(n) && EndsWithDot(n') && DOT !in t && |n| < |n'|
    requires n + [COLON] + t + [COLON] + r == n' + [COLON] + t' + [COLON] + r'
    ensures var p := n + [COLON] + t + [COLON];
            p <= n' && r == n'[|p|..] + [COLON] + t' + [COLON] + r'
  {
    var p := n + [COLON] + t + [COLON];
    var tail := [COLON] + t' + [COLON] + r';
    var key := p + r;
    assert key == n' + tail;
    assert key[|n'| - 1] == n'[|n'| - 1] == DOT;
    assert forall k :: |n| <= k < |p| ==> key[k] == p[k] && p[k] in [COLON] + t;
    assert |p| < |n'|;
    assert key[..|p|] == p && key[..|p|] == n'[..|p|];
    assert key[|p|..] == r && key[|p|..] == n'[|p|..] + tail;
    assert n'[|p|..] + tail == n'[|p|..] + [COLON] + t' + [COLON] + r';
  }

  lemma KeyOfNested(a: ResourceRecord, b: ResourceRecord)
    requires Nested(a, b)
    ensures RateKey(a) == RateKey(b)
  {
    hide CanonicalName, Itoa, RdataKey;
    var p, n := KeyPrefix(a), CanonicalName(b.name);
    var tail := [COLON] + Itoa(b.rtype as int) + [COLON] + RdataKey(b);
    assert RdataKey(a) == n[|p|..] + tail;
    assert n == p + n[|p|..];
    assert p + (n[|p|..] + tail) == (p + n[|p|..]) + tail;
    assert RateKey(b) == n + tail;
  }

  lemma SameLengthKeys(a: ResourceRecord, b: ResourceRecord)
    requires RateKey(a) == RateKey(b) && |CanonicalName(a.name)| == |CanonicalName(b.name)|
    ensures SameOwner(a, b) && RdataKey(a) == RdataKey(b)
  {
    hide CanonicalName, Itoa, RdataKey;
    var n, n' := CanonicalName(a.name), CanonicalName(b.name);
    var x, y := Itoa(a.rtype as int) + [COLON] + RdataKey(a), Itoa(b.rtype as int) + [COLON] + RdataKey(b);
    assert RateKey(a) == n + ([COLON] + x) && RateKey(b) == n' + ([COLON] + y);
    assert RateKey(a)[..|n|] == n && RateKey(b)[..|n'|] == n';
    PrefixCancels(n, [COLON] + x, [COLON] + y);
    PrefixCancels([COLON], x, y);
    TypeText(a.rtype);
    TypeText(b.rtype);
    FirstColon(Itoa(a.rtype as int), RdataKey(a), Itoa(b.rtype as int), RdataKey(b));
    TypeTextInjective(a.rtype, b.rtype);
  }

  lemma NestedWhenLonger(a: ResourceRecord, b: ResourceRecord)
    requires RateKey(a) == RateKey(b) && |CanonicalName(a.name)| < |CanonicalName(b.name)|
    ensures Nested(a, b)
  {
    hide CanonicalName, Itoa, RdataKey;
    CanonicalEndsWithDot(a.name);
    CanonicalEndsWithDot(b.name);
    TypeText(a.rtype);
    LongerName(CanonicalName(a.name), Itoa(a.rtype as int), RdataKey(a),
               CanonicalName(b.name), Itoa(b.rtype as int), RdataKey(b));
  }

  /** What the limiter takes for the same record, of any two records: those of one name and type that
      agree in what it looks at, the address, the folded target, the port, the strings joined by
      commas, or the raw data, and neither the priority and weight of an SRV record nor the
      boundaries of TXT strings; and those of which one's RDATA spells out the rest of the other's
      longer name. */
  lemma SameKeyIff(a: ResourceRecord, b: ResourceRecord)
    ensures RateKey(a) == RateKey(b) <==>
              (SameOwner(a, b) && SameRdataKey(a, b)) || Nested(a, b) || Nested(b, a)
  {
    hide CanonicalName, Itoa, RdataKey, SameRdataKey, Nested, RateKey;
    if a.rtype == b.rtype {
      SameRdataKeyMeans(a, b);
    }
    if RateKey(a) == RateKey(b) {
      if |CanonicalName(a.name)| < |CanonicalName(b.name)| {
        NestedWhenLonger(a, b);
      } else if |CanonicalName(b.name)| < |CanonicalName(a.name)| {
        NestedWhenLonger(b, a);
      } else {
        SameLengthKeys(a, b);
      }
    }
    if SameOwner(a, b) && SameRdataKey(a, b) {
      SameOwnerKeys(a, b);
    }
    if Nested(a, b) {
      KeyOfNested(a, b);
    }
    if Nested(b, a) {
      KeyOfNested(b, a);
    }
  }

  lemma SameOwnerKeys(a: ResourceRecord, b: ResourceRecord)
    requires SameOwner(a, b)
    ensures RateKey(a) == RateKey(b) <==> RdataKey(a) == RdataKey(b)
  {
    hide CanonicalName, Itoa, RdataKey;
    PrefixCancels(KeyPrefix(a), RdataKey(a), RdataKey(b));
  }

  lemma NestedHasColon(a: ResourceRecord, b: ResourceRecord)
    requires Nested(a, b)
    ensures COLON in CanonicalName(b.name) && |CanonicalName(b.name)| > |CanonicalName(a.name)|
  {
    hide CanonicalName, Itoa, RdataKey;
    assert KeyPrefix(a)[|CanonicalName(a.name)|] == COLON;
  }

  /** In particular, among names without a colon a shared key means one name and one type. */
  lemma PlainNamesKey(a: ResourceRecord, b: ResourceRecord)
    requires COLON !in CanonicalName(a.name) && COLON !in CanonicalName(b.name)
    ensures RateKey(a) == RateKey(b) <==> SameOwner(a, b) && SameRdataKey(a, b)
  {
    hide CanonicalName, Nested, RateKey, SameRdataKey;
    SameKeyIff(a, b);
    if Nested(a, b) {
      NestedHasColon(a, b);
    }
    if Nested(b, a) {
      NestedHasColon(b, a);
    }
  }

  /** And so it does among records of one name and type, whatever the name. */
  lemma OneNameKey(a: ResourceRecord, b: ResourceRecord)
    requires a.rtype == b.rtype && LowerName(a.name) == LowerName(b.name)
    ensures RateKey(a) == RateKey(b) <==> SameRdataKey(a, b)
  {
    hide CanonicalName, RateKey, SameRdataKey, RdataKey;
    LowerCanonical(a.name, b.name);
    SameRdataKeyMeans(a, b);
    SameOwnerKeys(a, b);
  }

  lemma LowerCanonical(a: Bytes, b: Bytes)
    requires LowerName(a) == LowerName(b)
    ensures CanonicalName(a) == CanonicalName(b)
  {
    hide LowerName, NormalizeName;
    LowerNormal(a, b);
  }

  /** Two address records that recordsEqual takes for the same because neither has an address, and
      that the limiter tells apart by their raw data. */
  predicate AddresslessApart(a: ResourceRecord, b: ResourceRecord) {
    Addressing(a) && a.ip == [] && a.rawData != b.rawData
  }

  /** Equal records share a key, with one exception: address records without an address. */
  lemma EqualKeysIff(a: ResourceRecord, b: ResourceRecord)
    requires RecordsEqual(a, b)
    ensures RateKey(a) == RateKey(b) <==> !AddresslessApart(a, b)
  {
    hide RateKey, JoinText, LowerName, NormalizeName;
    OneNameKey(a, b);
    if KindOf(a.rtype) == Pointer || KindOf(a.rtype) == Service {
      LowerNormal(a.target, b.target);
    }
  }

  /** No address record has raw data in place of an address. */
  predicate Sourced(rr: ResourceRecord) {
    Addressing(rr) && rr.ip == [] ==> rr.rawData == []
  }

  predicate AllSourced(rrs: seq<ResourceRecord>) {
    forall i :: 0 <= i < |rrs| ==> Sourced(rrs[i])
  }

  lemma ReadIsSourced(msg: Bytes, offset: nat)
    ensures ReadRecord(msg, offset).Ok? ==> Sourced(ReadRecord(msg, offset).value.value)
  {
    hide ReadNameSpec, ReadStrings, Get16, Get32;
  }

  lemma {:induction false} ReadAllSourced(msg: Bytes, offset: nat, count: nat)
    ensures ReadRecords(msg, offset, count).Ok? ==> AllSourced(ReadRecords(msg, offset, count).value.value)
  {
    hide ReadRecord, Sourced;
    if count > 0 && ReadRecords(msg, offset, count).Ok? {
      ReadAllSourced(msg, offset, count - 1);
      ReadIsSourced(msg, ReadRecords(msg, offset, count - 1).value.next);
    }
  }

  /** Every record that the reader or a service makes is sourced. */
  lemma ReceivedSourced(data: Bytes)
    requires Unpack(data).Ok?
    ensures var m := Unpack(data).value; AllSourced(m.answers) && AllSourced(m.authorities) && AllSourced(m.additionals)
  {
    hide ReadQuestions, ReadRecords, Get16, AllSourced;
    var q := ReadQuestions(data, HEADER_SIZE, Get16(data, 4) as int).value;
    var a := ReadRecords(data, q.next, Get16(data, 6) as int).value;
    var n := ReadRecords(data, a.next, Get16(data, 8) as int).value;
    ReadAllSourced(data, q.next, Get16(data, 6) as int);
    ReadAllSourced(data, a.next, Get16(data, 8) as int);
    ReadAllSourced(data, n.next, Get16(data, 10) as int);
  }

  lemma GeneratedSourced(i: Instance)
    ensures AllSourced(ServiceRecords(i))
  {
    hide InstanceName, ServiceType, NormalizeName, To4, ServiceRecords;
    forall k | 0 <= k < |ServiceRecords(i)|
      ensures Sourced(ServiceRecords(i)[k])
    {
      ServiceRecordAt(i, k);
    }
  }

  /** So of these, equal records always share a key: the exception is of records made by hand. */
  lemma SourcedKeys(a: ResourceRecord, b: ResourceRecord)
    requires RecordsEqual(a, b) && Sourced(a) && Sourced(b)
    ensures RateKey(a) == RateKey(b) && !AddresslessApart(a, b)
  {
    hide RateKey, LowerName;
    EqualKeysIff(a, b);
  }

  /** The limiter can hold back a record for the sake of one that is not equal to it. */
  lemma TextsConflated(name: Bytes)
    ensures var a := Blank(name, TYPE_TXT, CLASS_IN, 0, false);
            var both, one := a.(text := [[97], [98]]), a.(text := [[97, COMMA, 98]]);
            !RecordsEqual(both, one) && RateKey(both) == RateKey(one)
  {
    hide RateKey, LowerName;
    var a := Blank(name, TYPE_TXT, CLASS_IN, 0, false);
    OneNameKey(a.(text := [[97], [98]]), a.(text := [[97, COMMA, 98]]));
    assert JoinText([[98]]) == [98];
  }

  lemma LowerPlain(name: Bytes)
    requires EndsWithDot(name) && |name| > 1 && forall k :: 0 <= k < |name| ==> !(65 <= name[k] <= 90)
    ensures CanonicalName(name) == name
  {
  }

  lemma OneText(rr: ResourceRecord, s: Bytes)
    requires rr.rtype == TYPE_TXT && rr.text == [s]
    ensures RdataKey(rr) == s
  {
  }

  lemma Sixteen()
    ensures Itoa(TYPE_TXT as int) == [49, 54]
  {
    assert Digits(1) == [49] && Digits(16) == Digits(1) + [54];
  }

  /** Even for the sake of one of another name: a. with the text b.:16:c and a.:16:b. with the text c. */
  lemma NamesConflated()
    ensures var a := Blank([97, DOT], TYPE_TXT, CLASS_IN, 0, false).(text := [[98, DOT, COLON, 49, 54, COLON, 99]]);
            var b := Blank([97, DOT, COLON, 49, 54, COLON, 98, DOT], TYPE_TXT, CLASS_IN, 0, false).(text := [[99]]);
            LowerName(a.name) != LowerName(b.name) && RateKey(a) == RateKey(b)
  {
    hide RateKey, CanonicalName, RdataKey, Itoa;
    var a := Blank([97, DOT], TYPE_TXT, CLASS_IN, 0, false).(text := [[98, DOT, COLON, 49, 54, COLON, 99]]);
    var b := Blank([97, DOT, COLON, 49, 54, COLON, 98, DOT], TYPE_TXT, CLASS_IN, 0, false).(text := [[99]]);
    Sixteen();
    LowerPlain(a.name);
    LowerPlain(b.name);
    OneText(a, a.text[0]);
    OneText(b, b.text[0]);
    assert KeyPrefix(a) == [97, DOT, COLON, 49, 54, COLON] == b.name[..6];
    assert b.name[6..] == [98, DOT];
    SameKeyIff(a, b);
  }

  // ----- the tracker -----

  type Tracker = map<Bytes, int>

  /** An Ask reads the clock twice: now to decide, stamp to note a grant. */
  datatype Event = Ask(rr: ResourceRecord, now: int, stamp: int) | CleanUp(at: int)

  predicate Granted(t: Tracker, e: Event)
    requires e.Ask?
  {
    RateKey(e.rr) !in t || e.now - t[RateKey(e.rr)] >= SECOND
  }

  function After(t: Tracker, e: Event): Tracker {
    match e
    case Ask(rr, _, stamp) => if Granted(t, e) then t[RateKey(rr) := stamp] else t
    case CleanUp(at) => map k | k in t && at - t[k] <= 5 * SECOND :: t[k]
  }

  function RunFrom(t: Tracker, h: seq<Event>): Tracker {
    if h == [] then t else After(RunFrom(t, h[..|h| - 1]), h[|h| - 1])
  }

  function Starts(e: Event): int {
    if e.Ask? then e.now else e.at
  }

  function Ends(e: Event): int {
    if e.Ask? then e.stamp else e.at
  }

  /** The clock never goes back. */
  predicate Ordered(h: seq<Event>) {
    && (forall i :: 0 <= i < |h| ==> Starts(h[i]) <= Ends(h[i]))
    && (forall i, j :: 0 <= i < j < |h| ==> Ends(h[i]) <= Starts(h[j]))
  }

  predicate GrantedAt(h: seq<Event>, i: nat)
    requires i < |h|
  {
    h[i].Ask? && Granted(RunFrom(map[], h[..i]), h[i])
  }

  /** The last grant for key in a history, whatever has been cleaned up since. */
  function LastGrant(h: seq<Event>, key: Bytes): Option<int> {
    if h == [] then None
    else
      var before, last := h[..|h| - 1], h[|h| - 1];
      var earlier := LastGrant(before, key);
      if last.Ask? && RateKey(last.rr) == key && Spaced(earlier, last.now) then Some(last.stamp) else earlier
  }

  predicate Spaced(last: Option<int>, now: int) {
    last.None? || now - last.value >= SECOND
  }

  function Noted(t: Tracker, key: Bytes): Option<int> {
    if key in t then Some(t[key]) else None
  }

  lemma {:induction false} LastGrantWithin(h: seq<Event>, key: Bytes, now: int)
    requires Ordered(h) && (h != [] ==> Ends(h[|h| - 1]) <= now)
    ensures LastGrant(h, key).Some? ==> LastGrant(h, key).value <= now
  {
    hide RateKey;
    if h != [] {
      LastGrantWithin(h[..|h| - 1], key, Starts(h[|h| - 1]));
    }
  }

  /** The tracker is its history, except for grants that no longer matter. */
  lemma {:induction false} TrackerIsHistory(h: seq<Event>, key: Bytes, now: int)
    requires Ordered(h) && (h != [] ==> Ends(h[|h| - 1]) <= now)
    ensures var kept := Noted(RunFrom(map[], h), key);
            kept == LastGrant(h, key) || (kept.None? && LastGrant(h, key).value + 5 * SECOND < now)
  {
    hide RateKey;
    if h != [] {
      var before, last := h[..|h| - 1], h[|h| - 1];
      TrackerIsHistory(before, key, Starts(last));
    }
  }

  lemma GrantedMeans(h: seq<Event>, i: nat)
    requires Ordered(h) && i < |h| && h[i].Ask?
    ensures GrantedAt(h, i) <==> Spaced(LastGrant(h[..i], RateKey(h[i].rr)), h[i].now)
  {
    hide RateKey, LastGrant, RunFrom;
    TrackerIsHistory(h[..i], RateKey(h[i].rr), h[i].now);
  }

  predicate GrantFor(h: seq<Event>, i: nat, key: Bytes)
    requires i < |h|
  {
    h[i].Ask? && RateKey(h[i].rr) == key && GrantedAt(h, i)
  }

  /** Every grant for a key is at or before the last one, which is one of them. */
  lemma {:induction false} LastGrantIsLast(h: seq<Event>, n: nat, key: Bytes)
    requires Ordered(h) && n <= |h|
    ensures forall i :: 0 <= i < n && GrantFor(h, i, key) ==>
              LastGrant(h[..n], key).Some? && h[i].stamp <= LastGrant(h[..n], key).value
    ensures LastGrant(h[..n], key).Some? ==>
              exists i :: 0 <= i < n && GrantFor(h, i, key) && h[i].stamp == LastGrant(h[..n], key).value
    decreases n
  {
    hide RateKey, RunFrom, GrantedAt;
    if n > 0 {
      LastGrantIsLast(h, n - 1, key);
      LastGrantStep(h, n, key);
      LastGrantWithin(h[..n - 1], key, Starts(h[n - 1]));
    }
  }

  lemma LastGrantStep(h: seq<Event>, n: nat, key: Bytes)
    requires Ordered(h) && 0 < n <= |h|
    ensures LastGrant(h[..n], key) ==
            if GrantFor(h, n - 1, key) then Some(h[n - 1].stamp) else LastGrant(h[..n - 1], key)
  {
    hide RateKey, RunFrom, GrantedAt;
    assert h[..n][..n - 1] == h[..n - 1];
    if h[n - 1].Ask? {
      GrantedMeans(h, n - 1);
    }
  }

  /** Over every run, with clean-ups anywhere in it: a record is granted exactly when no grant of
      its key lies less than a second back. */
  lemma GrantedIff(h: seq<Event>, j: nat)
    requires Ordered(h) && j < |h| && h[j].Ask?
    ensures GrantedAt(h, j) <==>
            forall i :: 0 <= i < j && GrantFor(h, i, RateKey(h[j].rr)) ==> h[j].now - h[i].stamp >= SECOND
  {
    hide RateKey, RunFrom, GrantedAt, LastGrant;
    GrantedMeans(h, j);
    LastGrantIsLast(h, j, RateKey(h[j].rr));
  }

  /** No record is multicast twice within a second, up to recordsEqual. */
  lemma EqualGrantsSpaced(h: seq<Event>, i: nat, j: nat)
    requires Ordered(h) && i < j < |h| && h[i].Ask? && h[j].Ask?
    requires GrantedAt(h, i) && GrantedAt(h, j)
    requires RecordsEqual(h[i].rr, h[j].rr) && !AddresslessApart(h[i].rr, h[j].rr)
    ensures h[j].now - h[i].stamp >= SECOND
  {
    hide RateKey, RecordsEqual, AddresslessApart, GrantedAt;
    EqualKeysIff(h[i].rr, h[j].rr);
    GrantedIff(h, j);
    assert GrantFor(h, i, RateKey(h[j].rr));
  }

  /** With no exception for records that were received or generated. */
  lemma SourcedGrantsSpaced(h: seq<Event>, i: nat, j: nat)
    requires Ordered(h) && i < j < |h| && h[i].Ask? && h[j].Ask?
    requires GrantedAt(h, i) && GrantedAt(h, j)
    requires RecordsEqual(h[i].rr, h[j].rr) && Sourced(h[i].rr) && Sourced(h[j].rr)
    ensures h[j].now - h[i].stamp >= SECOND
  {
    hide RateKey, RecordsEqual, AddresslessApart, GrantedAt, Sourced;
    SourcedKeys(h[i].rr, h[j].rr);
    EqualGrantsSpaced(h, i, j);
  }

  function WithoutCleanUp(h: seq<Event>): seq<Event> {
    if h == [] then []
    else if h[|h| - 1].CleanUp? then WithoutCleanUp(h[..|h| - 1])
    else WithoutCleanUp(h[..|h| - 1]) + [h[|h| - 1]]
  }

  lemma {:induction false} WithoutCleanUpOrdered(h: seq<Event>, now: int)
    requires Ordered(h) && (h != [] ==> Ends(h[|h| - 1]) <= now)
    ensures var g := WithoutCleanUp(h); Ordered(g) && forall i :: 0 <= i < |g| ==> Ends(g[i]) <= now
  {
    if h != [] {
      WithoutCleanUpOrdered(h[..|h| - 1], Starts(h[|h| - 1]));
    }
  }

  lemma {:induction false} WithoutCleanUpGrants(h: seq<Event>, key: Bytes)
    ensures LastGrant(WithoutCleanUp(h), key) == LastGrant(h, key)
  {
    hide RateKey;
    if h != [] {
      var before := h[..|h| - 1];
      WithoutCleanUpGrants(before, key);
      if h[|h| - 1].Ask? {
        assert WithoutCleanUp(h)[..|WithoutCleanUp(h)| - 1] == WithoutCleanUp(before);
      }
    }
  }

  /** Cleaning up is unobservable: after any history the limiter decides as if it never happened. */
  lemma CleanUpUnobservable(h: seq<Event>, e: Event)
    requires e.Ask? && Ordered(h + [e])
    ensures Granted(RunFrom(map[], h), e) <==> Granted(RunFrom(map[], WithoutCleanUp(h)), e)
  {
    hide RateKey, RunFrom, LastGrant, WithoutCleanUp;
    assert forall i :: 0 <= i < |h| ==> (h + [e])[i] == h[i];
    assert (h + [e])[|h|] == e;
    WithoutCleanUpOrdered(h, e.now);
    WithoutCleanUpGrants(h, RateKey(e.rr));
    TrackerIsHistory(h, RateKey(e.rr), e.now);
    TrackerIsHistory(WithoutCleanUp(h), RateKey(e.rr), e.now);
  }

  // ----- the records of a response -----

  /** containsRR */
  predicate Contains(list: seq<ResourceRecord>, rr: ResourceRecord) {
    exists i :: 0 <= i < |list| && RecordsEqual(list[i], rr)
  }

  /** The records of list, each once, that equal no record of base. */
  function Distinct(base: seq<ResourceRecord>, list: seq<ResourceRecord>): (r: seq<ResourceRecord>)
    ensures |r| <= |list|
  {
    if list == [] then []
    else
      var before, last := Distinct(base, list[..|list| - 1]), list[|list| - 1];
      if Contains(base, last) || Contains(before, last) then before else before + [last]
  }

  datatype Reading = Reading(now: int, stamp: int)

  function Asks(list: seq<ResourceRecord>, clock: seq<Reading>): (r: seq<Event>)
    requires |list| <= |clock|
    ensures |r| == |list| && forall i :: 0 <= i < |r| ==> r[i] == Ask(list[i], clock[i].now, clock[i].stamp)
  {
    seq(|list|, i requires 0 <= i < |list| => Ask(list[i], clock[i].now, clock[i].stamp))
  }

  predicate AllAsks(asks: seq<Event>) {
    forall i :: 0 <= i < |asks| ==> asks[i].Ask?
  }

  /** The records granted, asking for one after the other. */
  function Sift(t: Tracker, asks: seq<Event>): seq<ResourceRecord>
    requires AllAsks(asks)
  {
    if asks == [] then []
    else
      var before, last := asks[..|asks| - 1], asks[|asks| - 1];
      if Granted(RunFrom(t, before), last) then Sift(t, before) + [last.rr] else Sift(t, before)
  }

  datatype Selection = Nothing | Send(answers: seq<ResourceRecord>, additionals: seq<ResourceRecord>)

  function Select(t: Tracker, answers: seq<ResourceRecord>, additionals: seq<ResourceRecord>,
                  multicast: bool, clock: seq<Reading>): Selection
    requires |answers| <= |clock|
  {
    var once := Distinct([], answers);
    var extra := Distinct(once, additionals);
    if !multicast then Send(once, extra)
    else
      var granted := Sift(t, Asks(once, clock));
      if granted == [] && once != [] then Nothing else Send(granted, extra)
  }

  predicate Apart(list: seq<ResourceRecord>) {
    forall i, j :: 0 <= i < j < |list| ==> !RecordsEqual(list[i], list[j])
  }

  lemma {:induction false} DistinctApart(base: seq<ResourceRecord>, list: seq<ResourceRecord>)
    ensures var d := Distinct(base, list);
            Apart(d) && forall i :: 0 <= i < |d| ==> d[i] in list && !Contains(base, d[i])
  {
    hide RecordsEqual, Contains;
    if list != [] {
      var last := list[|list| - 1];
      var before := Distinct(base, list[..|list| - 1]);
      DistinctApart(base, list[..|list| - 1]);
      forall i | 0 <= i < |before|
        ensures !Contains(before, last) ==> !RecordsEqual(before[i], last)
      {
        ContainsAt(before, i, last);
      }
    }
  }

  lemma {:induction false} DistinctCovers(base: seq<ResourceRecord>, list: seq<ResourceRecord>, i: nat)
    requires i < |list|
    ensures Contains(base, list[i]) || Contains(Distinct(base, list), list[i])
    decreases |list|
  {
    hide RecordsEqual, Contains;
    var last := list[|list| - 1];
    var before, d := Distinct(base, list[..|list| - 1]), Distinct(base, list);
    if i < |list| - 1 {
      DistinctCovers(base, list[..|list| - 1], i);
      ContainsSubset(before, d, list[i]);
    } else if d != before {
      EqualToItself(last);
      ContainsAt(d, |d| - 1, last);
    }
  }

  lemma ContainsAt(list: seq<ResourceRecord>, i: nat, rr: ResourceRecord)
    requires i < |list|
    ensures RecordsEqual(list[i], rr) ==> Contains(list, rr)
  {
  }

  lemma ContainsSubset(some: seq<ResourceRecord>, all: seq<ResourceRecord>, rr: ResourceRecord)
    requires forall x :: x in some ==> x in all
    ensures Contains(some, rr) ==> Contains(all, rr)
  {
    hide RecordsEqual;
    if Contains(some, rr) {
      var k :| 0 <= k < |some| && RecordsEqual(some[k], rr);
      assert some[k] in all;
    }
  }

  lemma EqualToItself(rr: ResourceRecord)
    ensures RecordsEqual(rr, rr)
  {
  }

  /** The i-th ask is granted when the tracker has seen those before it. */
  predicate AskGranted(t: Tracker, asks: seq<Event>, i: nat)
    requires i < |asks| && asks[i].Ask?
  {
    Granted(RunFrom(t, asks[..i]), asks[i])
  }

  predicate SiftedFrom(t: Tracker, asks: seq<Event>, rr: ResourceRecord)
    requires AllAsks(asks)
  {
    exists i :: 0 <= i < |asks| && asks[i].rr == rr && AskGranted(t, asks, i)
  }

  lemma SiftedStep(t: Tracker, asks: seq<Event>, rr: ResourceRecord)
    requires AllAsks(asks) && asks != []
    ensures var before, last := asks[..|asks| - 1], asks[|asks| - 1];
            SiftedFrom(t, asks, rr) <==> SiftedFrom(t, before, rr) || (last.rr == rr && Granted(RunFrom(t, before), last))
  {
    hide Granted, RunFrom;
    var before, n := asks[..|asks| - 1], |asks| - 1;
    forall i | 0 <= i < n
      ensures before[i] == asks[i] && AskGranted(t, before, i) == AskGranted(t, asks, i)
    {
      assert before[..i] == asks[..i];
    }
    assert AskGranted(t, asks, n) == Granted(RunFrom(t, before), asks[n]);
    if SiftedFrom(t, before, rr) {
      var i :| 0 <= i < n && before[i].rr == rr && AskGranted(t, before, i);
      assert asks[i].rr == rr && AskGranted(t, asks, i);
    }
  }

  lemma {:induction false} SiftMeans(t: Tracker, asks: seq<Event>, rr: ResourceRecord)
    requires AllAsks(asks)
    ensures rr in Sift(t, asks) <==> SiftedFrom(t, asks, rr)
  {
    hide Granted, RunFrom, SiftedFrom;
    if asks == [] {
      assert !SiftedFrom(t, asks, rr) by {
        NothingSifted(t, rr);
      }
    } else {
      SiftMeans(t, asks[..|asks| - 1], rr);
      SiftedStep(t, asks, rr);
    }
  }

  lemma NothingSifted(t: Tracker, rr: ResourceRecord)
    ensures !SiftedFrom(t, [], rr)
  {
  }

  lemma {:induction false} SiftApart(t: Tracker, list: seq<ResourceRecord>, clock: seq<Reading>)
    requires |list| <= |clock| && Apart(list)
    ensures Apart(Sift(t, Asks(list, clock)))
    ensures forall rr :: rr in Sift(t, Asks(list, clock)) ==> rr in list
  {
    hide RecordsEqual, Granted;
    if list != [] {
      var front, last := list[..|list| - 1], list[|list| - 1];
      assert Asks(list, clock)[..|list| - 1] == Asks(front, clock);
      SiftApart(t, front, clock);
      var before := Sift(t, Asks(front, clock));
      forall i | 0 <= i < |before|
        ensures !RecordsEqual(before[i], last)
      {
        assert before[i] in front;
      }
    }
  }

  lemma {:induction false} RunFromAppends(h: seq<Event>, asks: seq<Event>)
    ensures RunFrom(map[], h + asks) == RunFrom(RunFrom(map[], h), asks)
  {
    hide After;
    if asks == [] {
      assert h + asks == h;
    } else {
      assert (h + asks)[..|h + asks| - 1] == h + asks[..|asks| - 1];
      RunFromAppends(h, asks[..|asks| - 1]);
    }
  }

  lemma AsksInHistory(h: seq<Event>, asks: seq<Event>, i: nat)
    requires i < |asks| && asks[i].Ask?
    ensures AskGranted(RunFrom(map[], h), asks, i) <==> GrantedAt(h + asks, |h| + i)
  {
    hide Granted, RunFrom;
    assert (h + asks)[..|h| + i] == h + asks[..i];
    RunFromAppends(h, asks[..i]);
  }

  /** No two records of what is sent are equal, answers and additionals together. */
  predicate NoTwins(sent: Selection) {
    sent.Send? ==>
      && Apart(sent.answers) && Apart(sent.additionals)
      && forall i, j :: 0 <= i < |sent.answers| && 0 <= j < |sent.additionals| ==>
           !RecordsEqual(sent.answers[i], sent.additionals[j])
  }

  /** Nothing is sent that was not asked for, and every additional is sent, unless it equals an answer. */
  predicate Faithful(answers: seq<ResourceRecord>, additionals: seq<ResourceRecord>, sent: Selection) {
    sent.Send? ==>
      && (forall rr :: rr in sent.answers ==> rr in answers)
      && (forall rr :: rr in sent.additionals ==> rr in additionals)
      && forall i :: 0 <= i < |additionals| ==>
           Contains(sent.additionals, additionals[i]) || Contains(answers, additionals[i])
  }

  predicate GrantedIn(h: seq<Event>, asks: seq<Event>, rr: ResourceRecord) {
    exists i :: 0 <= i < |asks| && asks[i].Ask? && asks[i].rr == rr && GrantedAt(h + asks, |h| + i)
  }

  predicate HasEqualAsk(asks: seq<Event>, rr: ResourceRecord) {
    exists i :: 0 <= i < |asks| && asks[i].Ask? && RecordsEqual(asks[i].rr, rr)
  }

  function AnswersOf(sent: Selection): seq<ResourceRecord> {
    if sent.Send? then sent.answers else []
  }

  /** Exactly the answers granted are sent, where asks goes on from history h; and every answer has
      an equal that was asked about. */
  ghost predicate GrantsSent(h: seq<Event>, answers: seq<ResourceRecord>, asks: seq<Event>, sent: Selection) {
    && (forall rr :: rr in AnswersOf(sent) <==> GrantedIn(h, asks, rr))
    && forall j :: 0 <= j < |answers| ==> HasEqualAsk(asks, answers[j])
  }

  lemma SelectedNoTwins(t: Tracker, answers: seq<ResourceRecord>, additionals: seq<ResourceRecord>,
                        multicast: bool, clock: seq<Reading>)
    requires |answers| <= |clock|
    ensures NoTwins(Select(t, answers, additionals, multicast, clock))
  {
    hide RecordsEqual, Distinct, Sift, Contains;
    var once := Distinct([], answers);
    var extra := Distinct(once, additionals);
    DistinctApart([], answers);
    DistinctApart(once, additionals);
    SiftApart(t, once, clock);
    forall i, j | 0 <= i < |once| && 0 <= j < |extra|
      ensures !RecordsEqual(once[i], extra[j])
    {
      ContainsAt(once, i, extra[j]);
    }
    var granted := Sift(t, Asks(once, clock));
    forall i, j | 0 <= i < |granted| && 0 <= j < |extra|
      ensures !RecordsEqual(granted[i], extra[j])
    {
      assert granted[i] in once;
    }
  }

  lemma SelectedFaithful(t: Tracker, answers: seq<ResourceRecord>, additionals: seq<ResourceRecord>,
                         multicast: bool, clock: seq<Reading>)
    requires |answers| <= |clock|
    ensures Faithful(answers, additionals, Select(t, answers, additionals, multicast, clock))
  {
    hide RecordsEqual, Distinct, Sift, Contains;
    var once := Distinct([], answers);
    DistinctApart([], answers);
    DistinctApart(once, additionals);
    SiftApart(t, once, clock);
    var extra := Distinct(once, additionals);
    forall i | 0 <= i < |additionals|
      ensures Contains(extra, additionals[i]) || Contains(answers, additionals[i])
    {
      DistinctCovers(once, additionals, i);
      ContainsSubset(once, answers, additionals[i]);
    }
  }

  lemma SiftedIsGranted(h: seq<Event>, asks: seq<Event>, rr: ResourceRecord)
    requires AllAsks(asks)
    ensures rr in Sift(RunFrom(map[], h), asks) <==> GrantedIn(h, asks, rr)
  {
    hide RunFrom, GrantedAt, AskGranted, Sift;
    SiftMeans(RunFrom(map[], h), asks, rr);
    forall i | 0 <= i < |asks|
      ensures AskGranted(RunFrom(map[], h), asks, i) <==> GrantedAt(h + asks, |h| + i)
    {
      AsksInHistory(h, asks, i);
    }
  }

  /** A multicast response after any history of the limiter: its records are all different, it is
      faithful to what was asked for, and its answers are exactly those the limiter granted. */
  lemma MulticastSelected(h: seq<Event>, answers: seq<ResourceRecord>, additionals: seq<ResourceRecord>,
                          clock: seq<Reading>)
    requires |answers| <= |clock|
    ensures var sent := Select(RunFrom(map[], h), answers, additionals, true, clock);
            && NoTwins(sent) && Faithful(answers, additionals, sent)
            && GrantsSent(h, answers, Asks(Distinct([], answers), clock), sent)
  {
    hide RecordsEqual, Distinct, Sift, RunFrom, GrantedIn, NoTwins, Faithful, HasEqualAsk;
    var t, once := RunFrom(map[], h), Distinct([], answers);
    var asks := Asks(once, clock);
    SelectedNoTwins(t, answers, additionals, true, clock);
    SelectedFaithful(t, answers, additionals, true, clock);
    var sent := Select(t, answers, additionals, true, clock);
    forall rr
      ensures rr in AnswersOf(sent) <==> GrantedIn(h, asks, rr)
    {
      SiftedIsGranted(h, asks, rr);
    }
    forall j | 0 <= j < |answers|
      ensures HasEqualAsk(asks, answers[j])
    {
      AnswerAsked(answers, clock, j);
    }
  }

  lemma AnswerAsked(answers: seq<ResourceRecord>, clock: seq<Reading>, j: nat)
    requires |answers| <= |clock| && j < |answers|
    ensures HasEqualAsk(Asks(Distinct([], answers), clock), answers[j])
  {
    hide RecordsEqual, Distinct;
    var once := Distinct([], answers);
    DistinctApart([], answers);
    DistinctCovers([], answers, j);
    var i :| 0 <= i < |once| && RecordsEqual(once[i], answers[j]);
    assert Asks(once, clock)[i].rr == once[i];
  }

  // ----- the limiter as the source keeps it -----

  class Limiter {
    var rateTracker: Tracker

    constructor ()
      ensures rateTracker == map[]
    {
      rateTracker := map[];
    }

    method CanSendMulticast(rr: ResourceRecord, now: int, stamp: int) returns (ok: bool)
      modifies this
      ensures ok == Granted(old(rateTracker), Ask(rr, now, stamp))
      ensures rateTracker == After(old(rateTracker), Ask(rr, now, stamp))
    {
      var key := RateKey(rr);
      if key in rateTracker && now - rateTracker[key] < SECOND {
        return false;
      }
      rateTracker := rateTracker[key := stamp];
      return true;
    }

    method CleanUpRateTracker(now: int)
      modifies this
      ensures rateTracker == After(old(rateTracker), CleanUp(now))
      ensures forall k :: k in rateTracker <==> k in old(rateTracker) && now - old(rateTracker)[k] <= 5_000_000_000
      ensures forall k :: k in rateTracker ==> rateTracker[k] == old(rateTracker)[k]
    {
      var left := rateTracker.Keys;
      while left != {}
        invariant left <= old(rateTracker).Keys
        invariant rateTracker == map k | k in old(rateTracker) && (k in left || now - old(rateTracker)[k] <= 5 * SECOND) ::
                                   old(rateTracker)[k]
        decreases left
      {
        var key :| key in left;
        left := left - {key};
        if now - rateTracker[key] > 5 * SECOND {
          rateTracker := rateTracker - {key};
        }
      }
    }

    /** sendResponseWithAdditional, up to the message it builds. */
    method PrepareResponse(answers: seq<ResourceRecord>, additionals: seq<ResourceRecord>,
                           multicast: bool, clock: seq<Reading>) returns (sent: Selection)
      requires |answers| <= |clock|
      modifies this
      ensures sent == Select(old(rateTracker), answers, additionals, multicast, clock)
      ensures rateTracker == if multicast then RunFrom(old(rateTracker), Asks(Distinct([], answers), clock)) else old(rateTracker)
    {
      hide RecordsEqual, Granted, After;
      var once := Dedup([], answers);
      var extra := Dedup(once, additionals);
      if multicast {
        var filtered: seq<ResourceRecord> := [];
        ghost var asks := Asks(once, clock);
        for i := 0 to |once|
          invariant rateTracker == RunFrom(old(rateTracker), asks[..i])
          invariant AllAsks(asks[..i]) && filtered == Sift(old(rateTracker), asks[..i])
        {
          assert asks[..i + 1][..i] == asks[..i];
          var ok := CanSendMulticast(once[i], clock[i].now, clock[i].stamp);
          if ok {
            filtered := filtered + [once[i]];
          }
        }
        assert asks[..|once|] == asks;
        if |filtered| == 0 && |once| > 0 {
          return Nothing;
        }
        if |filtered| > 0 {
          once := filtered;
        }
      }
      return Send(once, extra);
    }
  }

  method HasEqual(records: seq<ResourceRecord>, rr: ResourceRecord) returns (found: bool)
    ensures found == Contains(records, rr)
  {
    for i := 0 to |records|
      invariant forall k :: 0 <= k < i ==> !RecordsEqual(records[k], rr)
    {
      if RecordsEqual(records[i], rr) {
        return true;
      }
    }
    return false;
  }

  method Dedup(base: seq<ResourceRecord>, list: seq<ResourceRecord>) returns (r: seq<ResourceRecord>)
    ensures r == Distinct(base, list)
  {
    hide RecordsEqual;
    r := [];
    for i := 0 to |list|
      invariant r == Distinct(base, list[..i])
    {
      assert list[..i + 1][..i] == list[..i];
      var inBase := HasEqual(base, list[i]);
      var inResult := HasEqual(r, list[i]);
      if !inBase && !inResult {
        r := r + [list[i]];
      }
    }
    assert list[..|list|] == list;
  }
}
