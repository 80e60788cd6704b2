/** Equality of records (cache.go, recordsEqual) and the order that decides simultaneous probes
    (server.go, canonicalRDATA and probeLoses). */
module Tiebreak {
  import opened Octets
  import opened Names
  import opened Records
  import opened Codec

  // ----- recordsEqual -----

  /** net.IP.Equal: an IPv4 address equals its IPv4-mapped IPv6 form. */
  predicate IpEqual(a: Bytes, b: Bytes) {
    if |a| == |b| then a == b
    else if |a| == 4 && |b| == 16 then b[..12] == MAPPED && b[12..] == a
    else if |a| == 16 && |b| == 4 then a[..12] == MAPPED && a[12..] == b
    else false
  }

  predicate RecordsEqual(a: ResourceRecord, b: ResourceRecord) {
    && a.rtype == b.rtype
    && LowerName(a.name) == LowerName(b.name)
    && match KindOf(a.rtype)
       case Address4 => IpEqual(a.ip, b.ip)
       case Address6 => IpEqual(a.ip, b.ip)
       case Pointer => LowerName(a.target) == LowerName(b.target)
       case Service => LowerName(a.target) == LowerName(b.target)
                       && a.port == b.port && a.priority == b.priority && a.weight == b.weight
       case Text => a.text == b.text
       case _ => a.rawData == b.rawData
  }

  /** The part of a record that recordsEqual looks at. */
  datatype Essence =
    | Addressed(rtype: U16, name: Bytes, ip: Bytes)
    | Pointing(rtype: U16, name: Bytes, target: Bytes)
    | Serving(name: Bytes, target: Bytes, port: U16, priority: U16, weight: U16)
    | Telling(name: Bytes, text: seq<Bytes>)
    | Unread(rtype: U16, name: Bytes, rawData: Bytes)

  function Mapped(ip: Bytes): Bytes {
    if |ip| == 4 then MAPPED + ip else ip
  }

  function EssenceOf(rr: ResourceRecord): Essence {
    var name := LowerName(rr.name);
    match KindOf(rr.rtype)
    case Address4 => Addressed(rr.rtype, name, Mapped(rr.ip))
    case Address6 => Addressed(rr.rtype, name, Mapped(rr.ip))
    case Pointer => Pointing(rr.rtype, name, LowerName(rr.target))
    case Service => Serving(name, LowerName(rr.target), rr.port, rr.priority, rr.weight)
    case Text => Telling(name, rr.text)
    case _ => Unread(rr.rtype, name, rr.rawData)
  }

  lemma IpEqualIsMapped(a: Bytes, b: Bytes)
    ensures IpEqual(a, b) <==> Mapped(a) == Mapped(b)
  {
    if |a| == 4 && |b| == 4 {
      assert (MAPPED + a)[12..] == a && (MAPPED + b)[12..] == b;
    } else if |a| == 4 && |b| == 16 {
      assert (MAPPED + a)[..12] == MAPPED && (MAPPED + a)[12..] == a && b == b[..12] + b[12..];
    } else if |a| == 16 && |b| == 4 {
      assert (MAPPED + b)[..12] == MAPPED && (MAPPED + b)[12..] == b && a == a[..12] + a[12..];
    }
  }

  /** recordsEqual is an equivalence: it compares one value computed from each record. */
  lemma EqualIffSameEssence(a: ResourceRecord, b: ResourceRecord)
    ensures RecordsEqual(a, b) <==> EssenceOf(a) == EssenceOf(b)
  {
    hide IpEqual, LowerName, Mapped;
    IpEqualIsMapped(a.ip, b.ip);
  }

  // ----- lexicographic order -----

  /** Go's order on byte strings. */
  predicate Less(a: Bytes, b: Bytes) {
    b != [] && (a == [] || a[0] < b[0] || (a[0] == b[0] && Less(a[1..], b[1..])))
  }

  lemma {:induction false} LessTotal(a: Bytes, b: Bytes)
    ensures Less(a, b) || Less(b, a) || a == b
  {
    if a != [] && b != [] && a[0] == b[0] {
      LessTotal(a[1..], b[1..]);
      assert a == [a[0]] + a[1..] && b == [b[0]] + b[1..];
    }
  }

  lemma {:induction false} LessAsymmetric(a: Bytes, b: Bytes)
    ensures !(Less(a, b) && Less(b, a))
  {
    if a != [] && b != [] {
      LessAsymmetric(a[1..], b[1..]);
    }
  }

  lemma {:induction false} LessTransitive(a: Bytes, b: Bytes, c: Bytes)
    requires Less(a, b) && Less(b, c)
    ensures Less(a, c)
  {
    if a != [] && a[0] == b[0] == c[0] {
      LessTransitive(a[1..], b[1..], c[1..]);
    }
  }

  // ----- canonicalRDATA -----

  function CanonicalName(name: Bytes): Bytes {
    LowerName(NormalizeName(name))
  }

  /** The length bytes wrap: a string of 256 bytes is written with length 0. */
  function CanonicalText(text: seq<Bytes>): Bytes {
    if text == [] then [] else [(|text[0]| % 0x100) as Byte] + text[0] + CanonicalText(text[1..])
  }

  /** The bytes canonicalRDATA compares; a failure of writeName leaves what it wrote before it. */
  function CanonicalRdata(rr: ResourceRecord): Bytes {
    match KindOf(rr.rtype)
    case Address4 => if To4(rr.ip).Some? then To4(rr.ip).value else []
    case Address6 => if To16(rr.ip).Some? then To16(rr.ip).value else []
    case Pointer => EmitName(0, map[], CanonicalName(rr.target)).bytes
    case Service => Put16(rr.priority as int) + Put16(rr.weight as int) + Put16(rr.port as int)
                    + EmitName(6, map[], CanonicalName(rr.target)).bytes
    case Text => CanonicalText(rr.text)
    case _ => rr.rawData
  }

  predicate ProbeLoses(ours: ResourceRecord, theirs: ResourceRecord) {
    Less(CanonicalRdata(ours), CanonicalRdata(theirs))
  }

  /** canonicalRDATA, with the writer and a fresh compression table of its own. */
  method ComputeCanonicalRdata(rr: ResourceRecord) returns (r: Bytes)
    ensures r == CanonicalRdata(rr)
  {
    hide EmitName, Put16, TableSound, ProperName, NormalizeName, LowerName, CanonicalText;
    var p := new Packer();
    match KindOf(rr.rtype) {
      case Address4 =>
        var ip4 := To4(rr.ip);
        if ip4.Some? {
          p.buf := p.buf + ip4.value;
        }
      case Address6 =>
        var ip6 := To16(rr.ip);
        if ip6.Some? {
          p.buf := p.buf + ip6.value;
        }
      case Service =>
        p.buf := p.buf + Put16(rr.priority as int);
        p.buf := p.buf + Put16(rr.weight as int);
        p.buf := p.buf + Put16(rr.port as int);
        var _ := p.WriteName(CanonicalName(rr.target));
      case Pointer =>
        var _ := p.WriteName(CanonicalName(rr.target));
      case Text =>
        p.buf := ComputeCanonicalText(rr.text);
      case _ =>
        p.buf := p.buf + rr.rawData;
    }
    r := p.buf;
  }

  method ComputeCanonicalText(text: seq<Bytes>) returns (r: Bytes)
    ensures r == CanonicalText(text)
  {
    hide CanonicalText;
    r := [];
    TextStep(text, 0);
    for i := 0 to |text|
      invariant r + CanonicalText(text[i..]) == CanonicalText(text)
    {
      TextStep(text, i);
      ghost var before := r;
      var s := text[i];
      r := r + [(|s| % 0x100) as Byte];
      r := r + s;
      Assoc(before, [(|s| % 0x100) as Byte], s);
      Assoc(before, [(|s| % 0x100) as Byte] + s, CanonicalText(text[i + 1..]));
    }
    TextStep(text, |text|);
  }

  lemma TextStep(text: seq<Bytes>, i: nat)
    requires i <= |text|
    ensures i == 0 ==> text[i..] == text && [] + CanonicalText(text) == CanonicalText(text)
    ensures i < |text| ==>
      CanonicalText(text[i..]) == [(|text[i]| % 0x100) as Byte] + text[i] + CanonicalText(text[i + 1..])
    ensures i == |text| ==> CanonicalText(text[i..]) == [] && forall r: Bytes :: r + CanonicalText(text[i..]) == r
  {
    if i < |text| {
      assert text[i..][1..] == text[i + 1..];
    }
  }

  // ----- canonical bytes decide equality -----

  lemma {:induction false} LowerIndexDot(s: Bytes, from: nat)
    requires from <= |s|
    ensures IndexDot(LowerName(s), from) == IndexDot(s, from)
    decreases |s| - from
  {
    if from < |s| {
      LowerIndexDot(s, from + 1);
    }
  }

  lemma LowerFirstLabel(s: Bytes)
    ensures FirstDot(LowerName(s)) == FirstDot(s)
    ensures AfterFirstLabel(LowerName(s)) == LowerName(AfterFirstLabel(s))
  {
    LowerIndexDot(s, 0);
  }

  /** Lowering a name changes neither its labels' lengths nor their number. */
  lemma {:induction false} LowerKeepsLabels(s: Bytes)
    ensures Proper(LowerName(s)) == Proper(s) && Fits(LowerName(s)) == Fits(s)
    decreases |s|
  {
    hide IndexDot, LowerName;
    LowerFirstLabel(s);
    LowerLength(s);
    if s != [] {
      LowerKeepsLabels(AfterFirstLabel(s));
    }
  }

  lemma LowerLength(s: Bytes)
    ensures |LowerName(s)| == |s| && (LowerName(s) == [] <==> s == [])
  {
  }

  /** A name that writeName carries, with its final dot. */
  predicate CarriedName(name: Bytes) {
    NormalizeName(name) == name && ProperName(name) && NameFits(name)
  }

  lemma LowerCarried(name: Bytes)
    requires CarriedName(name)
    ensures CanonicalName(name) == LowerName(name) && CarriedName(LowerName(name))
  {
    hide Proper, Fits;
    var n := LowerName(name);
    assert n[..|n| - 1] == LowerName(name[..|name| - 1]);
    LowerKeepsLabels(name[..|name| - 1]);
    if name == [DOT] {
      assert n == [DOT];
    }
  }

  /** Written on its own, a name uses no pointer: its bytes are one more than its dotted form,
      and they give the name back wherever they start. */
  lemma FreshNameReads(msg: Bytes, base: nat, name: Bytes)
    requires CarriedName(name) && At(msg, base, EmitName(base, map[], name).bytes)
    ensures Walk(msg, base, 0).Found?
    ensures name != [DOT] ==> Walk(msg, base, 0).text == name
    ensures name == [DOT] ==> Walk(msg, base, 0).text == []
  {
    hide EmitLabels, Walk, IndexDot, Fits;
    EmitNameFails([], 0, base, map[], name);
    if name == [DOT] {
      AtOne(msg, base, 0);
      WalkStops(msg, base, 0);
    } else {
      assert name[..|name| - 1] + [DOT] == name;
      FreshLabelsRead(msg, base, name[..|name| - 1]);
    }
  }

  lemma {:induction false} FreshLabelsLength(base: nat, s: Bytes)
    requires Proper(s) && Fits(s)
    ensures |EmitLabels(base, map[], s).bytes| == |s| + 2
    decreases |s|
  {
    hide IndexDot;
    ProperStep(s);
    if AfterFirstLabel(s) != [] {
      FreshLabelsLength(base + 1 + FirstDot(s), AfterFirstLabel(s));
    }
  }

  /** canonicalRDATA writes no compression pointer: every label of the name is there in full. */
  lemma CanonicalNameUncompressed(base: nat, name: Bytes)
    requires CarriedName(name)
    ensures |EmitName(base, map[], CanonicalName(name)).bytes| == if name == [DOT] then 1 else |name| + 1
  {
    hide EmitLabels, Proper, Fits;
    LowerCarried(name);
    var n := LowerName(name);
    if name != [DOT] {
      assert n == [DOT] ==> |name| == 1;
      FreshLabelsLength(base, n[..|n| - 1]);
    }
  }

  lemma FreshNameInjective(base: nat, a: Bytes, b: Bytes)
    requires CarriedName(a) && CarriedName(b)
    requires EmitName(base, map[], a).bytes == EmitName(base, map[], b).bytes
    ensures a == b
  {
    hide EmitName, CarriedName, Walk, At;
    var part := EmitName(base, map[], a).bytes;
    var msg := seq(base, _ => 0 as Byte) + part;
    AtAfter(seq(base, _ => 0 as Byte), part);
    FreshNameReads(msg, base, a);
    FreshNameReads(msg, base, b);
    CarriedNonEmpty(a);
    CarriedNonEmpty(b);
  }

  lemma CarriedNonEmpty(name: Bytes)
    requires CarriedName(name)
    ensures name != []
  {
  }

  lemma CanonicalNameInjective(base: nat, a: Bytes, b: Bytes)
    requires CarriedName(a) && CarriedName(b)
    ensures EmitName(base, map[], CanonicalName(a)).bytes == EmitName(base, map[], CanonicalName(b)).bytes
       <==> LowerName(a) == LowerName(b)
  {
    hide EmitName, CarriedName, LowerName;
    LowerCarried(a);
    LowerCarried(b);
    if EmitName(base, map[], CanonicalName(a)).bytes == EmitName(base, map[], CanonicalName(b)).bytes {
      FreshNameInjective(base, LowerName(a), LowerName(b));
    }
  }

  predicate TextFits(text: seq<Bytes>) {
    forall i :: 0 <= i < |text| ==> |text[i]| <= 255
  }

  lemma {:induction false} CanonicalTextInjective(a: seq<Bytes>, b: seq<Bytes>)
    requires TextFits(a) && TextFits(b) && CanonicalText(a) == CanonicalText(b)
    ensures a == b
  {
    if a != [] && b != [] {
      var x, y := CanonicalText(a[1..]), CanonicalText(b[1..]);
      HeadsMatch(a[0], x, b[0], y);
      CanonicalTextInjective(a[1..], b[1..]);
      assert a == [a[0]] + a[1..] && b == [b[0]] + b[1..];
    }
  }

  lemma HeadsMatch(a: Bytes, x: Bytes, b: Bytes, y: Bytes)
    requires |a| <= 255 && |b| <= 255
    requires [(|a| % 0x100) as Byte] + a + x == [(|b| % 0x100) as Byte] + b + y
    ensures a == b && x == y
  {
    var l, r := [(|a| % 0x100) as Byte] + a + x, [(|b| % 0x100) as Byte] + b + y;
    assert l[0] == r[0];
    assert l[1..1 + |a|] == a && r[1..1 + |b|] == b;
    assert l[1 + |a|..] == x && r[1 + |b|..] == y;
  }

  /** A record whose RDATA is in the form that its type asks for. */
  predicate Comparable(rr: ResourceRecord) {
    match KindOf(rr.rtype)
    case Address4 => To4(rr.ip).Some?
    case Address6 => To16(rr.ip).Some?
    case Pointer => CarriedName(rr.target)
    case Service => CarriedName(rr.target)
    case Text => TextFits(rr.text)
    case _ => true
  }

  lemma ServiceBytes(a: ResourceRecord, b: ResourceRecord)
    requires KindOf(a.rtype) == Service && KindOf(b.rtype) == Service
    requires CanonicalRdata(a) == CanonicalRdata(b)
    ensures a.priority == b.priority && a.weight == b.weight && a.port == b.port
    ensures EmitName(6, map[], CanonicalName(a.target)).bytes == EmitName(6, map[], CanonicalName(b.target)).bytes
  {
    hide EmitName, Put16;
    var p, w, q := Put16(a.priority as int), Put16(a.weight as int), Put16(a.port as int);
    var p', w', q' := Put16(b.priority as int), Put16(b.weight as int), Put16(b.port as int);
    var n, n' := EmitName(6, map[], CanonicalName(a.target)).bytes, EmitName(6, map[], CanonicalName(b.target)).bytes;
    FourParts(p, w, q, n, p', w', q', n');
    Put16Injective(a.priority, b.priority);
    Put16Injective(a.weight, b.weight);
    Put16Injective(a.port, b.port);
  }

  lemma FourParts(p: Bytes, w: Bytes, q: Bytes, n: Bytes, p': Bytes, w': Bytes, q': Bytes, n': Bytes)
    requires |p| == |w| == |q| == |p'| == |w'| == |q'| == 2
    requires p + w + q + n == p' + w' + q' + n'
    ensures p == p' && w == w' && q == q' && n == n'
  {
    var l, r := p + w + q + n, p' + w' + q' + n';
    assert l[..2] == p && l[2..4] == w && l[4..6] == q && l[6..] == n;
    assert r[..2] == p' && r[2..4] == w' && r[4..6] == q' && r[6..] == n';
  }

  lemma Put16Injective(a: U16, b: U16)
    ensures Put16(a as int) == Put16(b as int) <==> a == b
  {
    assert a as int == a as int / 0x100 * 0x100 + a as int % 0x100;
    assert Put16(a as int)[0] as int == a as int / 0x100 && Put16(a as int)[1] as int == a as int % 0x100;
    assert Put16(b as int)[0] as int == b as int / 0x100 && Put16(b as int)[1] as int == b as int % 0x100;
  }

  /** The canonical bytes of two records of one name and type agree exactly when recordsEqual
      takes the records for the same. */
  lemma CanonicalIffEqual(a: ResourceRecord, b: ResourceRecord)
    requires Comparable(a) && Comparable(b)
    requires a.rtype == b.rtype && LowerName(a.name) == LowerName(b.name)
    ensures CanonicalRdata(a) == CanonicalRdata(b) <==> RecordsEqual(a, b)
  {
    hide EmitName, LowerName, CarriedName, CanonicalText, Put16, CanonicalName;
    match KindOf(a.rtype)
    case Address4 =>
      IpEqualIsMapped(a.ip, b.ip);
      Address4Mapped(a.ip);
      Address4Mapped(b.ip);
      assert (MAPPED + To4(a.ip).value)[12..] == To4(a.ip).value;
      assert (MAPPED + To4(b.ip).value)[12..] == To4(b.ip).value;
    case Address6 => IpEqualIsMapped(a.ip, b.ip);
    case Pointer => CanonicalNameInjective(0, a.target, b.target);
    case Service =>
      CanonicalNameInjective(6, a.target, b.target);
      if CanonicalRdata(a) == CanonicalRdata(b) {
        ServiceBytes(a, b);
      }
    case Text =>
      if CanonicalRdata(a) == CanonicalRdata(b) {
        CanonicalTextInjective(a.text, b.text);
      }
    case _ =>
  }

  lemma Address4Mapped(ip: Bytes)
    requires To4(ip).Some?
    ensures Mapped(ip) == MAPPED + To4(ip).value
  {
  }

  /** Of two records of one name and type, exactly one of three holds: the first loses to the
      second, the second loses to the first, or they are equal. */
  lemma VerdictsAreOpposite(a: ResourceRecord, b: ResourceRecord)
    requires Comparable(a) && Comparable(b)
    requires a.rtype == b.rtype && LowerName(a.name) == LowerName(b.name)
    ensures ProbeLoses(a, b) || ProbeLoses(b, a) <==> !RecordsEqual(a, b)
    ensures !(ProbeLoses(a, b) && ProbeLoses(b, a))
  {
    hide Less, CanonicalRdata, RecordsEqual, Comparable, LowerName;
    CanonicalIffEqual(a, b);
    LessTotal(CanonicalRdata(a), CanonicalRdata(b));
    LessAsymmetric(CanonicalRdata(a), CanonicalRdata(b));
  }

  lemma LosingIsTransitive(a: ResourceRecord, b: ResourceRecord, c: ResourceRecord)
    requires ProbeLoses(a, b) && ProbeLoses(b, c)
    ensures ProbeLoses(a, c)
  {
    hide Less, CanonicalRdata;
    LessTransitive(CanonicalRdata(a), CanonicalRdata(b), CanonicalRdata(c));
  }

  // ----- what the order means for SRV records -----

  /** Numbers in network order compare as their bytes do. */
  lemma NumberFirst(a: U16, b: U16, x: Bytes, y: Bytes)
    ensures Less(Put16(a as int) + x, Put16(b as int) + y) <==> a < b || (a == b && Less(x, y))
  {
    hide Less, Put16;
    TwoBytes(Put16(a as int), x, Put16(b as int), y);
    Put16Compares(a, b);
  }

  lemma TwoBytes(p: Bytes, x: Bytes, q: Bytes, y: Bytes)
    requires |p| == |q| == 2
    ensures Less(p + x, q + y) <==> p[0] < q[0] || (p[0] == q[0] && (p[1] < q[1] || (p[1] == q[1] && Less(x, y))))
  {
    hide Less;
    LessStep(p + x, q + y);
    LessStep((p + x)[1..], (q + y)[1..]);
    assert (p + x)[1..][1..] == x && (q + y)[1..][1..] == y;
  }

  lemma Put16Compares(a: U16, b: U16)
    ensures var p, q := Put16(a as int), Put16(b as int);
            && (a < b <==> p[0] < q[0] || (p[0] == q[0] && p[1] < q[1]))
            && (a == b <==> p[0] == q[0] && p[1] == q[1])
  {
    var h, l, h', l' := a as int / 0x100, a as int % 0x100, b as int / 0x100, b as int % 0x100;
    assert a as int == h * 0x100 + l && b as int == h' * 0x100 + l';
    assert Put16(a as int)[0] as int == h && Put16(a as int)[1] as int == l;
    assert Put16(b as int)[0] as int == h' && Put16(b as int)[1] as int == l';
  }

  lemma LessStep(a: Bytes, b: Bytes)
    requires a != [] && b != []
    ensures Less(a, b) <==> a[0] < b[0] || (a[0] == b[0] && Less(a[1..], b[1..]))
  {
  }

  function CanonicalTarget(rr: ResourceRecord): Bytes {
    EmitName(6, map[], CanonicalName(rr.target)).bytes
  }

  /** An SRV tie is decided by priority, then weight, then port, then the bytes of the target. */
  predicate SrvLess(a: ResourceRecord, b: ResourceRecord) {
    a.priority < b.priority || (a.priority == b.priority &&
      (a.weight < b.weight || (a.weight == b.weight &&
        (a.port < b.port || (a.port == b.port && Less(CanonicalTarget(a), CanonicalTarget(b)))))))
  }

  lemma SrvTie(a: ResourceRecord, b: ResourceRecord)
    requires KindOf(a.rtype) == Service && KindOf(b.rtype) == Service
    ensures ProbeLoses(a, b) <==> SrvLess(a, b)
  {
    hide Less, EmitName, Put16, CanonicalName;
    var w, q, n := Put16(a.weight as int), Put16(a.port as int), CanonicalTarget(a);
    var w', q', n' := Put16(b.weight as int), Put16(b.port as int), CanonicalTarget(b);
    NumberFirst(a.priority, b.priority, w + (q + n), w' + (q' + n'));
    NumberFirst(a.weight, b.weight, q + n, q' + n');
    NumberFirst(a.port, b.port, n, n');
    Regroup(Put16(a.priority as int), w, q, n);
    Regroup(Put16(b.priority as int), w', q', n');
  }

  lemma Regroup(p: Bytes, w: Bytes, q: Bytes, n: Bytes)
    ensures p + w + q + n == p + (w + (q + n))
  {
  }
}
