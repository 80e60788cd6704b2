/** Domain names on the wire: dns_name.go. */
module Names {
  import opened Octets

  const DOT: Byte := 46
  const MAX_OFFSET := 0x3FFF
  const MAX_LABEL := 63
  const MAX_JUMPS := 128
  /** Octets of a name in section 2.3.4 of RFC 1035. */
  const NAME_LIMIT := 255

  /** Compression table: a dotted name suffix to the offset where it was written. */
  type Table = map<Bytes, nat>

  // ----- presentation format -----

  function NormalizeName(name: Bytes): (r: Bytes)
    ensures |r| > 0 && r[|r| - 1] == DOT
  {
    if name == [] || name == [DOT] then [DOT]
    else if name[|name| - 1] != DOT then name + [DOT]
    else name
  }

  predicate EndsWithDot(s: Bytes) {
    s != [] && s[|s| - 1] == DOT
  }

  function LowerByte(b: Byte): Byte {
    if 65 <= b <= 90 then b + 32 else b
  }

  /** strings.ToLower on ASCII bytes. */
  function LowerName(name: Bytes): (r: Bytes)
    ensures |r| == |name|
    ensures forall i :: 0 <= i < |r| ==> r[i] == LowerByte(name[i])
  {
    seq(|name|, i requires 0 <= i < |name| => LowerByte(name[i]))
  }

  lemma LowerConcat(a: Bytes, b: Bytes)
    ensures LowerName(a + b) == LowerName(a) + LowerName(b)
  {
  }

  /** Lowering first or last: names equal in lower case have the same key. */
  lemma LowerNormal(a: Bytes, b: Bytes)
    requires LowerName(a) == LowerName(b)
    ensures LowerName(NormalizeName(a)) == LowerName(NormalizeName(b))
  {
    assert |a| == |b|;
    if a != [] {
      assert LowerName(a)[|a| - 1] == LowerName(b)[|a| - 1];
      assert (a == [DOT]) == (b == [DOT]) by {
        if |a| == 1 {
          assert LowerName(a)[0] == LowerName(b)[0];
        }
      }
    }
  }

  function IndexDot(s: Bytes, from: nat): (d: nat)
    requires from <= |s|
    ensures from <= d <= |s|
    ensures forall i :: from <= i < d ==> s[i] != DOT
    ensures d < |s| ==> s[d] == DOT
    decreases |s| - from
  {
    if from == |s| || s[from] == DOT then from else IndexDot(s, from + 1)
  }

  /** Length of the first label: strings.IndexByte(s, '.'), or |s| where that is negative. */
  function FirstDot(s: Bytes): (d: nat)
    ensures d <= |s|
    ensures forall i :: 0 <= i < d ==> s[i] != DOT
    ensures d < |s| ==> s[d] == DOT
  {
    IndexDot(s, 0)
  }

  function AfterFirstLabel(s: Bytes): (rest: Bytes)
    ensures |s| > 0 ==> |rest| < |s|
  {
    if FirstDot(s) < |s| then s[FirstDot(s) + 1..] else []
  }

  /** s, a name without its final dot, is a non-empty list of non-empty labels. */
  predicate Proper(s: Bytes)
    decreases |s|
  {
    0 < FirstDot(s) && (FirstDot(s) == |s| || Proper(AfterFirstLabel(s)))
  }

  lemma ProperStep(s: Bytes)
    requires Proper(s)
    ensures s != [] && 0 < FirstDot(s)
    ensures AfterFirstLabel(s) == [] ==> FirstDot(s) == |s|
    ensures AfterFirstLabel(s) != [] ==> FirstDot(s) < |s| && Proper(AfterFirstLabel(s))
  {
  }

  /** No label is empty: no dot at either end, and no two in a row. */
  predicate NoEmptyLabel(s: Bytes) {
    && s != [] && s[0] != DOT && s[|s| - 1] != DOT
    && forall k :: 0 <= k < |s| - 1 ==> s[k] != DOT || s[k + 1] != DOT
  }

  lemma {:induction false} ProperMeans(s: Bytes)
    ensures Proper(s) <==> NoEmptyLabel(s)
    decreases |s|
  {
    var d, rest := FirstDot(s), AfterFirstLabel(s);
    if 0 < d < |s| {
      ProperMeans(rest);
      assert forall k :: 0 <= k < |rest| ==> rest[k] == s[d + 1 + k];
      if NoEmptyLabel(rest) {
        assert rest[0] == s[d + 1];
      }
      if NoEmptyLabel(s) {
        assert s[d] != DOT || s[d + 1] != DOT;
      }
    }
  }

  /** A name that the wire format can carry: the root, or non-empty labels. */
  predicate ProperName(name: Bytes) {
    var n := NormalizeName(name);
    n == [DOT] || Proper(n[..|n| - 1])
  }

  /** Number of dots; for a proper name with its final dot, the number of labels. */
  function Dots(s: Bytes): nat {
    if s == [] then 0 else (if s[0] == DOT then 1 else 0) + Dots(s[1..])
  }

  lemma {:induction false} DotsOfLabel(first: Bytes, rest: Bytes)
    requires DOT !in first
    ensures Dots(first + [DOT] + rest) == 1 + Dots(rest)
  {
    if first == [] {
      assert first + [DOT] + rest == [DOT] + rest;
    } else {
      assert first + [DOT] + rest == [first[0]] + (first[1..] + [DOT] + rest);
      DotsOfLabel(first[1..], rest);
    }
  }

  lemma SplitAt(s: Bytes, d: nat)
    requires d < |s| && s[d] == DOT
    ensures s + [DOT] == s[..d] + [DOT] + (s[d + 1..] + [DOT])
  {
    assert s == s[..d] + [DOT] + s[d + 1..];
  }

  lemma SplitFirstLabel(s: Bytes)
    requires s != []
    ensures var d, rest := FirstDot(s), AfterFirstLabel(s);
            && (d == |s| ==> s + [DOT] == s[..d] + [DOT] + [])
            && (d < |s| ==> s + [DOT] == s[..d] + [DOT] + (rest + [DOT]))
  {
    if FirstDot(s) < |s| {
      SplitAt(s, FirstDot(s));
    } else {
      assert s[..FirstDot(s)] == s;
    }
  }

  lemma DotsSplit(s: Bytes)
    requires s != []
    ensures Dots(s + [DOT]) == 1 + (if FirstDot(s) == |s| then 0 else Dots(AfterFirstLabel(s) + [DOT]))
  {
    SplitFirstLabel(s);
    DotsOfLabel(s[..FirstDot(s)], if FirstDot(s) == |s| then [] else AfterFirstLabel(s) + [DOT]);
  }

  // ----- reading -----

  function PointerTarget(msg: Bytes, pos: nat): nat
    requires pos + 1 < |msg|
  {
    (msg[pos] as int) % 64 * 0x100 + msg[pos + 1] as int
  }

  datatype Walked = Lost(error: Error) | Found(text: Bytes, jumps: nat, next: nat)

  /** What readName finds from pos after jumps pointers: the dotted labels, the pointers
      still followed, and the offset just after the name in the stream. */
  function Walk(msg: Bytes, pos: nat, jumps: nat): (w: Walked)
    requires jumps <= MAX_JUMPS
    ensures w.Found? ==> pos < w.next <= |msg| && jumps + w.jumps <= MAX_JUMPS
    decreases MAX_JUMPS - jumps, |msg| - pos
  {
    if pos >= |msg| then Lost(TruncatedName)
    else if msg[pos] == 0 then Found([], 0, pos + 1)
    else if msg[pos] >= 0xC0 then
      if pos + 1 >= |msg| then Lost(TruncatedName)
      else if PointerTarget(msg, pos) >= |msg| then Lost(InvalidPointer)
      else if jumps == MAX_JUMPS then Lost(PointerLoop)
      else match Walk(msg, PointerTarget(msg, pos), jumps + 1)
        case Lost(e) => Lost(e)
        case Found(t, j, _) => Found(t, j + 1, pos + 2)
    else if msg[pos] as int > MAX_LABEL then Lost(LabelLength)
    else if pos + 1 + msg[pos] as int > |msg| then Lost(TruncatedName)
    else match Walk(msg, pos + 1 + msg[pos] as int, jumps)
      case Lost(e) => Lost(e)
      case Found(t, j, n) => Found(msg[pos + 1..pos + 1 + msg[pos] as int] + [DOT] + t, j, n)
  }

  datatype Named = Named(name: Bytes, next: nat)

  /** The value of readName: the name with its final dot, and where the stream goes on. */
  function ReadNameSpec(msg: Bytes, offset: nat): (r: Result<Named>)
    ensures r.Ok? ==> offset < r.value.next <= |msg|
  {
    match Walk(msg, offset, 0)
    case Lost(e) => Err(e)
    case Found(t, _, n) => Ok(Named(if t == [] then [DOT] else t, n))
  }

  /** strings.Join(labels, "."). */
  function Join(labels: seq<Bytes>): Bytes {
    if labels == [] then []
    else if |labels| == 1 then labels[0]
    else Join(labels[..|labels| - 1]) + [DOT] + labels[|labels| - 1]
  }

  function Dotted(labels: seq<Bytes>): Bytes {
    if labels == [] then [] else Join(labels) + [DOT]
  }

  lemma DottedSnoc(labels: seq<Bytes>, first: Bytes)
    ensures Dotted(labels + [first]) == Dotted(labels) + (first + [DOT])
  {
    assert (labels + [first])[..|labels|] == labels;
  }

  /** The walk from the start, put together from the text gathered and the walk still to do. */
  ghost function Resume(text: Bytes, jumps: nat, jumped: bool, after: nat, rest: Walked): Walked {
    match rest
    case Lost(e) => Lost(e)
    case Found(t, j, n) => Found(text + t, jumps + j, if jumped then after else n)
  }

  function Slice(msg: Bytes, from: nat, to: nat): Bytes
    requires from <= to <= |msg|
  {
    msg[from..to]
  }

  lemma ResumeLabel(msg: Bytes, pos: nat, to: nat, jumps: nat, text: Bytes, jumped: bool, after: nat)
    requires pos < |msg| && 0 < msg[pos] as int <= MAX_LABEL && jumps <= MAX_JUMPS
    requires to == pos + 1 + msg[pos] as int <= |msg|
    ensures Resume(text, jumps, jumped, after, Walk(msg, pos, jumps))
         == Resume(text + (Slice(msg, pos + 1, to) + [DOT]), jumps, jumped, after, Walk(msg, to, jumps))
  {
    var w := Walk(msg, to, jumps);
    if w.Found? {
      Assoc(text, Slice(msg, pos + 1, to) + [DOT], w.text);
    }
  }

  lemma ResumeEnds(text: Bytes, jumps: nat, jumped: bool, after: nat, w: Walked)
    ensures w.Lost? ==> Resume(text, jumps, jumped, after, w) == w
    ensures w.Found? && w.text == [] ==>
              Resume(text, jumps, jumped, after, w) == Found(text, jumps + w.jumps, if jumped then after else w.next)
    ensures text == [] && jumps == 0 && !jumped ==> Resume(text, jumps, jumped, after, w) == w
  {
  }

  /** Where the walk goes no further. */
  lemma WalkStops(msg: Bytes, pos: nat, jumps: nat)
    requires jumps <= MAX_JUMPS
    ensures pos >= |msg| ==> Walk(msg, pos, jumps) == Lost(TruncatedName)
    ensures pos < |msg| && msg[pos] == 0 ==> Walk(msg, pos, jumps) == Found([], 0, pos + 1)
    ensures pos + 1 == |msg| && msg[pos] >= 0xC0 ==> Walk(msg, pos, jumps) == Lost(TruncatedName)
    ensures pos + 1 < |msg| && msg[pos] >= 0xC0 && PointerTarget(msg, pos) >= |msg|
            ==> Walk(msg, pos, jumps) == Lost(InvalidPointer)
    ensures pos + 1 < |msg| && msg[pos] >= 0xC0 && PointerTarget(msg, pos) < |msg| && jumps == MAX_JUMPS
            ==> Walk(msg, pos, jumps) == Lost(PointerLoop)
    ensures pos < |msg| && MAX_LABEL < msg[pos] as int < 0xC0 ==> Walk(msg, pos, jumps) == Lost(LabelLength)
    ensures pos < |msg| && 0 < msg[pos] as int <= MAX_LABEL && pos + 1 + msg[pos] as int > |msg|
            ==> Walk(msg, pos, jumps) == Lost(TruncatedName)
  {
  }

  lemma ResumePointer(msg: Bytes, pos: nat, jumps: nat, text: Bytes, jumped: bool, after: nat)
    requires pos + 1 < |msg| && msg[pos] >= 0xC0 && PointerTarget(msg, pos) < |msg| && jumps < MAX_JUMPS
    ensures Resume(text, jumps, jumped, after, Walk(msg, pos, jumps))
         == Resume(text, jumps + 1, true, if jumped then after else pos + 2,
                   Walk(msg, PointerTarget(msg, pos), jumps + 1))
  {
  }

  method ReadName(msg: Bytes, offset: nat) returns (r: Result<Named>)
    ensures r == ReadNameSpec(msg, offset)
  {
    hide Walk, Join, PointerTarget, Slice, Resume;
    WalkStops(msg, offset, 0);
    ResumeEnds([], 0, false, offset, Walk(msg, offset, 0));
    if offset >= |msg| {
      return Err(TruncatedName);
    }
    var labels: seq<Bytes> := [];
    var originalOffset: nat := offset;
    var pos: nat := offset;
    var jumped := false;
    var jumps: nat := 0;
    ghost var text := [];
    ghost var whole := Walk(msg, offset, 0);
    while true
      invariant jumps <= MAX_JUMPS
      invariant text == Dotted(labels)
      invariant whole == Resume(text, jumps, jumped, originalOffset, Walk(msg, pos, jumps))
      decreases MAX_JUMPS - jumps, |msg| - pos
    {
      WalkStops(msg, pos, jumps);
      ResumeEnds(text, jumps, jumped, originalOffset, Walk(msg, pos, jumps));
      if pos >= |msg| {
        return Err(TruncatedName);
      }
      var length := msg[pos] as int;
      if length == 0 {
        pos := pos + 1;
        break;
      }
      if length >= 0xC0 {
        if pos + 1 >= |msg| {
          return Err(TruncatedName);
        }
        var pointer := PointerTarget(msg, pos);
        if pointer >= |msg| {
          return Err(InvalidPointer);
        }
        ghost var wasJumped, after := jumped, originalOffset;
        originalOffset := if jumped then originalOffset else pos + 2;
        jumped := true;
        jumps := jumps + 1;
        if jumps > MAX_JUMPS {
          return Err(PointerLoop);
        }
        ResumePointer(msg, pos, jumps - 1, text, wasJumped, after);
        pos := pointer;
        continue;
      }
      if length > MAX_LABEL {
        return Err(LabelLength);
      }
      ghost var here := pos;
      pos := pos + 1;
      if pos + length > |msg| {
        return Err(TruncatedName);
      }
      ResumeLabel(msg, here, pos + length, jumps, text, jumped, originalOffset);
      var first := Slice(msg, pos, pos + length);
      pos := pos + length;
      DottedSnoc(labels, first);
      labels := labels + [first];
      text := text + (first + [DOT]);
    }
    originalOffset := if jumped then originalOffset else pos;
    var name := [DOT];
    if |labels| != 0 {
      name := Join(labels) + [DOT];
    }
    return Ok(Named(name, originalOffset));
  }

  // ----- names without the reader's jump guard -----

  datatype Chained = Broken | Whole(text: Bytes, jumps: nat, next: nat)

  /** The walk with no bound on its jumps. It ends because every pointer must lead strictly
      before the start of the run of labels that holds it. */
  ghost function Chain(msg: Bytes, start: nat, pos: nat): (c: Chained)
    requires start <= pos
    decreases start, |msg| - pos
  {
    if pos >= |msg| then Broken
    else if msg[pos] == 0 then Whole([], 0, pos + 1)
    else if msg[pos] >= 0xC0 then
      if pos + 1 >= |msg| || PointerTarget(msg, pos) >= start then Broken
      else match Chain(msg, PointerTarget(msg, pos), PointerTarget(msg, pos))
        case Broken => Broken
        case Whole(t, j, _) => Whole(t, j + 1, pos + 2)
    else if msg[pos] as int > MAX_LABEL || pos + 1 + msg[pos] as int > |msg| then Broken
    else match Chain(msg, start, pos + 1 + msg[pos] as int)
      case Broken => Broken
      case Whole(t, j, n) => Whole(msg[pos + 1..pos + 1 + msg[pos] as int] + [DOT] + t, j, n)
  }

  /** A chain that ends is read as it stands exactly when the jump guard lets it through. */
  lemma {:induction false} ChainIsWalk(msg: Bytes, start: nat, pos: nat, jumps: nat)
    requires start <= pos && jumps <= MAX_JUMPS
    requires Chain(msg, start, pos).Whole?
    ensures var c := Chain(msg, start, pos);
            Walk(msg, pos, jumps) ==
              if jumps + c.jumps <= MAX_JUMPS then Found(c.text, c.jumps, c.next) else Lost(PointerLoop)
    decreases start, |msg| - pos
  {
    if msg[pos] >= 0xC0 {
      if jumps < MAX_JUMPS {
        ChainIsWalk(msg, PointerTarget(msg, pos), PointerTarget(msg, pos), jumps + 1);
      }
    } else if msg[pos] > 0 {
      ChainIsWalk(msg, start, pos + 1 + msg[pos] as int, jumps);
    }
  }

  /** Appending to a message changes no name already in it. */
  lemma {:induction false} ChainExtends(msg: Bytes, longer: Bytes, start: nat, pos: nat)
    requires start <= pos && msg <= longer
    requires Chain(msg, start, pos).Whole?
    ensures Chain(longer, start, pos) == Chain(msg, start, pos)
    decreases start, |msg| - pos
  {
    if msg[pos] >= 0xC0 {
      ChainExtends(msg, longer, PointerTarget(msg, pos), PointerTarget(msg, pos));
    } else if msg[pos] > 0 {
      var n := pos + 1 + msg[pos] as int;
      assert msg[pos + 1..n] == longer[pos + 1..n];
      ChainExtends(msg, longer, start, n);
    }
  }

  lemma {:induction false} ChainLaterStart(msg: Bytes, start: nat, later: nat, pos: nat)
    requires start <= later <= pos
    requires Chain(msg, start, pos).Whole?
    ensures Chain(msg, later, pos) == Chain(msg, start, pos)
    decreases start, |msg| - pos
  {
    if 0 < msg[pos] < 0xC0 {
      ChainLaterStart(msg, start, later, pos + 1 + msg[pos] as int);
    }
  }

  /** The bytes at pos spell text: the chain ends at next, in at most bound jumps. */
  ghost predicate Spells(msg: Bytes, start: nat, pos: nat, text: Bytes, bound: int, next: nat) {
    && start <= pos
    && var c := Chain(msg, start, pos);
    && c.Whole? && c.text == text && c.jumps <= bound && c.next == next
  }

  // ----- writing -----

  /** Bytes appended by one writing step, the table after it, and its error if it failed;
      on failure the bytes are those appended before the failure. */
  datatype Emission = Emission(bytes: Bytes, table: Table, error: Option<Error>)

  function Note(table: Table, suffix: Bytes, offset: nat): Table {
    if offset <= MAX_OFFSET then table[suffix := offset] else table
  }

  function PointerBytes(offset: nat): Bytes
    requires offset <= MAX_OFFSET
  {
    [(offset / 0x100 + 0xC0) as Byte, (offset % 0x100) as Byte]
  }

  /** What writeName appends at offset base for a name without its final dot. */
  function EmitLabels(base: nat, table: Table, s: Bytes): Emission
    decreases |s|
  {
    if s == [] then Emission([], table, None)
    else if s + [DOT] in table then
      if table[s + [DOT]] > MAX_OFFSET then Emission([], table, Some(InvalidPointer))
      else Emission(PointerBytes(table[s + [DOT]]), table, None)
    else if FirstDot(s) > MAX_LABEL then Emission([], table, Some(LabelTooLong))
    else
      var d := FirstDot(s);
      if AfterFirstLabel(s) == [] then
        Emission([d as Byte] + s[..d] + [0], Note(table, s + [DOT], base), None)
      else
        var r := EmitLabels(base + 1 + d, table, AfterFirstLabel(s));
        Emission([d as Byte] + s[..d] + r.bytes, Note(r.table, s + [DOT], base), r.error)
  }

  /** The cases of the loop of writeName. */
  lemma EmitLabelsStep(base: nat, table: Table, s: Bytes)
    requires s != []
    ensures var e, d, rest := EmitLabels(base, table, s), FirstDot(s), AfterFirstLabel(s);
            && (s + [DOT] in table ==>
                  e == if table[s + [DOT]] > MAX_OFFSET then Emission([], table, Some(InvalidPointer))
                       else Emission(PointerBytes(table[s + [DOT]]), table, None))
            && (s + [DOT] !in table && d > MAX_LABEL ==> e == Emission([], table, Some(LabelTooLong)))
            && (s + [DOT] !in table && d <= MAX_LABEL && rest == [] ==>
                  e == Emission([d as Byte] + s[..d] + [0], Note(table, s + [DOT], base), None))
            && (s + [DOT] !in table && d <= MAX_LABEL && rest != [] ==>
                  var r := EmitLabels(base + 1 + d, table, rest);
                  e == Emission([d as Byte] + s[..d] + r.bytes, Note(r.table, s + [DOT], base), r.error))
  {
    hide IndexDot;
  }

  function EmitName(base: nat, table: Table, name: Bytes): Emission {
    var n := NormalizeName(name);
    if n == [DOT] then Emission([0], table, None)
    else EmitLabels(base, table, n[..|n| - 1])
  }

  /** Every label writeName would write for s, a name without its final dot, fits in a label byte. */
  predicate Fits(s: Bytes)
    decreases |s|
  {
    FirstDot(s) <= MAX_LABEL && (AfterFirstLabel(s) == [] || Fits(AfterFirstLabel(s)))
  }

  predicate NameFits(name: Bytes) {
    var n := NormalizeName(name);
    Fits(n[..|n| - 1])
  }

  /** A sound table entry: for a name without empty labels, a reachable offset, at a label byte and never at a pointer, where the
      suffix is spelled out in fewer jumps than it has labels. */
  ghost predicate EntrySound(buf: Bytes, suffix: Bytes, offset: nat) {
    && offset <= MAX_OFFSET
    && offset < |buf|
    && suffix != [] && Fits(suffix[..|suffix| - 1]) && Proper(suffix[..|suffix| - 1])
    && 1 <= buf[offset] as int <= MAX_LABEL
    && var c := Chain(buf, offset, offset);
    && c.Whole? && c.text == suffix && c.jumps < Dots(suffix)
  }

  ghost predicate TableSound(buf: Bytes, limit: nat, table: Table) {
    forall k :: k in table ==> table[k] < limit && EntrySound(buf, k, table[k])
  }

  lemma TableExtends(buf: Bytes, longer: Bytes, limit: nat, further: nat, table: Table)
    requires TableSound(buf, limit, table) && buf <= longer && limit <= further
    ensures TableSound(longer, further, table)
  {
    forall k | k in table
      ensures table[k] < further && EntrySound(longer, k, table[k])
    {
      ChainExtends(buf, longer, table[k], table[k]);
    }
  }

  lemma NoteSound(buf: Bytes, limit: nat, table: Table, suffix: Bytes, offset: nat)
    requires TableSound(buf, limit, table) && offset < limit
    requires offset <= MAX_OFFSET ==> EntrySound(buf, suffix, offset)
    ensures TableSound(buf, limit, Note(table, suffix, offset))
  {
  }

  lemma TableLimit(buf: Bytes, limit: nat, further: nat, table: Table)
    requires TableSound(buf, limit, table) && limit <= further
    ensures TableSound(buf, further, table)
  {
  }

  lemma ChainOfPointer(msg: Bytes, start: nat, pos: nat, offset: nat)
    requires offset < start <= pos && offset <= MAX_OFFSET
    requires At(msg, pos, PointerBytes(offset))
    ensures Chain(msg, start, pos) == match Chain(msg, offset, offset)
              case Broken => Broken
              case Whole(t, j, _) => Whole(t, j + 1, pos + 2)
  {
    assert msg[pos] == msg[pos..pos + 2][0] && msg[pos + 1] == msg[pos..pos + 2][1];
    assert PointerTarget(msg, pos) == offset;
  }

  lemma ChainOfEnd(msg: Bytes, start: nat, pos: nat)
    requires start <= pos && At(msg, pos, [0])
    ensures Chain(msg, start, pos) == Whole([], 0, pos + 1)
  {
    AtOne(msg, pos, 0);
  }

  /** A label in front of a chain lengthens it by that label. */
  lemma ChainOfLabel(msg: Bytes, start: nat, pos: nat, first: Bytes)
    requires start <= pos && 0 < |first| <= MAX_LABEL
    requires At(msg, pos, [|first| as Byte] + first)
    ensures msg[pos] as int == |first|
    ensures Chain(msg, start, pos) == match Chain(msg, start, pos + 1 + |first|)
              case Broken => Broken
              case Whole(t, j, n) => Whole(first + [DOT] + t, j, n)
  {
    AtHead(msg, pos, |first| as Byte, first);
  }

  /** The text of s after its first label and dot. */
  function RestOfName(s: Bytes): Bytes {
    if FirstDot(s) == |s| then [] else AfterFirstLabel(s) + [DOT]
  }

  lemma LabelChain(msg: Bytes, start: nat, pos: nat, s: Bytes, jumps: nat, next: nat)
    requires start <= pos && s != [] && 0 < FirstDot(s) <= MAX_LABEL
    requires At(msg, pos, [FirstDot(s) as Byte] + s[..FirstDot(s)])
    requires Chain(msg, start, pos + 1 + FirstDot(s)) == Whole(RestOfName(s), jumps, next)
    ensures pos < |msg| && msg[pos] as int == FirstDot(s)
    ensures Chain(msg, start, pos) == Whole(s + [DOT], jumps, next)
  {
    hide Chain, IndexDot, At;
    SplitFirstLabel(s);
    AtHead(msg, pos, FirstDot(s) as Byte, s[..FirstDot(s)]);
    ChainOfLabel(msg, start, pos, s[..FirstDot(s)]);
  }

  lemma LabelEntry(msg: Bytes, start: nat, pos: nat, s: Bytes, jumps: nat, next: nat)
    requires start <= pos <= MAX_OFFSET && pos < |msg| && 1 <= msg[pos] as int <= MAX_LABEL
    requires Chain(msg, start, pos) == Whole(s + [DOT], jumps, next) && jumps < Dots(s + [DOT])
    requires Fits(s) && Proper(s)
    ensures EntrySound(msg, s + [DOT], pos)
  {
    hide Chain, Dots, Fits, Proper;
    ChainLaterStart(msg, start, pos, pos);
    assert (s + [DOT])[..|s|] == s;
  }

  /** The step of EmitLabelsSpells that writes a label before the rest of the name. */
  lemma LabelSpells(msg: Bytes, start: nat, pos: nat, s: Bytes, jumps: nat, next: nat)
    requires start <= pos && s != [] && 0 < FirstDot(s) <= MAX_LABEL
    requires At(msg, pos, [FirstDot(s) as Byte] + s[..FirstDot(s)])
    requires Chain(msg, start, pos + 1 + FirstDot(s)) == Whole(RestOfName(s), jumps, next)
    requires jumps <= if FirstDot(s) == |s| then 0 else Dots(AfterFirstLabel(s) + [DOT])
    requires Fits(s) && Proper(s)
    ensures Spells(msg, start, pos, s + [DOT], Dots(s + [DOT]), next)
    ensures pos <= MAX_OFFSET ==> EntrySound(msg, s + [DOT], pos)
  {
    hide Chain, Dots, IndexDot, Fits, Proper, At, EntrySound, RestOfName;
    DotsSplit(s);
    LabelChain(msg, start, pos, s, jumps, next);
    if pos <= MAX_OFFSET {
      LabelEntry(msg, start, pos, s, jumps, next);
    }
  }

  /** What EmitLabels promises of the message that holds what it wrote. */
  ghost predicate Written(msg: Bytes, start: nat, base: nat, s: Bytes, e: Emission) {
    && start <= base && Fits(s) && Proper(s)
    && Spells(msg, start, base, s + [DOT], Dots(s + [DOT]), base + |e.bytes|)
    && TableSound(msg, base + |e.bytes|, e.table)
  }

  lemma PointerWritten(msg: Bytes, start: nat, base: nat, table: Table, s: Bytes)
    requires start <= base && TableSound(msg, start, table)
    requires s + [DOT] in table && At(msg, base, PointerBytes(table[s + [DOT]]))
    ensures Written(msg, start, base, s, Emission(PointerBytes(table[s + [DOT]]), table, None))
  {
    ChainOfPointer(msg, start, base, table[s + [DOT]]);
    TableLimit(msg, start, base + 2, table);
    assert (s + [DOT])[..|s|] == s;
  }

  lemma LastLabelWritten(msg: Bytes, start: nat, base: nat, table: Table, s: Bytes)
    requires start <= base && TableSound(msg, start, table)
    requires s != [] && 0 < FirstDot(s) == |s| <= MAX_LABEL
    requires At(msg, base, [FirstDot(s) as Byte] + s[..FirstDot(s)] + [0])
    ensures Written(msg, start, base, s,
              Emission([FirstDot(s) as Byte] + s[..FirstDot(s)] + [0], Note(table, s + [DOT], base), None))
  {
    hide Chain, Dots, IndexDot;
    var next := base + 2 + |s|;
    AtSplit(msg, base, [FirstDot(s) as Byte] + s[..FirstDot(s)], [0]);
    ChainOfEnd(msg, start, next - 1);
    LabelSpells(msg, start, base, s, 0, next);
    TableLimit(msg, start, next, table);
    NoteSound(msg, next, table, s + [DOT], base);
  }

  lemma InnerLabelWritten(msg: Bytes, start: nat, base: nat, s: Bytes, r: Emission)
    requires start <= base
    requires s != [] && 0 < FirstDot(s) < |s| && FirstDot(s) <= MAX_LABEL
    requires At(msg, base, [FirstDot(s) as Byte] + s[..FirstDot(s)])
    requires Written(msg, start, base + 1 + FirstDot(s), AfterFirstLabel(s), r)
    ensures Written(msg, start, base, s,
              Emission([FirstDot(s) as Byte] + s[..FirstDot(s)] + r.bytes, Note(r.table, s + [DOT], base), r.error))
  {
    hide Chain, Dots, IndexDot;
    var head := [FirstDot(s) as Byte] + s[..FirstDot(s)];
    var next := base + |head| + |r.bytes|;
    LabelSpells(msg, start, base, s, Chain(msg, start, base + |head|).jumps, next);
    NoteSound(msg, next, r.table, s + [DOT], base);
  }

  /** Wherever a proper name is written, it is spelled out there in at most one jump a label,
      and the table stays sound. */
  lemma {:induction false} EmitLabelsSpells(msg: Bytes, start: nat, base: nat, table: Table, s: Bytes)
    requires start <= base && TableSound(msg, start, table)
    requires Proper(s)
    requires EmitLabels(base, table, s).error == None
    requires At(msg, base, EmitLabels(base, table, s).bytes)
    ensures Written(msg, start, base, s, EmitLabels(base, table, s))
    decreases |s|
  {
    hide TableSound, Written, At, Proper, IndexDot, EmitLabels;
    ProperStep(s);
    EmitLabelsStep(base, table, s);
    if s + [DOT] in table {
      PointerWritten(msg, start, base, table, s);
    } else if AfterFirstLabel(s) == [] {
      LastLabelWritten(msg, start, base, table, s);
    } else {
      var head := [FirstDot(s) as Byte] + s[..FirstDot(s)];
      var r := EmitLabels(base + 1 + FirstDot(s), table, AfterFirstLabel(s));
      AtSplit(msg, base, head, r.bytes);
      EmitLabelsSpells(msg, start, base + 1 + FirstDot(s), table, AfterFirstLabel(s));
      InnerLabelWritten(msg, start, base, s, r);
    }
  }

  /** What reading the name at base must give: the normalized name and the offset after it, or,
      for a name of more than 128 labels only, the refusal of its pointers. */
  ghost predicate ReadsBack(r: Result<Named>, name: Bytes, next: nat) {
    || r == Ok(Named(NormalizeName(name), next))
    || (Dots(NormalizeName(name)) > MAX_JUMPS && r == Err(PointerLoop))
  }

  /** Round trip of a name in any message: what writeName puts at base with a sound table is read
      back there, and the table stays sound. */
  lemma NameRoundTrip(msg: Bytes, base: nat, table: Table, name: Bytes)
    requires TableSound(msg, base, table) && ProperName(name)
    requires EmitName(base, table, name).error == None
    requires At(msg, base, EmitName(base, table, name).bytes)
    ensures var e := EmitName(base, table, name);
            && ReadsBack(ReadNameSpec(msg, base), name, base + |e.bytes|)
            && TableSound(msg, base + |e.bytes|, e.table)
  {
    hide EmitLabels, IndexDot, Dots, Proper, At, TableSound, Chain, Walk, Fits;
    var n := NormalizeName(name);
    if n == [DOT] {
      ChainOfEnd(msg, base, base);
      ChainIsWalk(msg, base, base, 0);
      TableLimit(msg, base, base + 1, table);
    } else {
      assert n[..|n| - 1] + [DOT] == n;
      EmitLabelsSpells(msg, base, base, table, n[..|n| - 1]);
      ChainIsWalk(msg, base, base, 0);
    }
  }

  // ----- names that are not read back -----

  lemma WalkOfLabel(msg: Bytes, pos: nat, first: Bytes)
    requires 0 < |first| <= MAX_LABEL && At(msg, pos, [|first| as Byte] + first)
    ensures Walk(msg, pos, 0) == match Walk(msg, pos + 1 + |first|, 0)
              case Lost(e) => Lost(e)
              case Found(t, j, n) => Found(first + [DOT] + t, j, n)
  {
    AtHead(msg, pos, |first| as Byte, first);
  }

  ghost predicate ReadAs(msg: Bytes, base: nat, text: Bytes) {
    Walk(msg, base, 0).Found? && Walk(msg, base, 0).text == text
  }

  lemma InTableIsProper(msg: Bytes, limit: nat, table: Table, s: Bytes)
    requires TableSound(msg, limit, table) && s + [DOT] in table
    ensures Proper(s)
  {
    hide Chain, Dots, Fits, IndexDot;
    assert (s + [DOT])[..|s|] == s;
  }

  /** What writeName puts at base for s starts with its first label. */
  lemma LabelWritten(base: nat, table: Table, s: Bytes)
    requires s != [] && s + [DOT] !in table && EmitLabels(base, table, s).error == None
    ensures FirstDot(s) <= MAX_LABEL
    ensures var head := [FirstDot(s) as Byte] + s[..FirstDot(s)];
            var rest := EmitLabels(base + 1 + FirstDot(s), table, AfterFirstLabel(s));
            EmitLabels(base, table, s).bytes == head + (if AfterFirstLabel(s) == [] then [0] else rest.bytes)
            && (AfterFirstLabel(s) != [] ==> rest.error == None)
  {
    hide IndexDot, EmitLabels;
    EmitLabelsStep(base, table, s);
  }

  lemma EmptyLabelLost(msg: Bytes, base: nat, s: Bytes)
    requires s != [] && base < |msg| && msg[base] == 0
    ensures !ReadAs(msg, base, s + [DOT])
  {
  }

  lemma TrailingLabelLost(msg: Bytes, base: nat, s: Bytes)
    requires s != [] && 0 < FirstDot(s) <= MAX_LABEL && FirstDot(s) < |s| && AfterFirstLabel(s) == []
    requires At(msg, base, [FirstDot(s) as Byte] + s[..FirstDot(s)]) && At(msg, base + 1 + FirstDot(s), [0])
    ensures !ReadAs(msg, base, s + [DOT])
  {
    hide Walk, IndexDot, At;
    var d := FirstDot(s);
    WalkOfLabel(msg, base, s[..d]);
    AtOne(msg, base + 1 + d, 0);
    WalkStops(msg, base + 1 + d, 0);
  }

  lemma InnerLabelLost(msg: Bytes, base: nat, s: Bytes)
    requires s != [] && 0 < FirstDot(s) <= MAX_LABEL && AfterFirstLabel(s) != []
    requires At(msg, base, [FirstDot(s) as Byte] + s[..FirstDot(s)])
    requires !ReadAs(msg, base + 1 + FirstDot(s), AfterFirstLabel(s) + [DOT])
    ensures !ReadAs(msg, base, s + [DOT])
  {
    hide Walk, IndexDot, At;
    var d, rest := FirstDot(s), AfterFirstLabel(s);
    WalkOfLabel(msg, base, s[..d]);
    SplitFirstLabel(s);
    if Walk(msg, base + 1 + d, 0).Found? {
      PrefixCancels(s[..d] + [DOT], Walk(msg, base + 1 + d, 0).text, rest + [DOT]);
    }
  }

  /** A name with an empty label is nowhere read back as it was, whatever the table it is written with. */
  lemma {:induction false} ImproperLabelsLost(msg: Bytes, limit: nat, base: nat, table: Table, s: Bytes)
    requires TableSound(msg, limit, table) && s != [] && !Proper(s)
    requires EmitLabels(base, table, s).error == None
    requires At(msg, base, EmitLabels(base, table, s).bytes)
    ensures !ReadAs(msg, base, s + [DOT])
    decreases |s|
  {
    hide TableSound, At, IndexDot, EmitLabels, ReadAs;
    if s + [DOT] in table {
      InTableIsProper(msg, limit, table, s);
    }
    LabelWritten(base, table, s);
    var head := [FirstDot(s) as Byte] + s[..FirstDot(s)];
    var tail := if AfterFirstLabel(s) == [] then [0] else EmitLabels(base + 1 + FirstDot(s), table, AfterFirstLabel(s)).bytes;
    AtSplit(msg, base, head, tail);
    if FirstDot(s) == 0 {
      AtHead(msg, base, 0, s[..0]);
      EmptyLabelLost(msg, base, s);
    } else if AfterFirstLabel(s) == [] {
      TrailingLabelLost(msg, base, s);
    } else {
      ImproperLabelsLost(msg, limit, base + |head|, table, AfterFirstLabel(s));
      InnerLabelLost(msg, base, s);
    }
  }

  lemma ImproperNameLost(msg: Bytes, base: nat, table: Table, name: Bytes)
    requires TableSound(msg, base, table) && !ProperName(name)
    requires EmitName(base, table, name).error == None
    requires At(msg, base, EmitName(base, table, name).bytes)
    ensures ReadNameSpec(msg, base).Ok? ==> ReadNameSpec(msg, base).value.name != NormalizeName(name)
  {
    hide EmitLabels, Proper, At, Walk, TableSound;
    var n := NormalizeName(name);
    assert n[..|n| - 1] + [DOT] == n;
    ImproperLabelsLost(msg, base, base, table, n[..|n| - 1]);
  }

  /** Exactly: anywhere in a message, after any proper names, a name of at most 128 labels is read
      back as it was if and only if none of its labels is empty. */
  lemma NameRoundTripIff(msg: Bytes, base: nat, table: Table, name: Bytes)
    requires TableSound(msg, base, table) && Dots(NormalizeName(name)) <= MAX_JUMPS
    requires EmitName(base, table, name).error == None
    requires At(msg, base, EmitName(base, table, name).bytes)
    ensures ReadNameSpec(msg, base) == Ok(Named(NormalizeName(name), base + |EmitName(base, table, name).bytes|))
       <==> ProperName(name)
  {
    hide EmitName, ProperName, NormalizeName, At, ReadNameSpec, Dots, TableSound;
    if ProperName(name) {
      NameRoundTrip(msg, base, table, name);
    } else {
      ImproperNameLost(msg, base, table, name);
    }
  }

  // ----- when writing fails, and how much it writes -----

  lemma SoundEntry(msg: Bytes, limit: nat, table: Table, s: Bytes)
    requires TableSound(msg, limit, table) && s + [DOT] in table
    ensures table[s + [DOT]] <= MAX_OFFSET && Fits(s)
  {
    hide Chain, Dots, Fits, Proper, IndexDot;
    assert (s + [DOT])[..|s|] == s;
  }

  lemma NothingEmitted(base: nat, table: Table)
    ensures EmitLabels(base, table, []) == Emission([], table, None) && Fits([])
  {
  }

  /** With a sound table, writing fails exactly when a label is too long; no pointer ever is. */
  lemma {:induction false} EmitLabelsFails(msg: Bytes, limit: nat, base: nat, table: Table, s: Bytes)
    requires TableSound(msg, limit, table)
    ensures EmitLabels(base, table, s).error == if Fits(s) then None else Some(LabelTooLong)
    decreases |s|
  {
    hide TableSound, EmitLabels, FirstDot, AfterFirstLabel;
    NothingEmitted(base, table);
    if s != [] {
      EmitLabelsStep(base, table, s);
      if s + [DOT] in table {
        SoundEntry(msg, limit, table, s);
      } else if FirstDot(s) <= MAX_LABEL && AfterFirstLabel(s) != [] {
        EmitLabelsFails(msg, limit, base + 1 + FirstDot(s), table, AfterFirstLabel(s));
      }
    }
  }

  lemma EmitNameFails(msg: Bytes, limit: nat, base: nat, table: Table, name: Bytes)
    requires TableSound(msg, limit, table)
    ensures EmitName(base, table, name).error == if NameFits(name) then None else Some(LabelTooLong)
  {
    hide EmitLabels, TableSound;
    var n := NormalizeName(name);
    EmitLabelsFails(msg, limit, base, table, n[..|n| - 1]);
  }

  /** A name takes at most one byte more than its dotted form, and one byte at least. */
  lemma {:induction false} EmitLabelsLength(base: nat, table: Table, s: Bytes)
    requires s != [] && EmitLabels(base, table, s).error == None
    ensures 2 <= |EmitLabels(base, table, s).bytes| <= |s| + 2
    decreases |s|
  {
    hide EmitLabels, FirstDot, AfterFirstLabel;
    EmitLabelsStep(base, table, s);
    FirstLabelLength(s);
    if s + [DOT] !in table && AfterFirstLabel(s) != [] {
      EmitLabelsLength(base + 1 + FirstDot(s), table, AfterFirstLabel(s));
    }
  }

  lemma FirstLabelLength(s: Bytes)
    ensures AfterFirstLabel(s) != [] ==> FirstDot(s) + 1 + |AfterFirstLabel(s)| == |s|
  {
    hide IndexDot;
  }

  lemma EmitNameLength(base: nat, table: Table, name: Bytes)
    requires EmitName(base, table, name).error == None
    ensures var size := |EmitName(base, table, name).bytes|;
            1 <= size <= |NormalizeName(name)| + 1 && (NormalizeName(name) in table ==> size <= 2)
  {
    var n := NormalizeName(name);
    if n != [DOT] {
      assert n[..|n| - 1] + [DOT] == n;
      EmitLabelsLength(base, table, n[..|n| - 1]);
    }
  }

  predicate Pointable(table: Table) {
    forall k :: k in table ==> table[k] <= MAX_OFFSET
  }

  lemma NoteKeepsPointable(table: Table, suffix: Bytes, offset: nat)
    requires Pointable(table)
    ensures Pointable(Note(table, suffix, offset))
  {
  }

  /** No entry of the table is ever out of a pointer's reach, whether the name is written or not. */
  lemma {:induction false} LabelsKeepPointable(base: nat, table: Table, s: Bytes)
    requires Pointable(table)
    ensures Pointable(EmitLabels(base, table, s).table)
    decreases |s|
  {
    hide EmitLabels, Pointable, Note, FirstDot, AfterFirstLabel;
    NothingEmitted(base, table);
    if s != [] {
      EmitLabelsStep(base, table, s);
    }
    if s != [] && s + [DOT] !in table && FirstDot(s) <= MAX_LABEL {
      NoteKeepsPointable(table, s + [DOT], base);
      if AfterFirstLabel(s) != [] {
        var rest := EmitLabels(base + 1 + FirstDot(s), table, AfterFirstLabel(s));
        LabelsKeepPointable(base + 1 + FirstDot(s), table, AfterFirstLabel(s));
        NoteKeepsPointable(rest.table, s + [DOT], base);
      }
    }
  }

  lemma NameKeepsPointable(base: nat, table: Table, name: Bytes)
    requires Pointable(table)
    ensures Pointable(EmitName(base, table, name).table)
  {
    hide EmitLabels, Pointable;
    var n := NormalizeName(name);
    LabelsKeepPointable(base, table, n[..|n| - 1]);
  }

  /** What every write leaves in the table: all that was there, and, early in a message, the name. */
  lemma {:induction false} EmitLabelsNotes(base: nat, table: Table, s: Bytes)
    requires s != [] && Fits(s) && Pointable(table)
    ensures var e := EmitLabels(base, table, s);
            && e.error == None && Pointable(e.table) && table.Keys <= e.table.Keys
            && (base <= MAX_OFFSET ==> s + [DOT] in e.table)
    decreases |s|
  {
    hide EmitLabels, FirstDot, AfterFirstLabel;
    EmitLabelsStep(base, table, s);
    if s + [DOT] !in table && AfterFirstLabel(s) != [] {
      EmitLabelsNotes(base + 1 + FirstDot(s), table, AfterFirstLabel(s));
    }
  }

  /** Writing name again from a table with this property takes two bytes at most. */
  predicate Noticed(table: Table, name: Bytes) {
    NormalizeName(name) == [DOT] || NormalizeName(name) in table
  }

  lemma EmitNameNotes(base: nat, table: Table, name: Bytes)
    requires NameFits(name) && Pointable(table)
    ensures var e := EmitName(base, table, name);
            && e.error == None && Pointable(e.table) && table.Keys <= e.table.Keys
            && (base <= MAX_OFFSET ==> Noticed(e.table, name))
            && |e.bytes| <= |NormalizeName(name)| + 1 && (Noticed(table, name) ==> |e.bytes| <= 2)
  {
    hide EmitLabels, Fits, Pointable;
    var n := NormalizeName(name);
    if n != [DOT] {
      assert n[..|n| - 1] + [DOT] == n;
      EmitLabelsNotes(base, table, n[..|n| - 1]);
      EmitNameLength(base, table, name);
    }
  }

  /** Every label and its dot take two bytes at least. */
  lemma {:induction false} DotsBound(s: Bytes)
    requires Proper(s)
    ensures 2 * Dots(s + [DOT]) <= |s| + 1
    decreases |s|
  {
    hide IndexDot, Dots;
    DotsSplit(s);
    if FirstDot(s) < |s| {
      DotsBound(AfterFirstLabel(s));
    }
  }

  /** A name of at most 255 octets whose labels fit in a label byte. */
  predicate Sendable(name: Bytes) {
    NameFits(name) && |NormalizeName(name)| <= NAME_LIMIT
  }

  // ----- which names the codec carries -----

  ghost predicate ReadsExactly(msg: Bytes, base: nat, s: Bytes) {
    Walk(msg, base, 0).Found? && (Walk(msg, base, 0).text == s + [DOT] <==> Proper(s))
  }

  lemma FreshLabelReads(msg: Bytes, base: nat, s: Bytes)
    requires s != [] && 0 < FirstDot(s) <= MAX_LABEL
    requires At(msg, base, [FirstDot(s) as Byte] + s[..FirstDot(s)])
    requires AfterFirstLabel(s) != [] && ReadsExactly(msg, base + 1 + FirstDot(s), AfterFirstLabel(s))
    ensures ReadsExactly(msg, base, s)
  {
    hide Walk, IndexDot, At;
    var d, rest := FirstDot(s), AfterFirstLabel(s);
    WalkOfLabel(msg, base, s[..d]);
    SplitFirstLabel(s);
    PrefixCancels(s[..d] + [DOT], Walk(msg, base + 1 + d, 0).text, rest + [DOT]);
  }

  lemma FreshLastLabelReads(msg: Bytes, base: nat, s: Bytes)
    requires s != [] && 0 < FirstDot(s) <= MAX_LABEL
    requires At(msg, base, [FirstDot(s) as Byte] + s[..FirstDot(s)])
    requires At(msg, base + 1 + FirstDot(s), [0])
    requires AfterFirstLabel(s) == []
    ensures ReadsExactly(msg, base, s)
  {
    hide Walk, IndexDot, At;
    var d := FirstDot(s);
    WalkOfLabel(msg, base, s[..d]);
    AtOne(msg, base + 1 + d, 0);
    WalkStops(msg, base + 1 + d, 0);
    assert |Walk(msg, base, 0).text| == d + 1;
    if d == |s| {
      SplitFirstLabel(s);
    } else {
      assert |s + [DOT]| == d + 2 && FirstDot([]) == 0 && !Proper([]);
    }
  }

  lemma FreshEmptyLabelReads(msg: Bytes, base: nat, s: Bytes)
    requires s != [] && FirstDot(s) == 0 && base < |msg| && msg[base] == 0
    ensures ReadsExactly(msg, base, s)
  {
  }

  lemma {:induction false} FreshLabelsRead(msg: Bytes, base: nat, s: Bytes)
    requires s != [] && EmitLabels(base, map[], s).error == None
    requires At(msg, base, EmitLabels(base, map[], s).bytes)
    ensures ReadsExactly(msg, base, s)
    decreases |s|
  {
    hide Walk, IndexDot, At, ReadsExactly, Proper, EmitLabels;
    LabelWritten(base, map[], s);
    var head := [FirstDot(s) as Byte] + s[..FirstDot(s)];
    var tail := if AfterFirstLabel(s) == [] then [0]
                else EmitLabels(base + 1 + FirstDot(s), map[], AfterFirstLabel(s)).bytes;
    AtSplit(msg, base, head, tail);
    if FirstDot(s) == 0 {
      AtHead(msg, base, 0, s[..0]);
      FreshEmptyLabelReads(msg, base, s);
    } else if AfterFirstLabel(s) == [] {
      FreshLastLabelReads(msg, base, s);
    } else {
      FreshLabelsRead(msg, base + |head|, AfterFirstLabel(s));
      FreshLabelReads(msg, base, s);
    }
  }

  lemma PrefixCancels(a: Bytes, b: Bytes, c: Bytes)
    ensures a + b == a + c <==> b == c
  {
    assert (a + b)[|a|..] == b && (a + c)[|a|..] == c;
  }

  /** A name written at the start of an empty message is read back as it was, up to its final
      dot, exactly when none of its labels is empty. */
  lemma FreshNameRoundTripIff(name: Bytes)
    requires NameFits(name)
    ensures var e := EmitName(0, map[], name);
            && e.error == None
            && ReadNameSpec(e.bytes, 0).Ok?
            && (ReadNameSpec(e.bytes, 0).value.name == NormalizeName(name) <==> ProperName(name))
  {
    hide EmitLabels, Proper;
    EmitNameFails([], 0, 0, map[], name);
    var e := EmitName(0, map[], name);
    var n := NormalizeName(name);
    assert e.bytes[0..|e.bytes|] == e.bytes;
    if n != [DOT] {
      assert n[..|n| - 1] + [DOT] == n;
      FreshLabelsRead(e.bytes, 0, n[..|n| - 1]);
    }
  }

  // ----- the writer's own order of work -----

  /** Noting a longer suffix before writing a name or after it comes to the same. */
  lemma {:induction false} EmitLabelsNoted(base: nat, table: Table, s: Bytes, suffix: Bytes, offset: nat)
    requires |suffix| > |s| + 1
    ensures var e := EmitLabels(base, table, s);
            EmitLabels(base, Note(table, suffix, offset), s)
              == Emission(e.bytes, Note(e.table, suffix, offset), e.error)
    decreases |s|
  {
    hide EmitLabels, FirstDot, AfterFirstLabel, Note;
    NothingEmitted(base, table);
    NothingEmitted(base, Note(table, suffix, offset));
    if s != [] {
      EmitLabelsStep(base, table, s);
      EmitLabelsStep(base, Note(table, suffix, offset), s);
      NoteElsewhere(table, suffix, offset, s + [DOT]);
      NotesCommute(table, s + [DOT], base, suffix, offset);
      if AfterFirstLabel(s) != [] {
        EmitLabelsNoted(base + 1 + FirstDot(s), table, AfterFirstLabel(s), suffix, offset);
        NotesCommute(EmitLabels(base + 1 + FirstDot(s), table, AfterFirstLabel(s)).table,
                     s + [DOT], base, suffix, offset);
      }
    }
  }

  lemma NoteElsewhere(table: Table, suffix: Bytes, offset: nat, other: Bytes)
    requires suffix != other
    ensures var noted := Note(table, suffix, offset);
            (other in noted <==> other in table) && (other in table ==> noted[other] == table[other])
  {
  }

  lemma NotesCommute(table: Table, a: Bytes, i: nat, b: Bytes, j: nat)
    requires a != b
    ensures Note(Note(table, a, i), b, j) == Note(Note(table, b, j), a, i)
  {
  }
}
