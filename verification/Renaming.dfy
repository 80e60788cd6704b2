/** The sequence of names that conflict resolution walks through: incrementNameSuffix of service.go. */
module Renaming {
  import opened Octets
  import opened Names

  const SPACE: Byte := 32
  const OPEN: Byte := 40
  const CLOSE: Byte := 41
  const PLUS: Byte := 43
  const MINUS: Byte := 45
  const ZERO: Byte := 48
  const MAX_INT := 0x7FFF_FFFF_FFFF_FFFF
  const MIN_INT := -0x8000_0000_0000_0000

  // ----- strconv -----

  function Digits(n: nat): Bytes {
    if n < 10 then [ZERO + n as Byte] else Digits(n / 10) + [ZERO + (n % 10) as Byte]
  }

  /** strconv.Itoa */
  function Itoa(i: int): Bytes {
    if i < 0 then [MINUS] + Digits(-i) else Digits(i)
  }

  predicate AllDigits(s: Bytes) {
    forall i :: 0 <= i < |s| ==> ZERO <= s[i] < ZERO + 10
  }

  function Decimal(s: Bytes): nat
    requires AllDigits(s)
  {
    if s == [] then 0 else Decimal(s[..|s| - 1]) * 10 + (s[|s| - 1] - ZERO) as int
  }

  /** strconv.Atoi on a 64-bit platform: an optional sign, digits, and no overflow. */
  function Atoi(s: Bytes): Option<int> {
    var negative := s != [] && s[0] == MINUS;
    var digits := if s != [] && (s[0] == MINUS || s[0] == PLUS) then s[1..] else s;
    if digits == [] || !AllDigits(digits) then None
    else if negative then (if Decimal(digits) > -MIN_INT then None else Some(-(Decimal(digits) as int)))
    else if Decimal(digits) > MAX_INT then None else Some(Decimal(digits))
  }

  /** int64 addition of one. */
  function Successor(n: int): int {
    if n == MAX_INT then MIN_INT else n + 1
  }

  // ----- incrementNameSuffix -----

  predicate Marked(s: Bytes, i: int) {
    0 <= i && i + 1 < |s| && s[i] == SPACE && s[i + 1] == OPEN
  }

  /** strings.LastIndex(s, " ("), looking at indices below limit. */
  function LastMark(s: Bytes, limit: nat): (r: int)
    ensures -1 <= r < limit
    ensures r >= 0 ==> Marked(s, r)
    ensures forall i :: r < i < limit ==> !Marked(s, i)
  {
    if limit == 0 then -1 else if Marked(s, limit - 1) then limit - 1 else LastMark(s, limit - 1)
  }

  datatype Suffixed = Suffixed(stem: nat, number: int)

  /** Where the numbered suffix of name starts and its number; a name without one is its own stem
      with number 1. */
  function SplitSuffix(name: Bytes): (r: Suffixed)
    ensures r.stem <= |name|
  {
    var i := LastMark(name, |name|);
    if i > 0 && i + 2 < |name| && name[|name| - 1] == CLOSE then
      match Atoi(name[i + 2..|name| - 1])
      case Some(n) => if n >= 2 then Suffixed(i, n) else Suffixed(|name|, 1)
      case None => Suffixed(|name|, 1)
    else Suffixed(|name|, 1)
  }

  function WithNumber(stem: Bytes, n: int): Bytes {
    stem + [SPACE, OPEN] + Itoa(n) + [CLOSE]
  }

  function IncrementNameSuffix(name: Bytes): Bytes {
    var s := SplitSuffix(name);
    WithNumber(name[..s.stem], if s.stem < |name| then Successor(s.number) else 2)
  }

  function Renamed(name: Bytes, times: nat): Bytes {
    if times == 0 then name else IncrementNameSuffix(Renamed(name, times - 1))
  }

  // ----- the numbers read back -----

  lemma {:induction false} DigitsRead(n: nat)
    ensures Digits(n) != [] && AllDigits(Digits(n)) && Decimal(Digits(n)) == n
  {
    if n < 10 {
      assert Digits(n)[..0] == [] && Decimal([]) == 0;
    } else {
      DigitsRead(n / 10);
      assert Digits(n)[..|Digits(n)| - 1] == Digits(n / 10);
    }
  }

  lemma ItoaReads(n: int)
    requires MIN_INT <= n <= MAX_INT
    ensures Atoi(Itoa(n)) == Some(n) && Itoa(n) != []
    ensures forall i :: 0 <= i < |Itoa(n)| ==> Itoa(n)[i] == MINUS || ZERO <= Itoa(n)[i] < ZERO + 10
  {
    hide Digits, Decimal;
    if n < 0 {
      DigitsRead(-n);
      assert Itoa(n)[1..] == Digits(-n);
    } else {
      DigitsRead(n);
    }
  }

  lemma LastMarkIs(s: Bytes, limit: nat, i: nat)
    requires i < limit && Marked(s, i) && forall j :: i < j < limit ==> !Marked(s, j)
    ensures LastMark(s, limit) == i
  {
  }

  lemma WithNumberParts(stem: Bytes, n: int)
    requires MIN_INT <= n <= MAX_INT
    ensures var name := WithNumber(stem, n);
            && LastMark(name, |name|) == |stem|
            && |name| > |stem| + 3 && name[|name| - 1] == CLOSE
            && name[|stem| + 2..|name| - 1] == Itoa(n) && name[..|stem|] == stem
  {
    hide Itoa, Atoi;
    var name := WithNumber(stem, n);
    ItoaReads(n);
    assert name[|stem|] == SPACE && name[|stem| + 1] == OPEN;
    assert forall j :: |stem| + 2 <= j < |name| - 1 ==> name[j] == Itoa(n)[j - |stem| - 2];
    LastMarkIs(name, |name|, |stem|);
  }

  /** A numbered name splits into the stem and number it was made of. */
  lemma SplitOfNumbered(stem: Bytes, n: int)
    requires stem != [] && 2 <= n <= MAX_INT
    ensures SplitSuffix(WithNumber(stem, n)) == Suffixed(|stem|, n)
  {
    hide Itoa, Atoi, LastMark, WithNumber;
    WithNumberParts(stem, n);
    ItoaReads(n);
  }

  lemma SplitOfUnnumbered(stem: Bytes, n: int)
    requires MIN_INT <= n < 2
    ensures SplitSuffix(WithNumber(stem, n)) == Suffixed(|WithNumber(stem, n)|, 1)
  {
    hide Itoa, Atoi, LastMark, WithNumber;
    WithNumberParts(stem, n);
    ItoaReads(n);
  }

  lemma SplitNumber(name: Bytes)
    ensures var s := SplitSuffix(name);
            1 <= s.number <= MAX_INT && (s.stem < |name| ==> 0 < s.stem && 2 <= s.number)
            && (s.stem == |name| ==> s.number == 1)
  {
    hide LastMark, AllDigits, Decimal;
  }

  // ----- no name comes twice -----

  /** Every renaming takes a name strictly later in this order, across an overflow of the number too. */
  predicate Later(a: Suffixed, b: Suffixed) {
    a.stem < b.stem || (a.stem == b.stem && a.number < b.number)
  }

  lemma IncrementIsLater(name: Bytes)
    ensures Later(SplitSuffix(name), SplitSuffix(IncrementNameSuffix(name)))
  {
    hide SplitSuffix, WithNumber;
    var s := SplitSuffix(name);
    SplitNumber(name);
    var stem := name[..s.stem];
    if s.stem < |name| {
      if s.number == MAX_INT {
        SplitOfUnnumbered(stem, MIN_INT);
        WithNumberParts(stem, MIN_INT);
      } else {
        SplitOfNumbered(stem, s.number + 1);
      }
    } else if name != [] {
      assert stem == name;
      SplitOfNumbered(name, 2);
    } else {
      EmptyStem();
      WithNumberParts(stem, 2);
    }
  }

  lemma EmptyStem()
    ensures var name := WithNumber([], 2); SplitSuffix(name) == Suffixed(|name|, 1)
  {
    hide Itoa, Atoi, WithNumber;
    WithNumberParts([], 2);
  }

  lemma {:induction false} RenamedIsLater(name: Bytes, i: nat, j: nat)
    requires i < j
    ensures Later(SplitSuffix(Renamed(name, i)), SplitSuffix(Renamed(name, j)))
    decreases j
  {
    hide SplitSuffix, IncrementNameSuffix;
    IncrementIsLater(Renamed(name, j - 1));
    if i < j - 1 {
      RenamedIsLater(name, i, j - 1);
    }
  }

  // ----- in lower case too -----

  lemma LowerMarks(s: Bytes, i: int)
    ensures Marked(LowerName(s), i) == Marked(s, i)
  {
  }

  lemma {:induction false} LowerLastMark(s: Bytes, limit: nat)
    ensures LastMark(LowerName(s), limit) == LastMark(s, limit)
  {
    hide Marked, LowerName;
    if limit > 0 {
      LowerMarks(s, limit - 1);
      LowerLastMark(s, limit - 1);
    }
  }

  lemma LowerDigits(s: Bytes)
    ensures AllDigits(LowerName(s)) == AllDigits(s) && (AllDigits(s) ==> LowerName(s) == s)
  {
    if AllDigits(LowerName(s)) {
      assert forall i :: 0 <= i < |s| ==> LowerName(s)[i] == LowerByte(s[i]);
    }
  }

  lemma LowerAtoi(s: Bytes)
    ensures Atoi(LowerName(s)) == Atoi(s)
  {
    hide Decimal, AllDigits;
    LowerDigits(s);
    if s != [] {
      LowerDigits(s[1..]);
      assert LowerName(s)[1..] == LowerName(s[1..]);
      assert LowerName(s)[0] == LowerByte(s[0]);
    }
  }

  /** Case does not matter to the suffix. */
  lemma LowerSplit(name: Bytes)
    ensures SplitSuffix(LowerName(name)) == SplitSuffix(name)
  {
    hide Atoi, LastMark;
    var i := LastMark(name, |name|);
    LowerLastMark(name, |name|);
    if i > 0 && i + 2 < |name| {
      assert LowerName(name)[i + 2..|name| - 1] == LowerName(name[i + 2..|name| - 1]);
      LowerAtoi(name[i + 2..|name| - 1]);
      assert LowerName(name)[|name| - 1] == LowerByte(name[|name| - 1]);
    }
  }

  /** Renaming never comes back to a name, not even to one that differs only in case: for all
      names and any numbers of renamings, overflow included. */
  lemma RenamingNeverRepeats(name: Bytes, i: nat, j: nat)
    requires i != j
    ensures LowerName(Renamed(name, i)) != LowerName(Renamed(name, j))
  {
    hide SplitSuffix, Renamed, LowerName;
    LowerSplit(Renamed(name, i));
    LowerSplit(Renamed(name, j));
    if i < j {
      RenamedIsLater(name, i, j);
    } else {
      RenamedIsLater(name, j, i);
    }
  }

  /** Whatever finite set of names is taken, at most one renaming for each leads out of it. */
  lemma {:induction false} RenamingEscapes(name: Bytes, start: nat, taken: set<Bytes>) returns (n: nat)
    ensures start <= n <= start + |taken| && LowerName(Renamed(name, n)) !in taken
    decreases |taken|
  {
    hide Renamed, LowerName;
    var here := LowerName(Renamed(name, start));
    if here !in taken {
      n := start;
    } else {
      n := RenamingEscapes(name, start + 1, taken - {here});
      RenamingNeverRepeats(name, start, n);
    }
  }

  /** The closed form: the n-th renaming of a name keeps its stem and adds n to its number. */
  lemma {:induction false} RenamedClosedForm(name: Bytes, n: nat)
    requires name != [] && n > 0 && SplitSuffix(name).number + n <= MAX_INT
    ensures var s := SplitSuffix(name); Renamed(name, n) == WithNumber(name[..s.stem], s.number + n)
  {
    hide SplitSuffix, WithNumber;
    var s := SplitSuffix(name);
    SplitNumber(name);
    if n > 1 {
      RenamedClosedForm(name, n - 1);
      SplitOfNumbered(name[..s.stem], s.number + (n - 1));
      WithNumberParts(name[..s.stem], s.number + (n - 1));
    } else {
      assert Renamed(name, 0) == name;
    }
  }

  // ----- spelled out -----

  /** The decimal form has the digits of the number and no zero in front. */
  lemma {:induction false} NoZeroInFront(n: nat)
    ensures Digits(n) != [] && (Digits(n)[0] == ZERO ==> n == 0)
    ensures n == 120 ==> Digits(n) == [49, 50, 48]
  {
    if n >= 10 {
      NoZeroInFront(n / 10);
    }
    if n == 120 {
      assert Digits(1) == [49] && Digits(12) == Digits(1) + [50] && Digits(120) == Digits(12) + [48];
    }
  }

  /** "S (n)" becomes "S (n+1)" from 2 on, and any name that does not end like that, or with a number
      below 2, gets " (2)" behind it. */
  lemma IncrementMeans(name: Bytes, n: int)
    requires MIN_INT <= n < MAX_INT
    ensures var numbered := name + [32, 40] + Itoa(n) + [41];
            IncrementNameSuffix(numbered) ==
              if name != [] && n >= 2 then name + [32, 40] + Itoa(n + 1) + [41] else numbered + [32, 40, 50, 41]
    ensures name == [] || name[|name| - 1] != 41 ==> IncrementNameSuffix(name) == name + [32, 40, 50, 41]
  {
    hide Itoa, Atoi, LastMark, SplitSuffix;
    var numbered := WithNumber(name, n);
    assert Itoa(2) == [50] by {
      ItoaTwo();
    }
    WithNumberParts(name, n);
    if name == [] || n < 2 {
      SplitPlain(numbered, n);
      assert numbered[..|numbered|] == numbered;
    } else {
      SplitOfNumbered(name, n);
    }
    if name == [] || name[|name| - 1] != 41 {
      SplitUnclosed(name);
      assert name[..|name|] == name;
    }
  }

  lemma ItoaTwo()
    ensures Itoa(2) == [50]
  {
  }

  lemma SplitPlain(name: Bytes, n: int)
    requires MIN_INT <= n <= MAX_INT
    requires name == WithNumber([], n) || (n < 2 && exists stem :: name == WithNumber(stem, n))
    ensures SplitSuffix(name).stem == |name|
  {
    hide Itoa, Atoi, LastMark, WithNumber;
    if name == WithNumber([], n) {
      WithNumberParts([], n);
    } else {
      var stem :| name == WithNumber(stem, n);
      SplitOfUnnumbered(stem, n);
    }
  }

  lemma SplitUnclosed(name: Bytes)
    requires name == [] || name[|name| - 1] != 41
    ensures SplitSuffix(name).stem == |name|
  {
    hide Atoi, LastMark;
  }
}
