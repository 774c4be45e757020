/** Byte-string helpers shared by the fuzzer model: ASCII case folding, substring tests,
    Go's strings.ReplaceAll, decimal rendering and parsing (strconv.Itoa, Atoi, ParseUint)
    and the byte-wise string order used by sort.Strings.
    Every char stands for one byte of a Go string. */
module Text {

  /** The largest value of Go's uint64. */
  const MaxUint64: int := 0xFFFF_FFFF_FFFF_FFFF
  const MaxInt64: int := 0x7FFF_FFFF_FFFF_FFFF
  const MinInt64: int := -0x8000_0000_0000_0000

  type uint64 = x: int | 0 <= x <= MaxUint64

  type byte = x: int | 0 <= x < 256

  /** []byte(s): each char stands for one byte. */
  function Bytes(s: string): (r: seq<byte>)
    ensures |r| == |s|
  {
    seq(|s|, i requires 0 <= i < |s| => (s[i] as int) % 256)
  }

  // ---------------------------------------------------------------- case and substrings

  function LowerChar(c: char): char {
    if 'A' <= c <= 'Z' then (c as int + 32) as char else c
  }

  /** strings.ToLower restricted to ASCII letters. */
  function Lower(s: string): (r: string)
    ensures |r| == |s|
    ensures forall i :: 0 <= i < |s| ==> r[i] == LowerChar(s[i])
  {
    seq(|s|, i requires 0 <= i < |s| => LowerChar(s[i]))
  }

  predicate HasPrefix(s: string, p: string) {
    |p| <= |s| && s[..|p|] == p
  }

  predicate HasSuffix(s: string, p: string) {
    |p| <= |s| && s[|s| - |p|..] == p
  }

  predicate OccursAt(s: string, sub: string, i: int) {
    0 <= i && i + |sub| <= |s| && s[i..i + |sub|] == sub
  }

  /** strings.Contains */
  predicate Contains(s: string, sub: string) {
    exists i :: 0 <= i <= |s| - |sub| && OccursAt(s, sub, i)
  }

  /** `strings.Contains(strings.ToLower(t), "json")`: the test every component uses to
      recognise a JSON media type. */
  predicate IsJsonType(t: string) {
    Contains(Lower(t), "json")
  }

  /** strings.ReplaceAll: leftmost, non-overlapping replacement; an empty `pat` matches
      before every byte and at the end. */
  function ReplaceAll(s: string, pat: string, rep: string): string
    decreases |s|
  {
    if pat == [] then
      if s == [] then rep else rep + [s[0]] + ReplaceAll(s[1..], pat, rep)
    else if |s| < |pat| then s
    else if s[..|pat|] == pat then rep + ReplaceAll(s[|pat|..], pat, rep)
    else [s[0]] + ReplaceAll(s[1..], pat, rep)
  }

  /** Removing every occurrence of one character leaves none behind. */
  lemma {:induction false} RemoveAllChar(s: string, c: char)
    ensures c !in ReplaceAll(s, [c], "")
    ensures |ReplaceAll(s, [c], "")| <= |s|
    decreases |s|
  {
    if |s| >= 1 {
      RemoveAllChar(s[1..], c);
      if s[..1] == [c] {
        assert ReplaceAll(s, [c], "") == ReplaceAll(s[1..], [c], "");
      } else {
        assert s[0] != c;
        assert ReplaceAll(s, [c], "") == [s[0]] + ReplaceAll(s[1..], [c], "");
      }
    }
  }

  /** Text without any occurrence of a non-empty `pat` is left as it is. */
  lemma {:induction false} ReplaceAbsent(s: string, pat: string, rep: string)
    requires pat != []
    requires !Contains(s, pat)
    ensures ReplaceAll(s, pat, rep) == s
    decreases |s|
  {
    if |s| >= |pat| {
      assert !OccursAt(s, pat, 0);
      if !Contains(s[1..], pat) {
        ReplaceAbsent(s[1..], pat, rep);
      } else {
        var i :| 0 <= i <= |s[1..]| - |pat| && OccursAt(s[1..], pat, i);
        assert s[i + 1..i + 1 + |pat|] == s[1..][i..i + |pat|];
        assert OccursAt(s, pat, i + 1);
        assert false;
      }
    }
  }

  /** strings.Join */
  function Join(parts: seq<string>, sep: string): string {
    if parts == [] then ""
    else if |parts| == 1 then parts[0]
    else parts[0] + sep + Join(parts[1..], sep)
  }

  // ---------------------------------------------------------------- decimal numbers

  /** Go's integer division, which truncates toward zero. */
  function Quo(a: int, b: int): int
    requires b > 0
  {
    if a >= 0 then a / b else -((-a) / b)
  }

  predicate IsDigit(c: char) {
    '0' <= c <= '9'
  }

  predicate AllDigits(s: string) {
    forall i :: 0 <= i < |s| ==> IsDigit(s[i])
  }

  function DigitChar(d: nat): (c: char)
    requires d < 10
    ensures IsDigit(c)
  {
    ('0' as int + d) as char
  }

  function DigitValue(c: char): (d: nat)
    requires IsDigit(c)
    ensures d < 10
  {
    c as int - '0' as int
  }

  /** strconv.Itoa on a non-negative number (also fmt's %v of a uint64). */
  function NatToString(n: nat): (r: string)
    decreases n
  {
    if n < 10 then [DigitChar(n)] else NatToString(n / 10) + [DigitChar(n % 10)]
  }

  /** strconv.Itoa */
  function IntToString(i: int): string {
    if i < 0 then "-" + NatToString(-i) else NatToString(i)
  }

  /** The value of a string of decimal digits. */
  function DigitsValue(s: string): nat
    requires AllDigits(s)
    decreases |s|
  {
    if s == [] then 0 else DigitsValue(s[..|s| - 1]) * 10 + DigitValue(s[|s| - 1])
  }

  /** Rendering a number in decimal and reading the digits back gives the number. */
  lemma {:induction false} NatToStringDigits(n: nat)
    ensures |NatToString(n)| > 0
    ensures AllDigits(NatToString(n))
    ensures DigitsValue(NatToString(n)) == n
    decreases n
  {
    var s := NatToString(n);
    if n >= 10 {
      NatToStringDigits(n / 10);
      assert s[..|s| - 1] == NatToString(n / 10);
    }
  }

  /** A rendered number never holds a space, a sign after the first position, or a quote. */
  lemma IntToStringChars(i: int)
    ensures |IntToString(i)| > 0
    ensures forall k :: 0 <= k < |IntToString(i)| ==> IsDigit(IntToString(i)[k]) || IntToString(i)[k] == '-'
  {
    if i < 0 { NatToStringDigits(-i); } else { NatToStringDigits(i); }
  }

  /** strconv.ParseUint(s, 10, 64): Some(value) on success; on a syntax error Go returns 0,
      on a range error the largest uint64, and the result says which. */
  datatype Parsed = Parsed(value: int, ok: bool)

  function ParseUint64(s: string): (r: Parsed)
    ensures 0 <= r.value <= MaxUint64
    ensures r.ok <==> s != [] && AllDigits(s) && DigitsValue(s) <= MaxUint64
  {
    if s == [] || !AllDigits(s) then Parsed(0, false)
    else if DigitsValue(s) > MaxUint64 then Parsed(MaxUint64, false)
    else Parsed(DigitsValue(s), true)
  }

  /** strconv.Atoi: an optional sign and decimal digits; a syntax error gives 0, a value
      outside int64 is clamped; `ok` is false in both cases. */
  function Atoi(s: string): (r: Parsed)
    ensures MinInt64 <= r.value <= MaxInt64
    ensures !r.ok && r.value != 0 ==> s != [] && (r.value == MaxInt64 || r.value == MinInt64)
  {
    var neg := |s| > 0 && s[0] == '-';
    var digits := if |s| > 0 && (s[0] == '-' || s[0] == '+') then s[1..] else s;
    if digits == [] || !AllDigits(digits) then Parsed(0, false)
    else
      var v: int := if neg then 0 - DigitsValue(digits) as int else DigitsValue(digits);
      if v > MaxInt64 then Parsed(MaxInt64, false)
      else if v < MinInt64 then Parsed(MinInt64, false)
      else Parsed(v, true)
  }

  /** Reading back what Itoa wrote gives the number (for every int64). */
  lemma AtoiIntToString(i: int)
    requires MinInt64 <= i <= MaxInt64
    ensures Atoi(IntToString(i)) == Parsed(i, true)
  {
    if i < 0 {
      AtoiNegative(-i);
    } else {
      AtoiNatural(i);
    }
  }

  lemma AtoiNatural(n: nat)
    requires n <= MaxInt64
    ensures Atoi(NatToString(n)) == Parsed(n, true)
  {
    NatToStringDigits(n);
    assert IsDigit(NatToString(n)[0]);
  }

  lemma AtoiNegative(n: nat)
    requires 0 < n <= MaxInt64 + 1
    ensures Atoi("-" + NatToString(n)) == Parsed(-(n as int), true)
  {
    NatToStringDigits(n);
    assert ("-" + NatToString(n))[1..] == NatToString(n);
  }

  /** Reading back what %v wrote for a uint64 gives the number. */
  lemma ParseUintNatToString(n: uint64)
    ensures ParseUint64(NatToString(n)) == Parsed(n, true)
  {
    NatToStringDigits(n);
  }

  // ---------------------------------------------------------------- order and sorting

  /** Byte-wise lexicographic order, as Go compares strings. */
  predicate StrLeq(a: string, b: string)
    decreases |a|
  {
    a == [] || (b != [] && (a[0] < b[0] || (a[0] == b[0] && StrLeq(a[1..], b[1..]))))
  }

  lemma {:induction false} StrLeqRefl(a: string)
    ensures StrLeq(a, a)
    decreases |a|
  {
    if a != [] { StrLeqRefl(a[1..]); }
  }

  lemma {:induction false} StrLeqTotal(a: string, b: string)
    ensures StrLeq(a, b) || StrLeq(b, a)
    decreases |a|
  {
    if a != [] && b != [] && a[0] == b[0] {
      StrLeqTotal(a[1..], b[1..]);
    }
  }

  lemma {:induction false} StrLeqTrans(a: string, b: string, c: string)
    requires StrLeq(a, b) && StrLeq(b, c)
    ensures StrLeq(a, c)
    decreases |a|
  {
    if a != [] && b != [] && c != [] && a[0] == b[0] && b[0] == c[0] {
      StrLeqTrans(a[1..], b[1..], c[1..]);
    }
  }

  lemma {:induction false} StrLeqAntisym(a: string, b: string)
    requires StrLeq(a, b) && StrLeq(b, a)
    ensures a == b
    decreases |a|
  {
    if a != [] {
      StrLeqAntisym(a[1..], b[1..]);
      assert a == [a[0]] + a[1..] && b == [b[0]] + b[1..];
    }
  }

  predicate Sorted(s: seq<string>) {
    forall i, j :: 0 <= i < j < |s| ==> StrLeq(s[i], s[j])
  }

  function Insert(x: string, s: seq<string>): (r: seq<string>)
    ensures multiset(r) == multiset(s) + multiset{x}
    decreases |s|
  {
    if s == [] then [x]
    else if StrLeq(x, s[0]) then [x] + s
    else
      assert s == [s[0]] + s[1..];
      [s[0]] + Insert(x, s[1..])
  }

  lemma {:induction false} InsertSorted(x: string, s: seq<string>)
    requires Sorted(s)
    ensures Sorted(Insert(x, s))
    decreases |s|
  {
    if s != [] {
      if StrLeq(x, s[0]) {
        forall j | 0 <= j < |s| ensures StrLeq(x, s[j]) {
          if j > 0 { StrLeqTrans(x, s[0], s[j]); }
        }
        ConsSorted(x, s);
      } else {
        StrLeqTotal(x, s[0]);
        InsertSorted(x, s[1..]);
        InsertBelow(s[0], x, s[1..]);
        ConsSorted(s[0], Insert(x, s[1..]));
      }
    }
  }

  /** A lower bound of `x` and of every element of `s` bounds what inserting gives. */
  lemma InsertBelow(y: string, x: string, s: seq<string>)
    requires StrLeq(y, x) && forall i :: 0 <= i < |s| ==> StrLeq(y, s[i])
    ensures forall j :: 0 <= j < |Insert(x, s)| ==> StrLeq(y, Insert(x, s)[j])
  {
    var t := Insert(x, s);
    forall j | 0 <= j < |t| ensures StrLeq(y, t[j]) {
      assert t[j] in multiset(t);
      if t[j] != x {
        assert t[j] in multiset(s);
        var k :| 0 <= k < |s| && s[k] == t[j];
      }
    }
  }

  /** A sorted sequence stays sorted under a lower bound put in front. */
  lemma ConsSorted(y: string, t: seq<string>)
    requires Sorted(t) && forall j :: 0 <= j < |t| ==> StrLeq(y, t[j])
    ensures Sorted([y] + t)
  {
    var r := [y] + t;
    forall i, j | 0 <= i < j < |r| ensures StrLeq(r[i], r[j]) {
      if i > 0 {
        assert r[i] == t[i - 1] && r[j] == t[j - 1];
      }
    }
  }

  /** sort.Strings, as an insertion sort over values. */
  function SortStrings(s: seq<string>): (r: seq<string>)
    ensures multiset(r) == multiset(s)
    ensures Sorted(r)
    decreases |s|
  {
    if s == [] then []
    else
      assert s == [s[0]] + s[1..];
      InsertSorted(s[0], SortStrings(s[1..]));
      Insert(s[0], SortStrings(s[1..]))
  }

  /** The head of a sorted sequence is below all of its elements. */
  lemma SortedHead(s: seq<string>, x: string)
    requires Sorted(s) && x in multiset(s)
    ensures s != [] && StrLeq(s[0], x)
  {
    var i :| 0 <= i < |s| && s[i] == x;
    if i == 0 { StrLeqRefl(x); }
  }

  /** Two sorted sequences holding the same strings are equal: the sorted order of a
      set of paths does not depend on the order in which a map was iterated. */
  lemma {:induction false} SortedUnique(a: seq<string>, b: seq<string>)
    requires Sorted(a) && Sorted(b)
    requires multiset(a) == multiset(b)
    ensures a == b
    decreases |a|
  {
    if a == [] {
      assert |b| == |multiset(b)| == 0;
    } else {
      assert a[0] in multiset(a);
      SortedHead(b, a[0]);
      assert b[0] in multiset(b);
      SortedHead(a, b[0]);
      StrLeqAntisym(a[0], b[0]);
      assert a == [a[0]] + a[1..];
      assert b == [b[0]] + b[1..];
      var ma := multiset(a[1..]);
      var mb := multiset(b[1..]);
      assert multiset(a) == multiset{a[0]} + ma;
      assert multiset(b) == multiset{a[0]} + mb;
      forall y ensures ma[y] == mb[y] {
        assert multiset(a)[y] == multiset(b)[y];
      }
      assert ma == mb;
      assert Sorted(a[1..]) && Sorted(b[1..]);
      SortedUnique(a[1..], b[1..]);
    }
  }
}
