/** C strings in character buffers, and the numerals built in them. */
module CString {

  // ----- strings in buffers

  /** The buffer holds `text`, terminated, from position `at`. */
  predicate Holds(buf: seq<char>, at: nat, text: string) {
    && at + |text| < |buf| && buf[at + |text|] == '\0'
    && (forall k :: 0 <= k < |text| ==> buf[at + k] == text[k] && text[k] != '\0')
  }

  /** The first terminator is the string's own. */
  lemma EndsAt(buf: seq<char>, at: nat, text: string, k: nat)
    requires Holds(buf, at, text) && k <= |text|
    ensures buf[at + k] == '\0' <==> k == |text|
  {
    if k < |text| { assert buf[at + k] == text[k]; }
  }

  /** A position holds at most one string. */
  lemma OneText(buf: seq<char>, at: nat, a: string, b: string)
    requires Holds(buf, at, a) && Holds(buf, at, b)
    ensures a == b
  {
    var k := if |a| <= |b| then |a| else |b|;
    EndsAt(buf, at, a, k);
    EndsAt(buf, at, b, k);
    forall k | 0 <= k < |a| ensures a[k] == b[k] { assert a[k] == buf[at + k]; }
  }

  function Overwrite(buf: seq<char>, at: nat, piece: string): seq<char>
    requires at + |piece| <= |buf|
  {
    buf[..at] + piece + buf[at + |piece|..]
  }

  function Flip(s: string): string { seq(|s|, k requires 0 <= k < |s| => s[|s| - 1 - k]) }

  method StrLen(a: array<char>, at: nat, ghost text: string) returns (n: nat)
    requires Holds(a[..], at, text)
    ensures n == |text|
  {
    n := 0;
    while a[at + n] != '\0'
      invariant n <= |text|
      decreases |text| - n
    {
      EndsAt(a[..], at, text, n);
      n := n + 1;
    }
    EndsAt(a[..], at, text, n);
  }

  method MemCpy(dest: array<char>, d: nat, src: array<char>, s: nat, len: nat)
    requires dest != src && d + len <= dest.Length && s + len <= src.Length
    modifies dest
    ensures dest[..] == Overwrite(old(dest[..]), d, src[s..s + len])
  {
    ghost var before := dest[..];
    var i := 0;
    while i < len
      invariant 0 <= i <= len
      invariant forall k :: 0 <= k < dest.Length ==> dest[k] == if d <= k < d + i then src[s + k - d] else before[k]
    {
      dest[d + i] := src[s + i];
      i := i + 1;
    }
    assert dest[..] == Overwrite(before, d, src[s..s + len]);
  }

  method StrCpy(dest: array<char>, d: nat, src: array<char>, s: nat, ghost text: string)
    requires dest != src && Holds(src[..], s, text) && d + |text| < dest.Length
    modifies dest
    ensures dest[..] == Overwrite(old(dest[..]), d, text + ['\0']) && Holds(dest[..], d, text)
  {
    ghost var before := dest[..];
    var i := 0;
    while src[s + i] != '\0'
      invariant 0 <= i <= |text|
      invariant forall k :: 0 <= k < dest.Length ==> dest[k] == if d <= k < d + i then text[k - d] else before[k]
      decreases |text| - i
    {
      EndsAt(src[..], s, text, i);
      dest[d + i] := src[s + i];
      i := i + 1;
    }
    EndsAt(src[..], s, text, i);
    dest[d + i] := '\0';
    assert dest[..] == Overwrite(before, d, text + ['\0']);
  }

  method StrCat(dest: array<char>, src: array<char>, ghost head: string, ghost tail: string)
    requires dest != src && Holds(dest[..], 0, head) && Holds(src[..], 0, tail) && |head| + |tail| < dest.Length
    modifies dest
    ensures Holds(dest[..], 0, head + tail)
  {
    var end := StrLen(dest, 0, head);
    StrCpy(dest, end, src, 0, tail);
  }

  /** What position k holds when h characters at either end have changed places. */
  function Turned(text: string, h: nat, k: nat): char
    requires k < |text|
  {
    if k < h || |text| - h <= k then text[|text| - 1 - k] else text[k]
  }

  ghost predicate TurnedEnds(buf: seq<char>, text: string, h: nat) {
    |text| < |buf| && forall k :: 0 <= k < |text| ==> buf[k] == Turned(text, h, k)
  }

  lemma SwapTurns(before: seq<char>, after: seq<char>, text: string, h: nat)
    requires TurnedEnds(before, text, h) && h < |text| - 1 - h
    requires after == before[h := before[|text| - 1 - h]][|text| - 1 - h := before[h]]
    ensures TurnedEnds(after, text, h + 1)
  {
    forall k | 0 <= k < |text| ensures after[k] == Turned(text, h + 1, k) {
      assert before[k] == Turned(text, h, k);
    }
  }

  lemma AllTurned(buf: seq<char>, text: string, h: nat)
    requires TurnedEnds(buf, text, h) && h >= |text| - 1 - h && buf[|text|] == '\0'
    requires forall k :: 0 <= k < |text| ==> text[k] != '\0'
    ensures Holds(buf, 0, Flip(text))
  {
    forall k | 0 <= k < |text| ensures buf[k] == Flip(text)[k] != '\0' {
      assert buf[k] == Turned(text, h, k);
    }
  }

  /** strrevers: swap from both ends until the positions meet. */
  method StrRevers(a: array<char>, ghost text: string)
    requires Holds(a[..], 0, text)
    modifies a
    ensures Holds(a[..], 0, Flip(text)) && a[|text|..] == old(a[|text|..])
  {
    var len := StrLen(a, 0, text);
    var h: nat, t: int := 0, len - 1;
    while h < t
      invariant h <= t + 2 && t == len - 1 - h
      invariant TurnedEnds(a[..], text, h) && a[len..] == old(a[len..])
    {
      ghost var before := a[..];
      a[h], a[t] := a[t], a[h];
      SwapTurns(before, a[..], text, h);
      h, t := h + 1, t - 1;
    }
    assert a[len..][0] == '\0';
    AllTurned(a[..], text, h);
  }

  // ----- numerals and their values

  const DIGITS: string := "0123456789ABCDEF"

  function Digit(d: nat): (c: char)
    requires d < 16
    ensures c != '\0' && DigitValue(c) == d
  {
    if d < 10 then '0' + d as char else 'A' + (d - 10) as char
  }

  /** The array `bit` of the C code lists the digits in order. */
  lemma DigitsInOrder(d: nat)
    requires d < 16
    ensures DIGITS[d] == Digit(d)
  {}

  function DigitValue(c: char): nat {
    if '0' <= c <= '9' then (c - '0') as nat else if 'A' <= c <= 'F' then (c - 'A') as nat + 10 else 0
  }

  /** The number a string of digits stands for. */
  function Value(s: string, base: nat): nat {
    if s == "" then 0 else Value(s[..|s| - 1], base) * base + DigitValue(s[|s| - 1])
  }

  /** The digits of n, most significant first; none for 0. */
  function Numeral(n: nat, base: nat): string
    requires 2 <= base <= 16
  {
    if n == 0 then "" else Numeral(n / base, base) + [Digit(n % base)]
  }

  lemma ValueAppend(s: string, c: char, base: nat)
    ensures Value(s + [c], base) == Value(s, base) * base + DigitValue(c)
  {
    assert (s + [c])[..|s|] == s;
  }

  lemma Quotient(n: nat, base: nat)
    requires base > 0
    ensures n / base * base + n % base == n
  {}

  lemma Doubled(q: nat, base: nat)
    requires base >= 2
    ensures q * base >= 2 * q
  {
    assert q * base == 2 * q + q * (base - 2);
  }

  /** The last digit of a numeral, and the smaller number before it. */
  lemma LastDigit(n: nat, base: nat) returns (q: nat, d: nat)
    requires 2 <= base <= 16 && n > 0
    ensures q == n / base && d == n % base && q < n && d < base && n == q * base + d
    ensures Numeral(n, base) == Numeral(q, base) + [Digit(d)] && DIGITS[d] == Digit(d)
  {
    q, d := n / base, n % base;
    Quotient(n, base);
    Doubled(q, base);
    DigitsInOrder(d);
  }

  lemma DigitBehind(head: string, q: nat, d: nat, base: nat)
    requires d < base <= 16 && Value(head, base) == q && (q == 0 ==> head == "" && d > 0) && (q > 0 ==> head != "" && head[0] != '0')
    ensures Value(head + [Digit(d)], base) == q * base + d && (head + [Digit(d)])[0] != '0'
  {
    ValueAppend(head, Digit(d), base);
  }

  /** A numeral reads back as its number, and starts with no zero. */
  lemma {:induction false} NumeralReadsBack(n: nat, base: nat)
    requires 2 <= base <= 16
    ensures Value(Numeral(n, base), base) == n
    ensures n > 0 ==> Numeral(n, base) != "" && Numeral(n, base)[0] != '0'
  {
    if n > 0 {
      var q, d := LastDigit(n, base);
      NumeralReadsBack(q, base);
      DigitBehind(Numeral(q, base), q, d, base);
    }
  }

  /** Every character of a numeral is a digit of its base. */
  lemma {:induction false} NumeralDigits(n: nat, base: nat)
    requires 2 <= base <= 16
    ensures forall k :: 0 <= k < |Numeral(n, base)| ==> IsDigit(Numeral(n, base)[k], base)
  {
    if n > 0 {
      var q, d := LastDigit(n, base);
      NumeralDigits(q, base);
    }
  }

  predicate IsDigit(c: char, base: nat) { DigitValue(c) < base && (c == '0' || DigitValue(c) != 0) && c != '\0' }

  function Pow(base: nat, k: nat): nat { if k == 0 then 1 else base * Pow(base, k - 1) }

  lemma DigitOnce(c: char, d: char, base: nat)
    requires base <= 16 && IsDigit(c, base) && IsDigit(d, base) && DigitValue(c) == DigitValue(d)
    ensures c == d
  {}

  lemma SplitOnce(a: nat, b: nat, c: nat, d: nat, base: nat)
    requires a * base + c == b * base + d && c < base && d < base
    ensures a == b && c == d
  {
    if a < b { TimesGrows(b, a + 1, base); }
    if b < a { TimesGrows(a, b + 1, base); }
  }

  /** Texts of one length that stand for one number are the same text. */
  lemma {:induction false} SameDigits(s: string, t: string, base: nat)
    requires 2 <= base <= 16 && |s| == |t| && Value(s, base) == Value(t, base)
    requires forall k :: 0 <= k < |s| ==> IsDigit(s[k], base) && IsDigit(t[k], base)
    ensures s == t
  {
    if s != "" {
      var n := |s| - 1;
      assert IsDigit(s[n], base) && IsDigit(t[n], base);
      SplitOnce(Value(s[..n], base), Value(t[..n], base), DigitValue(s[n]), DigitValue(t[n]), base);
      DigitOnce(s[n], t[n], base);
      SameDigits(s[..n], t[..n], base);
      assert s == s[..n] + [s[n]] && t == t[..n] + [t[n]];
    }
  }

  lemma StaysBelow(v: nat, d: nat, p: nat, base: nat)
    requires v < p && d < base
    ensures v * base + d < base * p
  {
    TimesGrows(p, v + 1, base);
  }

  lemma StaysAbove(v: nat, d: nat, p: nat, base: nat)
    requires p <= v
    ensures base * p <= v * base + d
  {
    TimesGrows(v, p, base);
  }

  lemma {:induction false} ValueBelow(s: string, base: nat)
    requires 2 <= base <= 16 && forall k :: 0 <= k < |s| ==> IsDigit(s[k], base)
    ensures Value(s, base) < Pow(base, |s|)
  {
    if s != "" {
      var n := |s| - 1;
      ValueBelow(s[..n], base);
      assert IsDigit(s[n], base);
      StaysBelow(Value(s[..n], base), DigitValue(s[n]), Pow(base, n), base);
    }
  }

  lemma {:induction false} ValueAbove(s: string, base: nat)
    requires 2 <= base <= 16 && s != "" && s[0] != '0' && forall k :: 0 <= k < |s| ==> IsDigit(s[k], base)
    ensures Pow(base, |s| - 1) <= Value(s, base)
  {
    var n := |s| - 1;
    if n > 0 {
      ValueAbove(s[..n], base);
      assert s[..n][0] == s[0];
      StaysAbove(Value(s[..n], base), DigitValue(s[n]), Pow(base, n - 1), base);
    } else {
      assert IsDigit(s[0], base) && Value(s[..0], base) == 0 && Pow(base, 0) == 1;
    }
  }

  lemma {:induction false} PowGrows(base: nat, j: nat, k: nat)
    requires base >= 1 && j <= k
    ensures 1 <= Pow(base, j) <= Pow(base, k)
  {
    if k > 0 {
      PowGrows(base, if j < k then j else k - 1, k - 1);
      TimesGrows(base, 1, Pow(base, k - 1));
    }
  }

  lemma NotShorter(s: string, t: string, base: nat)
    requires 2 <= base <= 16 && s != "" && Value(s, base) == Value(t, base)
    requires (forall k :: 0 <= k < |s| ==> IsDigit(s[k], base)) && (forall k :: 0 <= k < |t| ==> IsDigit(t[k], base))
    requires s[0] == '0' ==> |s| == 1
    requires t != ""
    ensures |s| <= |t|
  {
    if |t| < |s| {
      ValueBelow(t, base);
      ValueAbove(s, base);
      PowGrows(base, |t|, |s| - 1);
    }
  }

  /** Numerals without a leading zero that stand for one number are the same text. */
  lemma SameNumeral(s: string, t: string, base: nat)
    requires 2 <= base <= 16 && s != "" && t != "" && Value(s, base) == Value(t, base)
    requires (forall k :: 0 <= k < |s| ==> IsDigit(s[k], base)) && (forall k :: 0 <= k < |t| ==> IsDigit(t[k], base))
    requires (s[0] == '0' ==> |s| == 1) && (t[0] == '0' ==> |t| == 1)
    ensures s == t
  {
    NotShorter(s, t, base);
    NotShorter(t, s, base);
    SameDigits(s, t, base);
  }

  lemma QuotientBelow(q: nat, d: nat, base: nat, bound: nat)
    requires q * base + d < base * bound
    ensures q < bound
  {
    TimesGrows(q, bound, base);
  }

  lemma TimesGrows(a: nat, b: nat, c: nat)
    ensures a >= b ==> a * c >= b * c
  {
    if a >= b { assert a * c == b * c + (a - b) * c; }
  }

  lemma {:induction false} NumeralLength(n: nat, base: nat, k: nat)
    requires 2 <= base <= 16 && n < Pow(base, k)
    ensures |Numeral(n, base)| <= k
    decreases k
  {
    if n > 0 {
      var q, d := LastDigit(n, base);
      QuotientBelow(q, d, base, Pow(base, k - 1));
      NumeralLength(q, base, k - 1);
    }
  }

  lemma Associate(a: nat, b: nat, c: nat)
    ensures a * (b * c) == (a * b) * c
  {}

  lemma {:induction false} PowSum(base: nat, j: nat, k: nat)
    ensures Pow(base, j + k) == Pow(base, j) * Pow(base, k)
  {
    if j > 0 {
      PowSum(base, j - 1, k);
      Associate(base, Pow(base, j - 1), Pow(base, k));
    }
  }

  lemma WordNumerals(n: nat)
    requires n < 0x1_0000_0000
    ensures |Numeral(n, 16)| <= 8 && |Numeral(n, 10)| <= 10
  {
    PowSum(16, 4, 4);
    PowSum(10, 5, 5);
    NumeralLength(n, 16, 8);
    NumeralLength(n, 10, 10);
  }

  // ----- decimal

  function Decimal(n: nat): string {
    if n < 10 then [Digit(n)] else Decimal(n / 10) + [Digit(n % 10)]
  }

  lemma {:induction false} DecimalIsNumeral(n: nat)
    ensures Decimal(n) == if n == 0 then "0" else Numeral(n, 10)
  {
    if n >= 10 { DecimalIsNumeral(n / 10); }
  }

  /** For every 32-bit number: 1 to 10 decimal digits, no leading zero, and the number reads back. */
  lemma DecimalReadsBack(n: nat)
    requires n < 0x1_0000_0000
    ensures 1 <= |Decimal(n)| <= 10 && Value(Decimal(n), 10) == n
    ensures Decimal(n)[0] == '0' ==> n == 0 && |Decimal(n)| == 1
    ensures forall k :: 0 <= k < |Decimal(n)| ==> IsDigit(Decimal(n)[k], 10)
  {
    DecimalIsNumeral(n);
    NumeralReadsBack(n, 10);
    NumeralDigits(n, 10);
    WordNumerals(n);
    ValueAppend("", '0', 10);
  }

  /** The loop of uintTostring has written the digits `low`, last one first. */
  ghost predicate Backwards(m: seq<char>, low: string) {
    |low| <= |m| && forall k :: 0 <= k < |low| ==> m[k] == low[|low| - 1 - k]
  }

  lemma DecimalEnd(num: nat, low: string, all: string)
    requires num >= 10 && all == Decimal(num) + low
    ensures all == Decimal(num / 10) + ([Digit(num % 10)] + low)
  {}

  lemma BackwardsNext(m: seq<char>, low: string, c: char)
    requires Backwards(m, low) && |low| < |m|
    ensures Backwards(m[|low| := c], [c] + low)
  {}

  lemma BackwardsText(m: seq<char>, text: string)
    requires Backwards(m, text) && |text| < |m| && m[|text|] == '\0' && forall k :: 0 <= k < |text| ==> text[k] != '\0'
    ensures Holds(m, 0, Flip(text)) && Flip(Flip(text)) == text
  {}

  /** uintTostring, in its static buffer of 32 characters. */
  method UintToString(number: nat, m: array<char>)
    requires number < 0x1_0000_0000 && m.Length == 32
    modifies m
    ensures Holds(m[..], 0, Decimal(number))
  {
    ghost var all, low := Decimal(number), "";
    DecimalReadsBack(number);
    var num: nat, i := number, 0;
    while num >= 10
      invariant |low| == i && all == Decimal(num) + low && Backwards(m[..], low)
      decreases num
    {
      var quotient := num / 10;
      var index := num - quotient * 10;
      DecimalEnd(num, low, all);
      DigitsInOrder(index);
      BackwardsNext(m[..], low, DIGITS[index]);
      m[i] := DIGITS[index];
      low := [DIGITS[index]] + low;
      num, i := quotient, i + 1;
    }
    DigitsInOrder(num);
    BackwardsNext(m[..], low, DIGITS[num]);
    m[i] := DIGITS[num];
    assert all == [DIGITS[num]] + low;
    m[i + 1] := '\0';
    BackwardsText(m[..], all);
    StrRevers(m, Flip(all));
  }

  // ----- hexadecimal

  /** func: the digits of n in the given base, none for 0. */
  method Func(s: array<char>, n: nat, base: nat) returns (r: nat)
    requires 2 <= base <= 16 && |Numeral(n, base)| < s.Length
    modifies s
    ensures Holds(s[..], 0, Numeral(n, base)) && r == if n == 0 then 0 else 1
    decreases n, 1
  {
    if n == 0 {
      var empty := new char[1]['\0'];
      StrCpy(s, 0, empty, 0, "");
      return 0;
    }
    ghost var q, d := LastDigit(n, base);
    FuncDigit(s, n, base, n / base, n % base);
    r := 1;
  }

  /** The rest of func: the digits before the last one, then the last one. */
  method FuncDigit(s: array<char>, ghost n: nat, base: nat, q: nat, d: nat)
    requires 2 <= base <= 16 && d < base && q < n && |Numeral(q, base)| + 1 < s.Length && DIGITS[d] == Digit(d)
    modifies s
    ensures Holds(s[..], 0, Numeral(q, base) + [Digit(d)])
    decreases n, 0
  {
    var _ := Func(s, q, base);
    AppendChar(s, DIGITS[d], Numeral(q, base));
  }

  /** The last steps of func: one character behind the string. */
  method AppendChar(s: array<char>, c: char, ghost head: string)
    requires Holds(s[..], 0, head) && |head| + 1 < s.Length && c != '\0'
    modifies s
    ensures Holds(s[..], 0, head + [c])
  {
    var len := StrLen(s, 0, head);
    s[len] := c;
    s[len + 1] := '\0';
  }

  /** Eight digits, padded with zeros on the left. */
  function Hex8(n: nat): (r: string)
    requires n < 0x1_0000_0000
  {
    WordNumerals(n);
    Zeros(8 - |Numeral(n, 16)|) + Numeral(n, 16)
  }

  function Zeros(k: nat): string { seq(k, i => '0') }

  /** num2hexstr's text: the number modulo 2^32, with "0x" in front on request. */
  function Hex(number: int, need0x: bool): string {
    (if need0x then "0x" else "") + Hex8(number % 0x1_0000_0000)
  }

  lemma {:induction false} ZerosAreZero(k: nat, base: nat)
    ensures Value(Zeros(k), base) == 0
  {
    if k > 0 {
      ZerosAreZero(k - 1, base);
      assert Zeros(k) == Zeros(k - 1) + ['0'];
      ValueAppend(Zeros(k - 1), '0', base);
    }
  }

  lemma {:induction false} ZerosKeepValue(k: nat, s: string, base: nat)
    ensures Value(Zeros(k) + s, base) == Value(s, base)
    decreases |s|
  {
    if s == "" {
      ZerosAreZero(k, base);
      assert Zeros(k) + s == Zeros(k);
    } else {
      var t, c := s[..|s| - 1], s[|s| - 1];
      ZerosKeepValue(k, t, base);
      assert Zeros(k) + s == (Zeros(k) + t) + [c];
      ValueAppend(Zeros(k) + t, c, base);
    }
  }

  /** Exactly 8 hexadecimal digits after the optional prefix, reading back as the number modulo 2^32. */
  lemma HexReadsBack(number: int, need0x: bool)
    ensures var h, skip := Hex(number, need0x), if need0x then 2 else 0;
            && |h| == 8 + skip && h[..skip] == (if need0x then "0x" else "")
            && Value(h[skip..], 16) == number % 0x1_0000_0000
            && forall k :: skip <= k < |h| ==> IsDigit(h[k], 16)
  {
    var n := number % 0x1_0000_0000;
    var digits, skip := Numeral(n, 16), if need0x then 2 else 0;
    WordNumerals(n);
    NumeralReadsBack(n, 16);
    NumeralDigits(n, 16);
    ZerosKeepValue(8 - |digits|, digits, 16);
    assert Hex(number, need0x)[skip..] == Hex8(n);
    forall k | 0 <= k < 8 ensures IsDigit(Hex8(n)[k], 16) {
      if k >= 8 - |digits| { assert Hex8(n)[k] == digits[k - (8 - |digits|)]; }
    }
    forall k | skip <= k < 8 + skip ensures IsDigit(Hex(number, need0x)[k], 16) {
      assert Hex(number, need0x)[k] == Hex8(n)[k - skip];
    }
  }

  /** num2hexstr, in its static buffer of 11 characters; 0 has texts of its own. */
  method Num2HexStr(number: int, need0x: bool, hexstr: array<char>) returns (r: array<char>)
    requires -0x8000_0000 <= number < 0x1_0000_0000 && hexstr.Length == 11
    modifies hexstr
    ensures (r == hexstr || fresh(r)) && Holds(r[..], 0, Hex(number, need0x))
  {
    if number == 0 {
      r := ZeroText(need0x);
      return;
    }
    hexstr[0], hexstr[1] := '0', 'x';
    ghost var text := Hex8(number % 0x1_0000_0000);
    Hex8Clean(number % 0x1_0000_0000);
    var temp := PaddedDigits(number % 0x1_0000_0000);
    if need0x {
      StrCpy(hexstr, 2, temp, 0, text);
      assert hexstr[0] == '0' && hexstr[1] == 'x';
    } else {
      StrCpy(hexstr, 0, temp, 0, text);
      assert Hex(number, need0x) == text;
    }
    r := hexstr;
  }

  lemma Hex8Clean(n: nat)
    requires n < 0x1_0000_0000
    ensures |Hex8(n)| == 8 && forall k :: 0 <= k < 8 ==> Hex8(n)[k] != '\0'
  {
    WordNumerals(n);
    NumeralDigits(n, 16);
  }

  /** The digits, moved to the right end of eight places, and zeros before them. */
  method PaddedDigits(n: nat) returns (temp: array<char>)
    requires 0 < n < 0x1_0000_0000
    ensures fresh(temp) && Holds(temp[..], 0, Hex8(n))
  {
    WordNumerals(n);
    NumeralDigits(n, 16);
    ghost var digits := Numeral(n, 16);
    temp := new char[9];
    var temp2 := new char[9];
    var _ := Func(temp, n, 16);
    StrCpy(temp2, 0, temp, 0, digits);
    var len := StrLen(temp, 0, digits);
    var offset := 8 - len;
    StrCpy(temp, offset, temp2, 0, digits);
    PadZeros(temp, offset, digits);
  }

  /** The loop that fills the places before the digits. */
  method PadZeros(temp: array<char>, offset: nat, ghost digits: string)
    requires Holds(temp[..], offset, digits)
    modifies temp
    ensures Holds(temp[..], 0, Zeros(offset) + digits)
  {
    var i := 0;
    while i < offset
      invariant 0 <= i <= offset && Holds(temp[..], offset, digits)
      invariant forall k :: 0 <= k < i ==> temp[k] == '0'
    {
      temp[i] := '0';
      i := i + 1;
    }
  }

  method ZeroText(need0x: bool) returns (r: array<char>)
    ensures fresh(r) && Holds(r[..], 0, Hex(0, need0x))
  {
    HexOfZero(need0x);
    if need0x {
      r := new char[11]['0', 'x', '0', '0', '0', '0', '0', '0', '0', '0', '\0'];
    } else {
      r := new char[9]['0', '0', '0', '0', '0', '0', '0', '0', '\0'];
    }
  }

  lemma HexOfZero(need0x: bool)
    ensures Hex(0, need0x) == if need0x then "0x00000000" else "00000000"
  {
    assert Hex8(0) == "00000000";
  }
}
