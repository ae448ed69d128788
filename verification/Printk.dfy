/** printk's formatter: an in-place loop over a buffer of 100 characters, equal to a single
    pass over the format string. */
module Printk {
  import opened CString
  import Vga

  const BUFFER: nat := 100

  /** The variable arguments, in order: char* as the text it points at, or an int. */
  datatype Arg = Str(text: string) | Int(value: int)

  predicate IsConversion(c: char) { c == 's' || c == 'd' || c == 'h' || c == 'H' }

  /** The argument is of the kind the conversion reads. */
  predicate Suits(c: char, arg: Arg) {
    match arg
    case Str(text) => c == 's' && forall k :: 0 <= k < |text| ==> text[k] != '\0'
    case Int(value) => c != 's' && -0x8000_0000 <= value < 0x8000_0000
  }

  function Render(c: char, arg: Arg): string
    requires IsConversion(c)
  {
    match arg
    case Str(text) => text
    case Int(value) => if c == 'd' then Decimal(value % 0x1_0000_0000) else Hex(value, c == 'H')
  }

  predicate AtConversion(fmt: string) { |fmt| >= 2 && fmt[0] == '%' && IsConversion(fmt[1]) }

  /** One pass: conversions are replaced, every other character is kept. */
  function Format(fmt: string, args: seq<Arg>): string {
    if fmt == "" then ""
    else if AtConversion(fmt) && args != [] then Render(fmt[1], args[0]) + Format(fmt[2..], args[1..])
    else [fmt[0]] + Format(fmt[1..], args)
  }

  /** With `done` characters behind it, the rest of the work has suitable arguments and every
      text on the way fits the buffer. */
  predicate Fits(done: nat, fmt: string, args: seq<Arg>)
    decreases |fmt|
  {
    && done + |fmt| < BUFFER
    && (fmt != "" ==>
          if AtConversion(fmt)
          then args != [] && Suits(fmt[1], args[0]) && Fits(done + |Render(fmt[1], args[0])|, fmt[2..], args[1..])
          else Fits(done + 1, fmt[1..], args))
  }

  /** The result fits where the intermediate texts do. */
  lemma {:induction false} FormatFits(done: nat, fmt: string, args: seq<Arg>)
    requires Fits(done, fmt, args)
    ensures done + |Format(fmt, args)| < BUFFER
    decreases |fmt|
  {
    if fmt == "" {
    } else if AtConversion(fmt) {
      FormatFits(done + |Render(fmt[1], args[0])|, fmt[2..], args[1..]);
    } else {
      FormatFits(done + 1, fmt[1..], args);
    }
  }

  lemma {:induction false} PlainTextIsKept(fmt: string, args: seq<Arg>)
    requires forall k :: 0 <= k < |fmt| ==> fmt[k] != '%'
    ensures Format(fmt, args) == fmt
  {
    if fmt != "" {
      PlainTextIsKept(fmt[1..], args);
    }
  }

  // ----- conversions

  /** t is n in decimal: digits that read back as n, without a leading zero. */
  predicate DecimalText(t: string, n: nat) {
    && 1 <= |t| <= 10 && (t[0] == '0' ==> |t| == 1) && Value(t, 10) == n
    && forall k :: 0 <= k < |t| ==> IsDigit(t[k], 10)
  }

  /** t is n in exactly 8 hexadecimal digits. */
  predicate WordText(t: string, n: nat) {
    |t| == 8 && Value(t, 16) == n && forall k :: 0 <= k < |t| ==> IsDigit(t[k], 16)
  }

  /** What a conversion is to print: %s the text, %d the number in decimal, %h in 8 hexadecimal
      digits, %H the same behind 0x; numbers as 32-bit words. */
  predicate Spells(t: string, c: char, x: Arg) {
    match x
    case Str(text) => c == 's' && t == text
    case Int(value) =>
      var n := value % 0x1_0000_0000;
      match c
      case 'd' => DecimalText(t, n)
      case 'h' => WordText(t, n)
      case 'H' => |t| == 10 && t[..2] == "0x" && WordText(t[2..], n)
      case _ => false
  }

  lemma HexSpells(value: int, need0x: bool)
    ensures var t, n := Hex(value, need0x), value % 0x1_0000_0000;
            if need0x then |t| == 10 && t[..2] == "0x" && WordText(t[2..], n) else WordText(t, n)
  {
    HexReadsBack(value, need0x);
    var t := Hex(value, need0x);
    if need0x {
      forall k | 0 <= k < 8 ensures IsDigit(t[2..][k], 16) { assert IsDigit(t[2 + k], 16); }
    } else {
      assert t[0..] == t;
    }
  }

  lemma RenderSpells(c: char, x: Arg)
    requires (c == 's' || c == 'd' || c == 'h' || c == 'H') && Suits(c, x)
    ensures Spells(Render(c, x), c, x)
  {
    if x.Int? {
      if c == 'd' { DecimalReadsBack(x.value % 0x1_0000_0000); } else { HexSpells(x.value, c == 'H'); }
    }
  }

  /** The conversion and its argument determine the printed text. */
  lemma SpellsOnce(t: string, u: string, c: char, x: Arg)
    requires Spells(t, c, x) && Spells(u, c, x)
    ensures t == u
  {
    if c == 'd' {
      SameNumeral(t, u, 10);
    } else if c == 'h' {
      SameDigits(t, u, 16);
    } else if c == 'H' {
      SameDigits(t[2..], u[2..], 16);
      assert t == t[..2] + t[2..] && u == u[..2] + u[2..];
    }
  }

  /** One step of the pass, at a conversion and at any other character. */
  lemma FormatHead(fmt: string, args: seq<Arg>)
    requires fmt != ""
    ensures !AtConversion(fmt) ==> Format(fmt, args) == [fmt[0]] + Format(fmt[1..], args)
    ensures AtConversion(fmt) && args != [] ==> Format(fmt, args) == Render(fmt[1], args[0]) + Format(fmt[2..], args[1..])
  {}

  lemma FirstOff(a: string, b: string, c: string)
    requires a != ""
    ensures (a + b + c)[1..] == a[1..] + b + c && a + b + c == [a[0]] + (a[1..] + b + c) && (a + b + c)[0] == a[0]
  {}

  /** A plain character in front stays in front. */
  lemma PlainHead(a: string, m: string, b: string, args: seq<Arg>, t: string, r: string)
    requires a != "" && a[0] != '%' && Format(a[1..] + m + b, args) == a[1..] + t + r
    ensures Format(a + m + b, args) == a + t + r
  {
    FirstOff(a, m, b);
    FirstOff(a, t, r);
    FormatHead(a + m + b, args);
  }

  /** A conversion behind plain text prints its argument, and formatting goes on behind the
      conversion: the printed text, with a '%' in it or not, is never read as format. */
  lemma {:induction false} ConversionPrints(a: string, c: char, b: string, x: Arg, xs: seq<Arg>) returns (t: string)
    requires forall k :: 0 <= k < |a| ==> a[k] != '%'
    requires (c == 's' || c == 'd' || c == 'h' || c == 'H') && Suits(c, x)
    ensures Spells(t, c, x) && Format(a + ['%', c] + b, [x] + xs) == a + t + Format(b, xs)
    decreases |a|
  {
    if a == "" {
      t := Render(c, x);
      RenderSpells(c, x);
      HeadPrints(['%', c] + b, c, b, x, xs);
      assert a + ['%', c] + b == ['%', c] + b && a + t + Format(b, xs) == t + Format(b, xs);
    } else {
      t := ConversionPrints(a[1..], c, b, x, xs);
      PlainHead(a, ['%', c], b, [x] + xs, t, Format(b, xs));
    }
  }

  lemma HeadPrints(fmt: string, c: char, b: string, x: Arg, xs: seq<Arg>)
    requires fmt == ['%', c] + b && IsConversion(c)
    ensures Format(fmt, [x] + xs) == Render(c, x) + Format(b, xs)
  {
    FormatHead(fmt, [x] + xs);
    assert fmt[2..] == b && ([x] + xs)[1..] == xs;
  }

  /** A percent sign in front of anything else is printed as it is. */
  lemma {:induction false} PercentIsKept(a: string, b: string, args: seq<Arg>)
    requires forall k :: 0 <= k < |a| ==> a[k] != '%'
    requires b != "" ==> b[0] != 's' && b[0] != 'd' && b[0] != 'h' && b[0] != 'H'
    ensures Format(a + "%" + b, args) == a + "%" + Format(b, args)
    decreases |a|
  {
    if a == "" {
      assert a + "%" + b == "%" + b && a + "%" + Format(b, args) == "%" + Format(b, args);
      FormatHead("%" + b, args);
      assert ("%" + b)[1..] == b;
    } else {
      PercentIsKept(a[1..], b, args);
      PlainHead(a, "%", b, args, "%", Format(b, args));
    }
  }

  // ----- the loop

  lemma Tail(buf: seq<char>, a: string, b: string)
    requires Holds(buf, 0, a + b)
    ensures Holds(buf, |a|, b) && forall k :: 0 <= k < |a| ==> buf[k] == a[k] != '\0'
  {
    forall k | 0 <= k < |b| ensures buf[|a| + k] == b[k] != '\0' { assert (a + b)[|a| + k] == b[k]; }
    forall k | 0 <= k < |a| ensures buf[k] == a[k] != '\0' { assert (a + b)[k] == a[k]; }
  }

  lemma Prefix(buf: seq<char>, a: string, b: string, c: string)
    requires Holds(buf, 0, a + b + c)
    ensures forall k :: 0 <= k < |a| ==> buf[k] == a[k] != '\0'
  {
    assert a + b + c == a + (b + c);
    Tail(buf, a, b + c);
  }

  /** A prefix kept, a string copied behind it and terminated. */
  lemma Joined(before: seq<char>, mid: seq<char>, after: seq<char>, done: string, arg: string)
    requires |done| + |arg| < |before|
    requires forall k :: 0 <= k < |done| ==> before[k] == done[k] != '\0'
    requires forall k :: 0 <= k < |arg| ==> arg[k] != '\0'
    requires mid == Overwrite(before, |done|, arg) && after == mid[|done| + |arg| := '\0']
    ensures Holds(after, 0, done + arg)
  {}

  /** insert_str: the two characters at offset give way to the inserted string. */
  method InsertStr(inserted: array<char>, inserting: array<char>, offset: nat,
                   ghost done: string, ghost two: string, ghost rest: string, ghost arg: string)
    requires inserted != inserting && inserted.Length == BUFFER && |done| == offset && |two| == 2
    requires Holds(inserted[..], 0, done + two + rest) && Holds(inserting[..], 0, arg)
    requires |done| + |arg| + |rest| < BUFFER
    modifies inserted
    ensures Holds(inserted[..], 0, done + arg + rest)
  {
    var m := new char[BUFFER];
    ghost var before := inserted[..];
    Tail(before, done + two, rest);
    StrCpy(m, 0, inserted, offset + 2, rest);
    var len := StrLen(inserting, 0, arg);
    Prefix(before, done, two, rest);
    MemCpy(inserted, offset, inserting, 0, len);
    assert inserting[0..len] == arg;
    ghost var mid := inserted[..];
    inserted[offset + len] := '\0';
    Joined(before, mid, inserted[..], done, arg);
    StrCat(inserted, m, done + arg, rest);
  }

  /** The character the loop looks at, and the next. */
  lemma Ahead(buf: seq<char>, done: string, rest: string)
    requires Holds(buf, 0, done + rest)
    ensures buf[|done|] == if rest == "" then '\0' else rest[0]
    ensures rest != "" ==> rest[0] != '\0' && |done| + 1 < |buf| && buf[|done| + 1] == if |rest| == 1 then '\0' else rest[1]
  {
    Tail(buf, done, rest);
  }

  method ArgText(c: char, arg: Arg) returns (r: array<char>)
    requires IsConversion(c) && Suits(c, arg)
    ensures fresh(r) && Holds(r[..], 0, Render(c, arg))
  {
    match arg
    case Str(text) =>
      r := new char[|text| + 1](k requires k >= 0 => if k < |text| then text[k] else '\0');
    case Int(value) =>
      if c == 'd' {
        r := new char[32];
        UintToString(value % 0x1_0000_0000, r);
      } else {
        var hexstr := new char[11];
        r := Num2HexStr(value, c == 'H', hexstr);
      }
  }

  /** One conversion: the argument's text takes its place, and the offset moves to its last character. */
  method Convert(out: array<char>, offset: nat, c: char, arg: Arg, ghost done: string, ghost rest: string) returns (last: int)
    requires out.Length == BUFFER && |done| == offset && Holds(out[..], 0, done + rest)
    requires AtConversion(rest) && rest[1] == c && Suits(c, arg) && |done| + |Render(c, arg)| + |rest| - 2 < BUFFER
    modifies out
    ensures Holds(out[..], 0, done + Render(c, arg) + rest[2..]) && last == |done + Render(c, arg)| - 1
  {
    var str := ArgText(c, arg);
    assert done + rest == done + rest[..2] + rest[2..];
    InsertStr(out, str, offset, done, rest[..2], rest[2..], Render(c, arg));
    var len := StrLen(str, 0, Render(c, arg));
    last := offset + len - 1;
  }

  /** What the loop has left to do: rest with the arguments from `used` on. */
  ghost predicate Progress(buf: seq<char>, done: string, rest: string, left: seq<Arg>, result: string) {
    |buf| == BUFFER && Holds(buf, 0, done + rest) && Fits(|done|, rest, left) && done + Format(rest, left) == result
  }

  lemma Converted(done: string, rest: string, left: seq<Arg>, result: string)
    requires AtConversion(rest) && Fits(|done|, rest, left) && done + Format(rest, left) == result
    ensures left != [] && Suits(rest[1], left[0]) && |done| + |Render(rest[1], left[0])| + |rest| - 2 < BUFFER
    ensures var d := done + Render(rest[1], left[0]);
            Fits(|d|, rest[2..], left[1..]) && d + Format(rest[2..], left[1..]) == result
  {
    FitsConversion(|done|, rest, left);
    FormatConversion(done, rest, left, Render(rest[1], left[0]), Format(rest[2..], left[1..]));
  }

  lemma FitsConversion(done: nat, rest: string, left: seq<Arg>)
    requires AtConversion(rest) && Fits(done, rest, left)
    ensures left != [] && Suits(rest[1], left[0])
    ensures var n := |Render(rest[1], left[0])|; done + n + |rest| - 2 < BUFFER && Fits(done + n, rest[2..], left[1..])
  {}

  lemma FormatConversion(done: string, rest: string, left: seq<Arg>, text: string, tail: string)
    requires AtConversion(rest) && left != [] && text == Render(rest[1], left[0]) && tail == Format(rest[2..], left[1..])
    ensures done + Format(rest, left) == done + text + tail
  {
    assert done + (text + tail) == done + text + tail;
  }

  lemma Kept(done: string, rest: string, left: seq<Arg>, result: string)
    requires rest != "" && !AtConversion(rest) && Fits(|done|, rest, left) && done + Format(rest, left) == result
    ensures var d := done + [rest[0]]; Fits(|d|, rest[1..], left) && d + Format(rest[1..], left) == result
  {
    var tail := Format(rest[1..], left);
    assert Format(rest, left) == [rest[0]] + tail;
    assert done + ([rest[0]] + tail) == done + [rest[0]] + tail;
  }

  /** One turn of the loop: a conversion replaced, or a character passed. */
  method Turn(out: array<char>, at: nat, args: seq<Arg>, used: nat, ghost done: string, ghost rest: string, ghost result: string)
    returns (offset: nat, used': nat, ghost done': string, ghost rest': string)
    requires |done| == at && used <= |args| && rest != "" && Progress(out[..], done, rest, args[used..], result)
    modifies out
    ensures |done'| == offset && used' <= |args| && |rest'| < |rest| && Progress(out[..], done', rest', args[used'..], result)
  {
    Ahead(out[..], done, rest);
    if out[at] == '%' && IsConversion(out[at + 1]) {
      Converted(done, rest, args[used..], result);
      var last := Convert(out, at, out[at + 1], args[used], done, rest);
      offset := last + 1;
      done', rest', used' := done + Render(rest[1], args[used]), rest[2..], used + 1;
    } else {
      Kept(done, rest, args[used..], result);
      assert done + rest == done + [rest[0]] + rest[1..];
      done', rest', used' := done + [rest[0]], rest[1..], used;
      offset := at + 1;
    }
  }

  /** printk up to the call of kputs: the text it hands over. */
  method FormatText(input: array<char>, ghost fmt: string, args: seq<Arg>) returns (out: array<char>)
    requires Holds(input[..], 0, fmt) && Fits(0, fmt, args)
    ensures fresh(out) && Holds(out[..], 0, Format(fmt, args))
  {
    out := new char[BUFFER];
    StrCpy(out, 0, input, 0, fmt);
    var offset: nat, used: nat := 0, 0;
    ghost var done, rest, result := "", fmt, Format(fmt, args);
    assert done + rest == fmt && args[used..] == args;
    Ahead(out[..], done, rest);
    while out[offset] != '\0'
      invariant |done| == offset && used <= |args| && offset < out.Length && fresh(out)
      invariant Progress(out[..], done, rest, args[used..], result)
      invariant out[offset] == '\0' <==> rest == ""
      decreases |rest|
    {
      offset, used, done, rest := Turn(out, offset, args, used, done, rest, result);
      Ahead(out[..], done, rest);
    }
    assert done + rest == done;
  }

  /** printk: the formatted text, written to the screen in white on black. */
  method Printk(screen: Vga.Screen, input: array<char>, ghost fmt: string, args: seq<Arg>)
    requires screen.Valid() && Holds(input[..], 0, fmt) && Fits(0, fmt, args)
    modifies screen, screen.video
    ensures screen.Valid() && screen.stream == Vga.Written(old(screen.stream), Format(fmt, args), 0x0F)
  {
    ghost var text := Format(fmt, args);
    var out := FormatText(input, fmt, args);
    screen.KPuts(out, text);
  }
}
