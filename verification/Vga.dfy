/** The text screen: 25 rows of 80 cells that scroll. It is a window on the stream of all
    cells written since it was cleared. */
module Vga {
  import opened CString

  const COLS: nat := 80
  const ROWS: nat := 25
  const CELLS: nat := 2000
  const TAB: nat := 4

  datatype Cell = Cell(c: char, attr: nat)

  const BLANK: Cell := Cell('\0', 0x0F)

  /** The attribute byte for a background and a foreground colour. */
  function Attr(back: nat, fore: nat): nat { back * 16 % 256 + fore % 16 }

  datatype View = View(cells: seq<Cell>, x: nat, y: nat)

  predicate Sized(v: View) { |v.cells| == CELLS && v.x < COLS && v.y < ROWS }

  function Scrolled(cells: seq<Cell>): seq<Cell>
    requires |cells| == CELLS
  {
    cells[COLS..] + seq(COLS, i => BLANK)
  }

  /** One cell at the cursor. */
  function Put(v: View, c: Cell): (w: View)
    requires Sized(v)
    ensures Sized(w)
  {
    var cells := v.cells[v.y * COLS + v.x := c];
    if v.x < COLS - 1 then View(cells, v.x + 1, v.y)
    else if v.y < ROWS - 1 then View(cells, 0, v.y + 1)
    else View(Scrolled(cells), 0, ROWS - 1)
  }

  // ----- the window

  /** The first cell of the stream that is still on the screen. */
  function Base(n: nat): nat { if n / COLS < ROWS then 0 else COLS * (n / COLS - (ROWS - 1)) }

  function At(stream: seq<Cell>, k: nat): Cell { if k < |stream| then stream[k] else BLANK }

  ghost predicate Shows(v: View, stream: seq<Cell>) {
    && Sized(v)
    && v.y * COLS + v.x == |stream| - Base(|stream|)
    && forall i :: 0 <= i < CELLS ==> v.cells[i] == At(stream, Base(|stream|) + i)
  }

  /** The stream determines the screen, cursor included. */
  lemma WindowIsDetermined(v: View, w: View, stream: seq<Cell>)
    requires Shows(v, stream) && Shows(w, stream)
    ensures v == w
  {
    assert v.cells == w.cells;
  }

  /** The cursor column is the stream's length modulo the width, and one more cell scrolls
      exactly when it fills the last row. */
  lemma NextBase(v: View, stream: seq<Cell>)
    requires Shows(v, stream)
    ensures v.x == |stream| % COLS
    ensures Base(|stream| + 1) == Base(|stream|) + if v.x == COLS - 1 && v.y == ROWS - 1 then COLS else 0
  {}

  /** Writing a cell extends the stream under the window. */
  lemma PutExtends(v: View, stream: seq<Cell>, c: Cell)
    requires Shows(v, stream)
    ensures Shows(Put(v, c), stream + [c])
  {
    NextBase(v, stream);
    var w, s, b := Put(v, c), stream + [c], Base(|stream|);
    var cells := v.cells[v.y * COLS + v.x := c];
    forall i | 0 <= i < CELLS ensures cells[i] == At(s, b + i) {
      assert v.cells[i] == At(stream, b + i);
    }
    if v.x == COLS - 1 && v.y == ROWS - 1 {
      forall i | 0 <= i < CELLS ensures w.cells[i] == At(s, b + COLS + i) {
        if i < CELLS - COLS { assert w.cells[i] == cells[COLS + i]; }
      }
    }
  }

  // ----- characters

  function Repeat(c: Cell, k: nat): seq<Cell> { seq(k, i => c) }

  /** What a character adds to the stream: a tab is four blanks, a newline fills the row. */
  function Added(n: nat, c: char, attr: nat): seq<Cell> {
    if c == '\t' then Repeat(Cell('\0', attr), TAB)
    else if c == '\n' then Repeat(Cell('\0', attr), COLS - n % COLS)
    else [Cell(c, attr)]
  }

  function Written(stream: seq<Cell>, text: string, attr: nat): seq<Cell>
    decreases |text|
  {
    if text == "" then stream else Written(stream + Added(|stream|, text[0], attr), text[1..], attr)
  }

  /** A newline takes the stream to the next multiple of the width, never less than one cell on. */
  lemma NewlineFillsRow(stream: seq<Cell>, attr: nat)
    ensures var s := Written(stream, "\n", attr);
            && |s| == (|stream| / COLS + 1) * COLS && s[..|stream|] == stream
            && forall k :: |stream| <= k < |s| ==> s[k] == Cell('\0', attr)
  {
    assert Written(stream, "\n", attr) == stream + Added(|stream|, '\n', attr);
  }

  /** A tab is four blanks in the colours given, wherever the cursor stands. */
  lemma TabIsFourBlanks(stream: seq<Cell>, attr: nat)
    ensures var b := Cell('\0', attr); Written(stream, "\t", attr) == stream + [b, b, b, b]
  {
    var b := Cell('\0', attr);
    assert Added(|stream|, '\t', attr) == [b, b, b, b];
    assert Written(stream, "\t", attr) == stream + Added(|stream|, '\t', attr);
  }

  /** The attribute byte has the background in its high half and the foreground in its low
      half, whatever the two enumeration values are. */
  lemma AttrFields(back: nat, fore: nat)
    ensures var a := Attr(back, fore); a < 256 && a / 16 == back % 16 && a % 16 == fore % 16
  {
    var q, r := back / 16, back % 16;
    assert back * 16 == 256 * q + 16 * r;
    assert back * 16 % 256 == 16 * r;
  }

  /** Text without tabs and newlines goes to the stream character by character. */
  lemma {:induction false} PlainTextIsShown(stream: seq<Cell>, text: string, attr: nat)
    requires forall k :: 0 <= k < |text| ==> text[k] != '\t' && text[k] != '\n'
    ensures Written(stream, text, attr) == stream + seq(|text|, k requires 0 <= k < |text| => Cell(text[k], attr))
    decreases |text|
  {
    if text != "" {
      PlainTextIsShown(stream + [Cell(text[0], attr)], text[1..], attr);
    }
  }

  lemma {:induction false} WrittenAppend(stream: seq<Cell>, a: string, b: string, attr: nat)
    ensures Written(stream, a + b, attr) == Written(Written(stream, a, attr), b, attr)
    decreases |a|
  {
    if a == "" {
      assert a + b == b;
    } else {
      assert (a + b)[1..] == a[1..] + b;
      WrittenAppend(stream + Added(|stream|, a[0], attr), a[1..], b, attr);
    }
  }

  // ----- clearing

  /** After m blanks from the top left corner, whatever was there before. */
  predicate Cleared(v: View, m: nat) {
    && Sized(v) && m <= CELLS
    && (forall k :: 0 <= k < m ==> v.cells[k] == BLANK)
    && (if m < CELLS then v.y * COLS + v.x == m else v.y == ROWS - 1)
  }

  lemma ClearedStep(v: View, m: nat)
    requires Cleared(v, m) && m < CELLS
    ensures Cleared(Put(v, BLANK), m + 1)
  {}

  // ----- the screen

  class Screen {
    const video: array<Cell>
    var x: nat
    var y: nat
    ghost var stream: seq<Cell>

    ghost predicate Ready()
      reads this
    {
      video.Length == CELLS && x < COLS && y < ROWS
    }

    ghost function Now(): View
      reads this, video
    {
      View(video[..], x, y)
    }

    ghost predicate Valid()
      reads this, video
    {
      Ready() && Shows(Now(), stream)
    }

    /** vga_init: start on whatever the video memory holds, and clear it. */
    constructor (video: array<Cell>)
      requires video.Length == CELLS
      modifies video
      ensures Valid() && stream == [] && this.video == video && forall k :: 0 <= k < CELLS ==> video[k] == Cell('\0', 0x0F)
    {
      this.video, x, y, stream := video, 0, 0, [];
      new;
      ClearScreen();
    }

    /** clear_screen: 2000 blanks, and the cursor back in the corner. */
    method ClearScreen()
      requires Ready()
      modifies this, video
      ensures Valid() && stream == [] && x == 0 && y == 0
      ensures forall k :: 0 <= k < CELLS ==> video[k] == Cell('\0', 0x0F)
    {
      x, y := 0, 0;
      var j := 0;
      while j < 25
        invariant 0 <= j <= 25 && Ready() && Cleared(Now(), j * COLS)
      {
        var i := 0;
        while i < 80
          invariant 0 <= i <= 80 && Ready() && Cleared(Now(), j * COLS + i)
        {
          ClearedStep(Now(), j * COLS + i);
          PutCell(Cell('\0', Attr(0, 15)));
          i := i + 1;
        }
        j := j + 1;
      }
      x, y, stream := 0, 0, [];
    }

    /** screen_uproll_once. */
    method UprollOnce()
      requires Ready()
      modifies video, `y
      ensures Ready() && video[..] == Scrolled(old(video[..])) && y == if old(y) == 0 then 0 else old(y) - 1
    {
      ghost var before := video[..];
      var j := 1;
      while j < 25
        invariant 1 <= j <= 25 && y == old(y)
        invariant Moved(before, video[..], (j - 1) * COLS)
      {
        var i := 0;
        while i < 80
          invariant 0 <= i <= 80 && y == old(y)
          invariant Moved(before, video[..], (j - 1) * COLS + i)
        {
          video[(j - 1) * 80 + i] := video[j * 80 + i];
          i := i + 1;
        }
        j := j + 1;
      }
      var i := 0;
      while i < 80
        invariant 0 <= i <= 80 && y == old(y)
        invariant forall k :: 0 <= k < CELLS - COLS ==> video[k] == before[k + COLS]
        invariant forall k :: CELLS - COLS <= k < CELLS - COLS + i ==> video[k] == BLANK
      {
        video[24 * 80 + i] := Cell('\0', 0x0F);
        i := i + 1;
      }
      assert video[..] == Scrolled(before);
      if y != 0 { y := y - 1; }
    }

    /** vga_putc, with its attribute already in the cell. */
    method PutCell(c: Cell)
      requires Ready()
      modifies video, `x, `y
      ensures Ready() && Now() == Put(old(Now()), c)
    {
      video[y * 80 + x] := c;
      ghost var cells := video[..];
      if x == 79 {
        if y == 24 {
          UprollOnce();
          x, y := 0, 24;
        } else {
          x, y := 0, y + 1;
        }
      } else {
        x := x + 1;
      }
    }

    method PutMany(c: Cell, k: nat)
      requires Valid()
      modifies this, video
      ensures Valid() && stream == old(stream) + Repeat(c, k)
    {
      var i := 0;
      while i < k
        invariant 0 <= i <= k && Valid() && stream == old(stream) + Repeat(c, i)
      {
        PutExtends(Now(), stream, c);
        PutCell(c);
        stream := stream + [c];
        i := i + 1;
      }
    }

    /** kputc_color. */
    method KPutCColor(input: char, back: nat, fore: nat)
      requires Valid()
      modifies this, video
      ensures Valid() && stream == old(stream) + Added(|old(stream)|, input, Attr(back, fore))
    {
      if input == '\t' {
        PutMany(Cell('\0', Attr(back, fore)), 4);
      } else if input == '\n' {
        NextBase(Now(), stream);
        PutMany(Cell('\0', Attr(back, fore)), 80 - x);
      } else {
        PutMany(Cell(input, Attr(back, fore)), 1);
      }
    }

    /** kputs_color. */
    method KPutsColor(input: array<char>, back: nat, fore: nat, ghost text: string)
      requires Valid() && Holds(input[..], 0, text)
      modifies this, video
      ensures Valid() && stream == Written(old(stream), text, Attr(back, fore))
    {
      var probe := 0;
      assert text[0..] == text;
      while input[probe] != '\0'
        invariant 0 <= probe <= |text| && Valid()
        invariant Written(stream, text[probe..], Attr(back, fore)) == Written(old(stream), text, Attr(back, fore))
        decreases |text| - probe
      {
        EndsAt(input[..], 0, text, probe);
        assert text[probe..][1..] == text[probe + 1..];
        KPutCColor(input[probe], back, fore);
        probe := probe + 1;
      }
      EndsAt(input[..], 0, text, probe);
    }

    /** kputs: white on black. */
    method KPuts(input: array<char>, ghost text: string)
      requires Valid() && Holds(input[..], 0, text)
      modifies this, video
      ensures Valid() && stream == Written(old(stream), text, 0x0F)
    {
      KPutsColor(input, 0, 15, text);
    }
  }

  predicate Moved(before: seq<Cell>, now: seq<Cell>, m: nat) {
    && |before| == |now| == CELLS && m <= CELLS - COLS
    && (forall k :: 0 <= k < m ==> now[k] == before[k + COLS])
    && (forall k :: m <= k < CELLS ==> now[k] == before[k])
  }
}
