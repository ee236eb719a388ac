// The text console on the front display (lcd/lcd-console.c over lcd/lcd-ks0713.c).
//
// The specification is a sheet of paper: text fills lines of 15 cells, and the display shows eight
// of them.  Scrolling is lazy: a newline on the last visible line only moves the cursor below the
// display, and the picture moves when the next line is needed.

module LcdConsole {
  import opened Integers

  const MAX_COL := 15
  const MAX_ROW := 8
  const LCD_ROWS := 8
  const LCD_COLS := 120
  const LCD_BUFFER_SIZE := LCD_ROWS * LCD_COLS
  const RAM_PAGES := 9            // the controller has one page below the visible ones
  const RAM_COLS := 132           // and twelve columns right of the visible ones
  const NEWLINE: Byte := 0x0A
  const SPACE: Byte := 0x20

  // ---------- The sheet ----------

  datatype Cell = Blank | Glyph(c: Byte)
  type Row = r: seq<Cell> | |r| == MAX_COL witness seq(MAX_COL, _ => Blank)

  datatype Sheet = Sheet(lines: seq<Row>, col: nat)

  // The first eight lines start empty, later ones are drawn as spaces before they are used.
  function Fresh(line: nat): Row {
    seq(MAX_COL, _ => if line < MAX_ROW then Blank else Glyph(SPACE))
  }

  const EMPTY_SHEET := Sheet([Fresh(0)], 0)

  predicate Proper(s: Sheet) {
    && |s.lines| > 0 && s.col <= MAX_COL
    && (s.col == 0 ==> s.lines[|s.lines| - 1] == Fresh(|s.lines| - 1))
  }

  function Last(s: Sheet): nat
    requires Proper(s)
  {
    |s.lines| - 1
  }

  function Padded(r: Row, col: nat): Row {
    seq(MAX_COL, c requires 0 <= c < MAX_COL => if c < col then r[c] else Glyph(SPACE))
  }

  // One byte of text.
  function Feed(s: Sheet, b: Byte): (s': Sheet)
    requires Proper(s)
    ensures Proper(s')
  {
    if b == NEWLINE then
      Sheet(s.lines[Last(s) := Padded(s.lines[Last(s)], s.col)] + [Fresh(|s.lines|)], 0)
    else if s.col == MAX_COL then
      Sheet(s.lines + [Fresh(|s.lines|)[0 := Glyph(b)]], 1)
    else
      Sheet(s.lines[Last(s) := s.lines[Last(s)][s.col := Glyph(b)]], s.col + 1)
  }

  function FeedAll(s: Sheet, data: seq<Byte>): (s': Sheet)
    requires Proper(s)
    ensures Proper(s')
    decreases |data|
  {
    if |data| == 0 then s else Feed(FeedAll(s, data[..|data| - 1]), data[|data| - 1])
  }

  // Byte 0x0A ends a line: the rest of it becomes spaces (0x20), and a new one starts behind it, empty for
  // the first eight lines and of spaces later.
  lemma NewlineIs(s: Sheet, c: nat)
    requires Proper(s) && c < 15
    ensures var t, n := Feed(s, 0x0A), |s.lines|;
            && |t.lines| == n + 1 && t.col == 0 && t.lines[..n - 1] == s.lines[..n - 1]
            && t.lines[n - 1][c] == (if c < s.col then s.lines[n - 1][c] else Glyph(0x20))
            && t.lines[n][c] == if n < 8 then Blank else Glyph(0x20)
  {
  }

  // Any other byte stands at the cursor, on a new line if the line is full.
  lemma CharacterIs(s: Sheet, b: Byte, c: nat)
    requires Proper(s) && b != 0x0A && c < 15
    ensures var t, n := Feed(s, b), |s.lines|;
            if s.col < 15 then
              && |t.lines| == n && t.col == s.col + 1 && t.lines[..n - 1] == s.lines[..n - 1]
              && t.lines[n - 1][c] == if c == s.col then Glyph(b) else s.lines[n - 1][c]
            else
              && |t.lines| == n + 1 && t.col == 1 && t.lines[..n] == s.lines
              && t.lines[n][c] == if c == 0 then Glyph(b) else if n < 8 then Blank else Glyph(0x20)
  {
  }

  // A stream without newlines fills the lines one after another, fifteen characters each.
  lemma {:induction false} PlainText(data: seq<Byte>, i: nat)
    requires i < |data| && NEWLINE !in data
    ensures var s := FeedAll(EMPTY_SHEET, data);
            && Last(s) == (|data| - 1) / MAX_COL && s.col == (|data| - 1) % MAX_COL + 1
            && s.lines[i / MAX_COL][i % MAX_COL] == Glyph(data[i])
    decreases |data|
  {
    var n := |data| - 1;
    if n > 0 {
      var t := data[..n];
      PlainText(t, if i < n then i else 0);
      assert t[..n - 1] == data[..n - 1];
    }
  }

  // First visible line: a started line is always visible, an untouched one may lie below the display.
  function Top(s: Sheet): nat
    requires Proper(s)
  {
    var below := if s.col == 0 then MAX_ROW else MAX_ROW - 1;
    if Last(s) <= below then 0 else Last(s) - below
  }

  const BLANK_ROW := Fresh(0)

  // The p-th visible line.
  function LineAt(s: Sheet, p: nat): Row
    requires Proper(s)
  {
    if Top(s) + p < |s.lines| then s.lines[Top(s) + p] else BLANK_ROW
  }

  // The eight visible lines.
  type Grid = g: seq<Row> | |g| == MAX_ROW witness seq(MAX_ROW, _ => seq(MAX_COL, _ => Blank))

  function Window(s: Sheet): (g: Grid)
    requires Proper(s)
    ensures forall p :: 0 <= p < MAX_ROW ==> g[p] == LineAt(s, p)
  {
    seq(MAX_ROW, p requires 0 <= p < MAX_ROW => LineAt(s, p))
  }

  function CursorRow(s: Sheet): nat
    requires Proper(s)
  {
    Last(s) - Top(s)
  }

  // What the driver does to the grid.
  function Put(g: Grid, row: nat, col: nat, b: Byte): Grid
    requires row < MAX_ROW && col < MAX_COL
  {
    g[row := g[row][col := Glyph(b)]]
  }

  function BlankFrom(g: Grid, row: nat, col: nat): Grid
    requires row < MAX_ROW
  {
    g[row := Padded(g[row], col)]
  }

  function ScrollUp(g: Grid): Grid { g[1..] + [BLANK_ROW] }

  // The display shows the last eight lines; a line that has just been started below them does not count.
  lemma WindowIsTail(s: Sheet, p: nat)
    requires Proper(s) && p < 8
    ensures var n := if s.col == 0 && |s.lines| > 1 then |s.lines| - 1 else |s.lines|;
            && (n >= 8 ==> Window(s)[p] == s.lines[n - 8 + p])
            && (n < 8 && p < n ==> Window(s)[p] == s.lines[p])
            && (n < 8 && n <= p ==> forall c :: 0 <= c < 15 ==> Window(s)[p][c] == Blank)
  {
  }

  // A window is what its lines are.
  lemma WindowIs(s: Sheet, g: Grid)
    requires Proper(s) && forall p :: 0 <= p < MAX_ROW ==> LineAt(s, p) == g[p]
    ensures Window(s) == g
  {
  }

  lemma BlankPadded(r: Row)
    ensures Padded(r, 0) == Fresh(MAX_ROW)
  {
  }

  // The steps of the driver follow the sheet.
  lemma NewLineWindow(s: Sheet)
    requires Proper(s)
    ensures CursorRow(s) <= MAX_ROW && (CursorRow(s) == MAX_ROW ==> s.col == 0)
    ensures CursorRow(s) < MAX_ROW ==>
              && Window(Feed(s, NEWLINE)) == BlankFrom(Window(s), CursorRow(s), s.col)
              && CursorRow(Feed(s, NEWLINE)) == CursorRow(s) + 1
    ensures CursorRow(s) == MAX_ROW ==>
              && Window(Feed(s, NEWLINE)) == BlankFrom(ScrollUp(Window(s)), MAX_ROW - 1, 0)
              && CursorRow(Feed(s, NEWLINE)) == MAX_ROW
  {
    if CursorRow(s) == MAX_ROW {
      ScrolledWindow(s);
    } else {
      var t, g := Feed(s, NEWLINE), BlankFrom(Window(s), CursorRow(s), s.col);
      assert Top(t) == Top(s);
      forall p | 0 <= p < MAX_ROW ensures LineAt(t, p) == g[p] { NewLineAt(s, p); }
      WindowIs(t, g);
    }
  }

  lemma NewLineAt(s: Sheet, p: nat)
    requires Proper(s) && CursorRow(s) < MAX_ROW && p < MAX_ROW
    ensures LineAt(Feed(s, NEWLINE), p) == if p == CursorRow(s) then Padded(LineAt(s, p), s.col) else LineAt(s, p)
  {
    if Top(s) + p == |s.lines| { assert Fresh(|s.lines|) == BLANK_ROW; }
  }

  lemma ScrolledWindow(s: Sheet)
    requires Proper(s) && CursorRow(s) == MAX_ROW
    ensures Window(Feed(s, NEWLINE)) == BlankFrom(ScrollUp(Window(s)), MAX_ROW - 1, 0)
  {
    var t, g := Feed(s, NEWLINE), BlankFrom(ScrollUp(Window(s)), MAX_ROW - 1, 0);
    BlankPadded(s.lines[Last(s)]);
    BlankPadded(BLANK_ROW);
    forall p | 0 <= p < MAX_ROW ensures LineAt(t, p) == g[p] {
      assert p < MAX_ROW - 1 ==> g[p] == LineAt(s, p + 1);
    }
    WindowIs(t, g);
  }

  // A full line continues on a fresh one.
  function Wrapped(s: Sheet): (s': Sheet)
    requires Proper(s)
    ensures Proper(s')
  {
    Sheet(s.lines + [Fresh(|s.lines|)], 0)
  }

  lemma WrappedWindow(s: Sheet, b: Byte)
    requires Proper(s) && s.col == MAX_COL && b != NEWLINE
    ensures Window(Wrapped(s)) == Window(s) && CursorRow(Wrapped(s)) == CursorRow(s) + 1
    ensures Feed(Wrapped(s), b) == Feed(s, b)
  {
    var t := Wrapped(s);
    forall p | 0 <= p < MAX_ROW ensures LineAt(t, p) == Window(s)[p] {
      if Top(s) + p == |s.lines| { assert Fresh(|s.lines|) == BLANK_ROW; }
    }
    WindowIs(t, Window(s));
    assert Feed(t, b).lines == Feed(s, b).lines;
  }

  lemma CharWindow(s: Sheet, b: Byte)
    requires Proper(s) && s.col < MAX_COL && b != NEWLINE
    ensures CursorRow(s) < MAX_ROW ==>
              && Window(Feed(s, b)) == Put(Window(s), CursorRow(s), s.col, b)
              && CursorRow(Feed(s, b)) == CursorRow(s)
    ensures CursorRow(s) == MAX_ROW ==>
              && Window(Feed(s, b)) == Put(Window(Feed(s, NEWLINE)), MAX_ROW - 1, 0, b)
              && CursorRow(Feed(s, b)) == MAX_ROW - 1
  {
    var t := Feed(s, b);
    if CursorRow(s) == MAX_ROW {
      var n := Feed(s, NEWLINE);
      var g := Put(Window(n), MAX_ROW - 1, 0, b);
      BlankPadded(s.lines[Last(s)]);
      assert Fresh(Last(s)) == Fresh(MAX_ROW);
      assert Top(t) == Top(n) == Last(s) - (MAX_ROW - 1);
      forall p | 0 <= p < MAX_ROW ensures LineAt(t, p) == g[p] {
        assert g[p] == if p == MAX_ROW - 1 then LineAt(n, p)[0 := Glyph(b)] else LineAt(n, p);
      }
      WindowIs(t, g);
    } else {
      var g := Put(Window(s), CursorRow(s), s.col, b);
      assert Top(t) == Top(s);
      forall p | 0 <= p < MAX_ROW ensures LineAt(t, p) == g[p] {
      }
      WindowIs(t, g);
    }
  }

  // ---------- Pixels of a byte ----------

  // Pixel i of a column of eight, the lowest bit first.
  function Dot(b: nat, i: nat): nat { if i == 0 then b % 2 else Dot(b / 2, i - 1) }

  function One(i: nat): nat { if i == 0 then 1 else 2 * One(i - 1) }

  // b | (1 << i) and b & ~(1 << i).
  function OrBit(b: nat, i: nat): nat { if Dot(b, i) == 1 then b else b + One(i) }
  function AndNotBit(b: nat, i: nat): int { if Dot(b, i) == 0 then b else b - One(i) }

  function Painted(v: int, was: nat): int { if v == 1 then 1 else if v == 2 then 1 - was else 0 }

  lemma {:induction false} DotBounds(b: nat, i: nat, n: nat)
    requires b < One(n) && i < n
    ensures Dot(b, i) < 2 && AndNotBit(b, i) >= 0 && OrBit(b, i) < One(n)
    decreases i
  {
    if i > 0 {
      var half := b / 2;
      assert b == 2 * half + b % 2 && One(n) == 2 * One(n - 1) && half < One(n - 1);
      DotBounds(half, i - 1, n - 1);
      assert One(i) == 2 * One(i - 1) && Dot(b, i) == Dot(half, i - 1);
    }
  }

  // Setting or clearing a bit leaves the others.
  lemma {:induction false} DotOf(b: nat, i: nat, j: nat)
    requires AndNotBit(b, i) >= 0 && Dot(b, i) < 2
    ensures Dot(OrBit(b, i), j) == if i == j then 1 else Dot(b, j)
    ensures Dot(AndNotBit(b, i), j) == if i == j then 0 else Dot(b, j)
    decreases i
  {
    if i > 0 && j > 0 {
      assert One(i) == 2 * One(i - 1);
      assert Dot(b, i) == 1 ==> (b - One(i)) / 2 == b / 2 - One(i - 1);
      DotOf(b / 2, i - 1, j - 1);
    }
  }

  // ---------- The display controller ----------

  class Lcd {
    const ram: array2<Byte>
    var page: nat
    var column: nat
    var latch: Byte               // a read returns what the previous access fetched

    constructor ()
      ensures fresh(ram) && Valid()
    {
      ram := new Byte[RAM_PAGES, RAM_COLS];
      page, column, latch := 0, 0, 0;
    }

    predicate Valid() {
      ram.Length0 == RAM_PAGES && ram.Length1 == RAM_COLS
    }

    // lcd_set_pos: the page command and the two halves of the column address.
    method SetPos(row: nat, col: nat)
      requires row < RAM_PAGES && col < RAM_COLS
      modifies this
      ensures page == row && column == col
    {
      page := row;
      column := col / 16 % 16 * 16 + col % 16;
    }

    // lcd_write_byte: the column advances by itself.
    method WriteByte(data: Byte)
      requires Valid() && page < RAM_PAGES && column < RAM_COLS
      modifies this`column, ram
      ensures column == old(column) + 1
      ensures ram[page, old(column)] == data
      ensures forall p, x :: 0 <= p < RAM_PAGES && 0 <= x < RAM_COLS && !(p == page && x == old(column)) ==>
          ram[p, x] == old(ram[p, x])
    {
      ram[page, column] := data;
      column := column + 1;
    }

    // lcd_read_byte: one read cycle.  lcd_read_dummy is the same cycle with the data ignored.
    method ReadByte() returns (data: Byte)
      requires Valid() && page < RAM_PAGES && column < RAM_COLS
      modifies this`column, this`latch
      ensures data == old(latch) && latch == ram[page, old(column)] && column == old(column) + 1
    {
      data := latch;
      latch := ram[page, column];
      column := column + 1;
    }

    // lcd_set_pixel: v sets the pixel (1), inverts it (2) or clears it; the first read cycle after
    // a position is a dummy, and the read moves the column, so the position is sent twice.
    method SetPixel(x: nat, y: nat, v: int) returns (ok: bool)
      requires Valid()
      modifies this, ram
      ensures ok <==> x < LCD_COLS && y < LCD_ROWS * 8
      ensures ok ==>
                var was := old(Dot(ram[y / 8, x], y % 8));
                Dot(ram[y / 8, x], y % 8) == if v == 1 then 1 else if v == 2 then 1 - was else 0
      ensures ok ==> forall i :: 0 <= i < 8 ==>
                Dot(ram[y / 8, x], i)
                == if i == y % 8 then Painted(v, old(Dot(ram[y / 8, x], y % 8))) else old(Dot(ram[y / 8, x], i))
      ensures forall p, c :: 0 <= p < RAM_PAGES && 0 <= c < RAM_COLS && !(ok && p == y / 8 && c == x) ==>
          ram[p, c] == old(ram[p, c])
    {
      if y >= LCD_ROWS * 8 || x >= LCD_COLS {
        return false;
      }
      var pa, bit := y / 8, y - y / 8 * 8;
      SetPos(pa, x);
      var _ := ReadByte();
      var val := ReadByte();
      assert One(8) == 0x100 by { assert One(4) == 0x10; }
      DotBounds(val, bit, 8);
      var dot := if v == 2 then 1 - Dot(val, bit) else v;
      if dot == 1 { val := OrBit(val, bit); } else { val := AndNotBit(val, bit); }
      SetPos(pa, x);
      WriteByte(val);
      ok := true;
      forall i | 0 <= i < 8
        ensures Dot(val, i) == if i == bit then Painted(v, old(Dot(ram[pa, x], bit))) else old(Dot(ram[pa, x], i))
      {
        DotOf(old(ram[pa, x]), bit, i);
      }
    }

    // lcd_read_dram
    method ReadDram(dest: array<Byte>)
      requires Valid() && dest.Length >= LCD_BUFFER_SIZE && dest as object != ram
      modifies this, dest
      ensures forall p, x :: 0 <= p < LCD_ROWS && 0 <= x < LCD_COLS ==> dest[p * LCD_COLS + x] == ram[p, x]
      ensures forall i :: LCD_BUFFER_SIZE <= i < dest.Length ==> dest[i] == old(dest[i])
    {
      for pa := 0 to LCD_ROWS
        invariant forall p, x :: 0 <= p < pa && 0 <= x < LCD_COLS ==> dest[p * LCD_COLS + x] == ram[p, x]
        invariant forall i :: LCD_BUFFER_SIZE <= i < dest.Length ==> dest[i] == old(dest[i])
      {
        SetPos(pa, 0);
        var _ := ReadByte();
        for col := 0 to LCD_COLS
          invariant page == pa && column == col + 1 && latch == ram[pa, col]
          invariant forall p, x :: 0 <= p < pa && 0 <= x < LCD_COLS ==> dest[p * LCD_COLS + x] == ram[p, x]
          invariant forall x :: 0 <= x < col ==> dest[pa * LCD_COLS + x] == ram[pa, x]
          invariant forall i :: LCD_BUFFER_SIZE <= i < dest.Length ==> dest[i] == old(dest[i])
        {
          dest[pa * LCD_COLS + col] := ReadByte();
        }
      }
    }

    // lcd_write_dram
    method WriteDram(source: array<Byte>, from: nat)
      requires Valid() && source.Length >= from + LCD_BUFFER_SIZE && source as object != ram
      modifies this, ram
      ensures forall p, x :: 0 <= p < LCD_ROWS && 0 <= x < LCD_COLS ==> ram[p, x] == source[from + p * LCD_COLS + x]
      ensures forall p, x :: 0 <= p < RAM_PAGES && 0 <= x < RAM_COLS && !(p < LCD_ROWS && x < LCD_COLS) ==>
          ram[p, x] == old(ram[p, x])
    {
      for pa := 0 to LCD_ROWS
        invariant forall p, x :: 0 <= p < pa && 0 <= x < LCD_COLS ==> ram[p, x] == source[from + p * LCD_COLS + x]
        invariant forall p, x :: 0 <= p < RAM_PAGES && 0 <= x < RAM_COLS && !(p < LCD_ROWS && x < LCD_COLS) ==>
            ram[p, x] == old(ram[p, x])
      {
        SetPos(pa, 0);
        for col := 0 to LCD_COLS
          invariant page == pa && column == col
          invariant forall p, x :: 0 <= p < pa && 0 <= x < LCD_COLS ==> ram[p, x] == source[from + p * LCD_COLS + x]
          invariant forall x :: 0 <= x < col ==> ram[pa, x] == source[from + pa * LCD_COLS + x]
          invariant forall p, x :: 0 <= p < RAM_PAGES && 0 <= x < RAM_COLS && !(p < LCD_ROWS && x < LCD_COLS) ==>
              ram[p, x] == old(ram[p, x])
        {
          WriteByte(source[from + pa * LCD_COLS + col]);
        }
      }
    }
  }

  // ---------- The console ----------

  // Column i of the picture of a cell.
  function Pixel(font: (Byte, nat) -> Byte, cell: Cell, i: nat): Byte {
    if cell.Blank? then 0 else font(cell.c, i)
  }

  class Console {
    const lcd: Lcd
    const font: (Byte, nat) -> Byte     // column of eight pixels of a character
    const buffer: array<Byte>           // static scroll buffer
    var row: nat
    var col: nat

    // The visible part of the display RAM shows the grid.
    ghost predicate Picture(g: Grid)
      reads lcd.ram
      requires lcd.Valid()
    {
      forall p, x :: 0 <= p < LCD_ROWS && 0 <= x < LCD_COLS ==>
        lcd.ram[p, x] == Pixel(font, g[p][x / 8], x % 8)
    }

    ghost predicate Valid() {
      lcd.Valid() && buffer.Length == LCD_BUFFER_SIZE + LCD_COLS && buffer as object != lcd.ram
    }

    // The display shows the window of the sheet, and the cursor is where the sheet says.
    ghost predicate Shows(s: Sheet)
      reads this, lcd.ram
      requires Proper(s)
    {
      Valid() && Picture(Window(s)) && row == CursorRow(s) && col == s.col
    }

    // lcd_init_console: clear the display and start at the top left corner.
    constructor (lcd: Lcd, font: (Byte, nat) -> Byte)
      requires lcd.Valid()
      modifies lcd, lcd.ram
      ensures this.lcd == lcd && this.font == font && fresh(buffer)
      ensures Shows(EMPTY_SHEET)
    {
      this.lcd, this.font := lcd, font;
      buffer := new Byte[LCD_BUFFER_SIZE + LCD_COLS](_ => 0);
      row, col := 0, 0;
      new;
      lcd.WriteDram(buffer, 0);
      forall p | 0 <= p < MAX_ROW ensures Window(EMPTY_SHEET)[p] == BLANK_ROW {
        assert Fresh(0) == BLANK_ROW;
        assert Window(EMPTY_SHEET)[p] == LineAt(EMPTY_SHEET, p);
      }
    }

    // lcd_console_put_char
    method PutChar(data: Byte)
      requires lcd.Valid() && row <= MAX_ROW && col <= MAX_COL
      modifies lcd, lcd.ram
      ensures forall x :: 8 * col <= x < 8 * col + 8 ==> lcd.ram[row, x] == font(data, x - 8 * col)
      ensures forall p, x :: 0 <= p < RAM_PAGES && 0 <= x < RAM_COLS && !(p == row && 8 * col <= x < 8 * col + 8) ==>
                lcd.ram[p, x] == old(lcd.ram[p, x])
    {
      lcd.SetPos(row, col * 8);
      for i := 0 to 8
        invariant lcd.page == row && lcd.column == 8 * col + i
        invariant forall x :: 8 * col <= x < 8 * col + i ==> lcd.ram[row, x] == font(data, x - 8 * col)
        invariant forall p, x ::
                    0 <= p < RAM_PAGES && 0 <= x < RAM_COLS && !(p == row && 8 * col <= x < 8 * col + i) ==>
                      lcd.ram[p, x] == old(lcd.ram[p, x])
      {
        lcd.WriteByte(font(data, i));
      }
    }

    // A character on the display changes one cell.
    method DrawVisible(data: Byte, ghost g: Grid)
      requires Valid() && row < MAX_ROW && col < MAX_COL && Picture(g)
      modifies lcd, lcd.ram
      ensures Picture(Put(g, row, col, data))
    {
      PutChar(data);
      forall p, x | 0 <= p < LCD_ROWS && 0 <= x < LCD_COLS
        ensures lcd.ram[p, x] == Pixel(font, Put(g, row, col, data)[p][x / 8], x % 8)
      {
        CellOfColumn(x, col);
      }
    }

    // A character below or right of the display changes no cell.
    method DrawHidden(data: Byte, ghost g: Grid)
      requires Valid() && row <= MAX_ROW && col <= MAX_COL && (row == MAX_ROW || col == MAX_COL) && Picture(g)
      modifies lcd, lcd.ram
      ensures Picture(g)
    {
      PutChar(data);
    }

    // for(;col<=MAX_COL;col++) lcd_console_put_char(0x20): one cell beyond the visible ones.
    method BlankLine(ghost g: Grid)
      requires Valid() && row <= MAX_ROW && col <= MAX_COL && Picture(g)
      modifies this`col, lcd, lcd.ram
      ensures col == MAX_COL + 1
      ensures Picture(if row == MAX_ROW then g else BlankFrom(g, row, old(col)))
    {
      ghost var h := g;
      if row < MAX_ROW { BlankNone(g[row], col); }
      while col <= MAX_COL
        invariant old(col) <= col <= MAX_COL + 1 && Valid() && Picture(h)
        invariant row == MAX_ROW ==> h == g
        invariant row < MAX_ROW ==> h == g[row := BlankRange(g[row], old(col), col)]
      {
        if row < MAX_ROW && col < MAX_COL {
          DrawVisible(SPACE, h);
          h := Put(h, row, col, SPACE);
          BlankOneMore(g[row], old(col), col);
        } else {
          DrawHidden(SPACE, h);
          if row < MAX_ROW { BlankNoMore(g[row], old(col), col); }
        }
        col := col + 1;
      }
      if row < MAX_ROW { BlankAll(g[row], old(col)); }
    }

    // lcd_console_scroll_down: every visible page moves up, the last one is cleared.
    method ScrollDown(ghost g: Grid)
      requires Valid() && Picture(g)
      modifies lcd, lcd.ram, buffer
      ensures Picture(ScrollUp(g))
    {
      lcd.ReadDram(buffer);
      forall i | LCD_BUFFER_SIZE <= i < buffer.Length { buffer[i] := 0; }
      lcd.WriteDram(buffer, LCD_COLS);
      forall p, x | 0 <= p < LCD_ROWS && 0 <= x < LCD_COLS
        ensures lcd.ram[p, x] == Pixel(font, ScrollUp(g)[p][x / 8], x % 8)
      {
        assert lcd.ram[p, x] == buffer[LCD_COLS + p * LCD_COLS + x];
        if p < LCD_ROWS - 1 { assert buffer[(p + 1) * LCD_COLS + x] == old(lcd.ram[p + 1, x]); }
      }
    }

    // lcd_console_new_line: at row 8 the picture scrolls, and the cursor stays below the display.
    method NewLine(ghost s: Sheet)
      requires Proper(s) && Shows(s)
      modifies this, lcd, lcd.ram, buffer
      ensures Shows(Feed(s, NEWLINE))
    {
      NewLineWindow(s);
      BlankLine(Window(s));
      if row == MAX_ROW {
        row := row - 1;
        ScrollDown(Window(s));
        col := 0;
        BlankLine(ScrollUp(Window(s)));
      }
      row := row + 1;
      col := 0;
    }

    // One round of lcd_console_put_data.
    method PutByte(data: Byte, ghost s: Sheet)
      requires Proper(s) && Shows(s)
      modifies this, lcd, lcd.ram, buffer
      ensures Shows(Feed(s, data))
    {
      if data == NEWLINE {
        NewLine(s);
        return;
      }
      ghost var t := s;
      if col == MAX_COL {
        WrappedWindow(s, data);
        t := Wrapped(s);
        col := 0;
        row := row + 1;
      }
      NewLineWindow(t);
      CharWindow(t, data);
      ghost var g := Window(t);
      if row == MAX_ROW {
        NewLine(t);
        row := row - 1;
        g := Window(Feed(t, NEWLINE));
      }
      DrawVisible(data, g);
      col := col + 1;
    }

    // lcd_console_put_data
    method PutData(data: array<Byte>, ghost s: Sheet)
      requires Proper(s) && Shows(s) && data != buffer && data as object != lcd.ram
      modifies this, lcd, lcd.ram, buffer
      ensures Shows(FeedAll(s, data[..]))
    {
      for i := 0 to data.Length
        invariant Shows(FeedAll(s, data[..i]))
        invariant data[..] == old(data[..])
      {
        assert data[..i + 1][..i] == data[..i];
        PutByte(data[i], FeedAll(s, data[..i]));
      }
      assert data[..data.Length] == data[..];
    }
  }

  lemma CellOfColumn(x: nat, col: nat)
    ensures 8 * col <= x < 8 * col + 8 <==> x / 8 == col
    ensures x / 8 == col ==> x % 8 == x - 8 * col
  {
  }

  function BlankRange(r: Row, from: nat, to: nat): Row {
    seq(MAX_COL, c requires 0 <= c < MAX_COL => if from <= c < to then Glyph(SPACE) else r[c])
  }

  lemma BlankNone(r: Row, from: nat)
    ensures BlankRange(r, from, from) == r
  {
  }

  lemma BlankOneMore(r: Row, from: nat, to: nat)
    requires from <= to < MAX_COL
    ensures BlankRange(r, from, to)[to := Glyph(SPACE)] == BlankRange(r, from, to + 1)
  {
  }

  lemma BlankNoMore(r: Row, from: nat, to: nat)
    requires from <= to && MAX_COL <= to
    ensures BlankRange(r, from, to) == BlankRange(r, from, to + 1)
  {
  }

  lemma BlankAll(r: Row, from: nat)
    ensures BlankRange(r, from, MAX_COL + 1) == Padded(r, from)
  {
  }
}
