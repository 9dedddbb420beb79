/** The hex dump of network messages: rows of sixteen bytes counted by a 16-bit loop variable. */
module HexDump {
  import opened Strings
  import opened Text
  import Vectors

  /** A cast to `int16_t`. */
  function Int16(n: int): (r: int)
    ensures -0x8000 <= r < 0x8000 && (r - n) % 0x1_0000 == 0
  {
    (n + 0x8000) % 0x1_0000 - 0x8000
  }

  function HexDigit(d: nat): (c: char)
    requires d < 16
    ensures c != ' ' && c != ':'
  {
    if d < 10 then ('0' as int + d) as char else ('a' as int + d - 10) as char
  }

  function HexValue(c: char): (v: nat)
    ensures v < 16
  {
    if '0' <= c <= '9' then c as int - '0' as int else if 'a' <= c <= 'f' then c as int - 'a' as int + 10 else 0
  }

  function Hex(n: nat): (s: string)
    ensures s != "" && ':' !in s
  {
    if n < 16 then [HexDigit(n)] else Hex(n / 16) + [HexDigit(n % 16)]
  }

  function Pad(s: string, width: nat): (p: string)
    ensures |p| >= width && (':' !in s ==> ':' !in p)
    decreases width - |s|
  {
    if |s| >= width then s else Pad("0" + s, width)
  }

  /** The row starting at byte 16 * `i` of what is dumped; the last row may be short. */
  function RowBytes(dumped: Bytes, i: nat): (row: Bytes)
    requires 16 * i <= |dumped|
    ensures |row| <= 16
  {
    if |dumped| < 16 * i + 16 then dumped[16 * i..] else dumped[16 * i..16 * i + 16]
  }

  function Cell(b: Byte): string {
    [HexDigit(b / 16), HexDigit(b % 16), ' ']
  }

  function Cells(row: Bytes, n: nat): (s: string)
    ensures |s| == 3 * n
  {
    if n == 0 then "" else if row == [] then "   " + Cells(row, n - 1) else Cell(row[0]) + Cells(row[1..], n - 1)
  }

  function Glyph(b: Byte): char {
    if b < ' ' as int || '~' as int < b then '.' else b as char
  }

  function Glyphs(row: Bytes, n: nat): (s: string)
    ensures |s| == n
  {
    if n == 0 then "" else if row == [] then " " + Glyphs(row, n - 1) else [Glyph(row[0])] + Glyphs(row[1..], n - 1)
  }

  function RowText(i: nat, row: Bytes): string {
    Pad(Hex(16 * i), 4) + (":   " + (Cells(row, 16) + ("  " + (Glyphs(row, 16) + "\n"))))
  }

  /** The first `n` rows. */
  function Rows(dumped: Bytes, n: nat): string
    requires 16 * n <= |dumped| + 16
  {
    if n == 0 then "" else Rows(dumped, n - 1) + RowText(n - 1, RowBytes(dumped, n - 1))
  }

  function Lines(length: nat): int {
    Int16(length / 16)
  }

  function Extra(length: nat): (extra: nat)
    ensures extra == length % 16
  {
    Int16(length % 16)
  }

  lemma LinesBound(length: nat)
    ensures Lines(length) <= length / 16
    ensures Lines(length) == length / 16 <==> length / 16 < 0x8000
  {
  }

  /** The bytes the loop gets to see. */
  function Dumped(data: Bytes): Bytes {
    LinesBound(|data|);
    if data == [] || Lines(|data|) < 0 then [] else data[..16 * Lines(|data|) + |data| % 16]
  }

  /** What is printed if the loop ends. */
  function DumpText(data: Bytes): string {
    if data == [] || Lines(|data|) < 0 then "" else Rows(Dumped(data), Lines(|data|) + 1)
  }

  method Increment(i: int) returns (next: int)
    requires -0x8000 <= i < 0x8000
    ensures next == if i == 0x7FFF then -0x8000 else i + 1
  {
    next := Int16(i + 1);
  }

  /** The loop ends in bounds unless its limit is the greatest 16-bit number: then the guard cannot
      fail, the loop variable wraps around, and the next byte is read in front of the buffer. */
  method Dump(data: Bytes) returns (text: string, inBounds: bool)
    ensures inBounds <==> data == [] || Lines(|data|) != 0x7FFF
    ensures inBounds ==> text == DumpText(data)
  {
    if data == [] { return "", true; }
    DumpLimits(data);
    var lines, extra := Lines(|data|), Extra(|data|);
    text, inBounds := PrintRows(data, lines, extra);
  }

  ghost predicate Limits(data: Bytes, lines: int, extra: int) {
    lines < 0x8000 && 0 <= extra < 16 && (0 <= lines ==> 16 * lines + extra <= |data|)
  }

  lemma DumpLimits(data: Bytes)
    requires data != []
    ensures Limits(data, Lines(|data|), Extra(|data|))
    ensures Lines(|data|) >= 0 ==> Dumped(data) == data[..16 * Lines(|data|) + Extra(|data|)]
  {
    LinesBound(|data|);
  }

  method PrintRows(data: Bytes, lines: int, extra: int) returns (text: string, inBounds: bool)
    requires Limits(data, lines, extra)
    ensures inBounds <==> lines != 0x7FFF
    ensures inBounds ==> text == if lines < 0 then "" else Rows(data[..16 * lines + extra], lines + 1)
  {
    text, inBounds := "", true;
    var i := 0;
    while inBounds && i <= lines
      invariant -0x8000 <= i < 0x8000
      invariant inBounds && i < 0 ==> lines == 0x7FFF
      invariant inBounds && i >= 0 && lines >= 0 ==> i <= lines + 1 && text == Rows(data[..16 * lines + extra], i)
      invariant lines < 0 ==> inBounds && i == 0 && text == ""
      invariant !inBounds ==> lines == 0x7FFF
      decreases if inBounds then 1 else 0, if i < 0 then 0 else 1, lines - i
    {
      var row;
      row, inBounds := PrintNext(data, i, lines, extra, text);
      text := text + row;
      i := Increment(i);
    }
  }

  method PrintNext(data: Bytes, i: int, lines: int, extra: int, ghost text: string)
    returns (row: string, inBounds: bool)
    requires Limits(data, lines, extra) && i <= lines && 0 <= lines
    requires 0 <= i ==> text == Rows(data[..16 * lines + extra], i)
    ensures inBounds <==> 0 <= i
    ensures inBounds ==> text + row == Rows(data[..16 * lines + extra], i + 1)
  {
    if i < 0 { return "", false; }
    row := PrintRow(data, i, lines, extra);
    inBounds := true;
  }

  method PrintRow(data: Bytes, i: nat, lines: nat, extra: nat) returns (row: string)
    requires Limits(data, lines, extra) && i <= lines
    ensures row == RowText(i, RowBytes(data[..16 * lines + extra], i))
  {
    var number := Pad(Hex(i * 16), 4);
    var cells, ascii := PrintCells(data, i, lines, extra);
    row := number + (":   " + (cells + ("  " + (ascii + "\n"))));
  }

  function CellsFrom(bytes: Bytes, j: nat): string
    requires j <= 16
  {
    Cells(bytes[Least(j, |bytes|)..], 16 - j)
  }

  function GlyphsFrom(bytes: Bytes, j: nat): string
    requires j <= 16
  {
    Glyphs(bytes[Least(j, |bytes|)..], 16 - j)
  }

  method PrintCells(data: Bytes, i: nat, lines: nat, extra: nat) returns (cells: string, ascii: string)
    requires Limits(data, lines, extra) && i <= lines
    ensures cells == Cells(RowBytes(data[..16 * lines + extra], i), 16)
    ensures ascii == Glyphs(RowBytes(data[..16 * lines + extra], i), 16)
  {
    cells, ascii := "", "";
    ghost var bytes := RowBytes(data[..16 * lines + extra], i);
    FirstCell(bytes);
    var j := 0;
    while j < 16
      invariant 0 <= j <= 16
      invariant cells + CellsFrom(bytes, j) == Cells(bytes, 16) && ascii + GlyphsFrom(bytes, j) == Glyphs(bytes, 16)
    {
      var cell, glyph := PrintCell(data, i, j, lines, extra);
      NextCell(bytes, j, cells, ascii);
      cells, ascii := cells + cell, ascii + [glyph];
      j := j + 1;
    }
    LastCell(bytes, cells, ascii);
  }

  function Least(a: nat, b: nat): nat { if a < b then a else b }

  method PrintCell(data: Bytes, i: nat, j: nat, lines: nat, extra: nat) returns (cell: string, glyph: char)
    requires Limits(data, lines, extra) && i <= lines && j < 16
    ensures var bytes := RowBytes(data[..16 * lines + extra], i);
            && cell == (if j < |bytes| then Cell(bytes[j]) else "   ")
            && glyph == if j < |bytes| then Glyph(bytes[j]) else ' '
  {
    if i == lines && j >= extra {
      return "   ", ' ';
    }
    var c := data[i * 16 + j];
    return Cell(c), Glyph(c);
  }

  lemma FirstCell(bytes: Bytes)
    ensures "" + CellsFrom(bytes, 0) == Cells(bytes, 16) && "" + GlyphsFrom(bytes, 0) == Glyphs(bytes, 16)
  {
    assert bytes[0..] == bytes;
  }

  lemma LastCell(bytes: Bytes, cells: string, ascii: string)
    ensures cells + CellsFrom(bytes, 16) == cells && ascii + GlyphsFrom(bytes, 16) == ascii
  {
  }

  lemma NextCell(bytes: Bytes, j: nat, cells: string, ascii: string)
    requires j < 16
    ensures
      && cells + CellsFrom(bytes, j) ==
           cells + (if j < |bytes| then Cell(bytes[j]) else "   ") + CellsFrom(bytes, j + 1)
      && ascii + GlyphsFrom(bytes, j) ==
           ascii + [if j < |bytes| then Glyph(bytes[j]) else ' '] + GlyphsFrom(bytes, j + 1)
  {
    if j < |bytes| {
      assert bytes[j..][1..] == bytes[j + 1..];
    } else {
      assert bytes[|bytes|..] == [];
    }
  }

  // Reading a dump back

  function ReadCells(s: string, n: nat): Bytes {
    if n == 0 || |s| < 3 then []
    else if s[0] == ' ' then ReadCells(s[3..], n - 1)
    else [16 * HexValue(s[0]) + HexValue(s[1])] + ReadCells(s[3..], n - 1)
  }

  /** Length of a row behind its label. */
  const ROW_LENGTH := 71

  /** The bytes in the hex columns of every row, behind those found before; the labels and the text
      columns are skipped. */
  function ReadRows(found: Bytes, text: string): Bytes
    decreases |text|
  {
    var colon := Find(text, ':');
    if |text| < colon + ROW_LENGTH then found
    else ReadRows(found + ReadCells(text[colon + 4..], 16), text[colon + ROW_LENGTH..])
  }

  function ReadDump(text: string): Bytes {
    ReadRows([], text)
  }

  lemma DigitReadsBack(d: nat)
    requires d < 16
    ensures HexValue(HexDigit(d)) == d
  {
  }

  lemma CellReadsBack(b: Byte, back: string, n: nat)
    requires n > 0
    ensures ReadCells(Cell(b) + back, n) == [b] + ReadCells(back, n - 1)
  {
    DigitReadsBack(b / 16);
    DigitReadsBack(b % 16);
    assert (Cell(b) + back)[3..] == back;
  }

  lemma BlankReadsBack(back: string, n: nat)
    requires n > 0
    ensures ReadCells("   " + back, n) == ReadCells(back, n - 1)
  {
    assert ("   " + back)[3..] == back;
  }

  lemma {:induction false} CellsReadBack(row: Bytes, n: nat, rest: string)
    requires |row| <= n
    ensures ReadCells(Cells(row, n) + rest, n) == row
  {
    if n > 0 && row == [] {
      Vectors.Regroup("   ", Cells(row, n - 1), rest);
      BlankReadsBack(Cells(row, n - 1) + rest, n);
      CellsReadBack(row, n - 1, rest);
    } else if n > 0 {
      var tail := row[1..];
      Vectors.Regroup(Cell(row[0]), Cells(tail, n - 1), rest);
      CellReadsBack(row[0], Cells(tail, n - 1) + rest, n);
      CellsReadBack(tail, n - 1, rest);
      assert row == [row[0]] + tail;
    }
  }

  lemma RowReadsBack(found: Bytes, i: nat, row: Bytes, rest: string)
    requires |row| <= 16
    ensures ReadRows(found, RowText(i, row) + rest) == ReadRows(found + row, rest)
  {
    var number, cells := Pad(Hex(16 * i), 4), Cells(row, 16);
    var back := "  " + (Glyphs(row, 16) + "\n");
    var text := RowText(i, row) + rest;
    RowShape(number, cells, back, rest);
    FindSeparator(number, ':', "   " + (cells + (back + rest)));
    CellsReadBack(row, 16, back + rest);
  }

  lemma RowShape(number: string, cells: string, back: string, rest: string)
    requires |cells| == 48 && |back| == 19
    ensures
      var text := number + (":   " + (cells + back)) + rest;
      && text == number + ([':'] + ("   " + (cells + (back + rest))))
      && |text| >= |number| + ROW_LENGTH
      && text[|number| + 4..] == cells + (back + rest)
      && text[|number| + ROW_LENGTH..] == rest
  {
  }

  lemma RowsAreSlices(dumped: Bytes, n: nat)
    requires 16 * n <= |dumped|
    ensures dumped[..16 * n] + RowBytes(dumped, n) == dumped[..Least(16 * n + 16, |dumped|)]
  {
  }

  /** A reader that takes the printed rows one by one. */
  ghost predicate ReadsByRow(read: (Bytes, string) -> Bytes) {
    forall found, i, row, rest :: 0 <= i && |row| <= 16 ==>
        read(found, RowText(i, row) + rest) == read(found + row, rest)
  }

  lemma {:induction false} RowsReadBack(read: (Bytes, string) -> Bytes, dumped: Bytes, n: nat, rest: string)
    requires 16 * n <= |dumped| + 16 && ReadsByRow(read)
    ensures read([], Rows(dumped, n) + rest) == read(dumped[..Least(16 * n, |dumped|)], rest)
  {
    if n == 0 {
      assert Rows(dumped, 0) + rest == rest && dumped[..0] == [];
    } else {
      var front := n - 1;
      var row := RowBytes(dumped, front);
      Vectors.Regroup(Rows(dumped, front), RowText(front, row), rest);
      RowsReadBack(read, dumped, front, RowText(front, row) + rest);
      RowsAreSlices(dumped, front);
    }
  }

  lemma AllRowsReadBack(dumped: Bytes, n: nat)
    requires |dumped| <= 16 * n <= |dumped| + 16
    ensures ReadDump(Rows(dumped, n)) == dumped
  {
    forall found, i, row, rest | 0 <= i && |row| <= 16
      ensures ReadRows(found, RowText(i, row) + rest) == ReadRows(found + row, rest)
    {
      RowReadsBack(found, i, row, rest);
    }
    RowsReadBack(ReadRows, dumped, n, "");
    assert Rows(dumped, n) + "" == Rows(dumped, n);
    assert dumped[..|dumped|] == dumped;
  }

  /** The hex columns always say what the loop saw. */
  lemma DumpSaysDumped(data: Bytes)
    ensures ReadDump(DumpText(data)) == Dumped(data)
  {
    if data != [] && Lines(|data|) >= 0 {
      AllRowsReadBack(Dumped(data), Lines(|data|) + 1);
    }
  }

  /** A dump ends and shows the whole buffer exactly if the buffer has at most 32766 full rows. */
  lemma DumpIsComplete(data: Bytes)
    ensures (data == [] || Lines(|data|) != 0x7FFF) && ReadDump(DumpText(data)) == data <==> |data| / 16 <= 0x7FFE
  {
    DumpSaysDumped(data);
    LinesBound(|data|);
    if |data| / 16 <= 0x7FFE {
      assert data[..|data|] == data;
    } else if Lines(|data|) != 0x7FFF {
      assert |Dumped(data)| < |data|;
    }
  }
}
