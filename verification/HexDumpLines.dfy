/** Whole lines of a hex dump: label, bytes and text column. */
module HexDumpLines {
  import opened HexDump
  import opened Strings
  import opened Text
  import Vectors

  /** The number that hexadecimal digits are worth. */
  function HexWorth(s: string): nat {
    if s == "" then 0 else 16 * HexWorth(s[..|s| - 1]) + HexValue(s[|s| - 1])
  }

  datatype Line = Line(offset: nat, bytes: Bytes, glyphs: string)

  /** The lines of a dump behind those found before. */
  function ReadLinesOn(found: seq<Line>, text: string): seq<Line>
    decreases |text|
  {
    var colon := Find(text, ':');
    if |text| < colon + ROW_LENGTH then found
    else
      var line := Line(HexWorth(text[..colon]), ReadCells(text[colon + 4..], 16), text[colon + 54..colon + 70]);
      ReadLinesOn(found + [line], text[colon + ROW_LENGTH..])
  }

  /** What a line should say: where its bytes start, the bytes, and each of them again as itself if it is
      printable ASCII and as a dot if not, with blanks up to sixteen. */
  function LineOf(i: nat, row: Bytes): Line {
    Line(16 * i, row,
         seq(16, k requires 0 <= k < 16 =>
           if k >= |row| then ' ' else if 0x20 <= row[k] <= 0x7E then row[k] as char else '.'))
  }

  function LinesOf(dumped: Bytes, n: nat): seq<Line>
    requires 16 * n <= |dumped| + 16
  {
    if n == 0 then [] else LinesOf(dumped, n - 1) + [LineOf(n - 1, RowBytes(dumped, n - 1))]
  }

  lemma {:induction false} HexIsWorth(n: nat)
    ensures HexWorth(Hex(n)) == n
  {
    if n < 16 {
      DigitReadsBack(n);
      assert Hex(n)[..0] == "";
    } else {
      HexIsWorth(n / 16);
      DigitReadsBack(n % 16);
      assert Hex(n)[..|Hex(n)| - 1] == Hex(n / 16);
    }
  }

  lemma {:induction false} ZeroInFront(s: string)
    ensures HexWorth("0" + s) == HexWorth(s)
  {
    var t := "0" + s;
    if s == "" {
      assert t[..0] == "";
    } else {
      assert t[..|t| - 1] == "0" + s[..|s| - 1];
      ZeroInFront(s[..|s| - 1]);
    }
  }

  lemma {:induction false} PaddedIsWorth(s: string, width: nat)
    ensures HexWorth(Pad(s, width)) == HexWorth(s)
    decreases width - |s|
  {
    if |s| < width {
      ZeroInFront(s);
      PaddedIsWorth("0" + s, width);
    }
  }

  lemma {:induction false} GlyphAt(row: Bytes, n: nat, k: nat)
    requires k < n
    ensures Glyphs(row, n)[k] ==
              if k >= |row| then ' ' else if 0x20 <= row[k] <= 0x7E then row[k] as char else '.'
  {
    if k > 0 { GlyphAt(if row == [] then [] else row[1..], n - 1, k - 1); }
  }

  lemma LineReadsBack(found: seq<Line>, i: nat, row: Bytes, rest: string)
    requires |row| <= 16
    ensures ReadLinesOn(found, RowText(i, row) + rest) == ReadLinesOn(found + [LineOf(i, row)], rest)
  {
    var number, cells, glyphs := Pad(Hex(16 * i), 4), Cells(row, 16), Glyphs(row, 16);
    var text := RowText(i, row) + rest;
    var colon := Find(text, ':');
    LineShape(number, cells, glyphs, rest);
    CellsReadBack(row, 16, "  " + (glyphs + "\n") + rest);
    HexIsWorth(16 * i);
    PaddedIsWorth(Hex(16 * i), 4);
    GlyphsAre(i, row);
    assert Line(HexWorth(text[..colon]), ReadCells(text[colon + 4..], 16), text[colon + 54..colon + 70])
        == LineOf(i, row);
  }

  lemma GlyphsAre(i: nat, row: Bytes)
    ensures Glyphs(row, 16) == LineOf(i, row).glyphs
  {
    forall k | 0 <= k < 16 ensures Glyphs(row, 16)[k] == LineOf(i, row).glyphs[k] {
      GlyphAt(row, 16, k);
    }
  }

  lemma LineShape(number: string, cells: string, glyphs: string, rest: string)
    requires |cells| == 48 && |glyphs| == 16 && ':' !in number
    ensures var text, back := number + (":   " + (cells + ("  " + (glyphs + "\n")))) + rest, "  " + (glyphs + "\n");
            var colon := Find(text, ':');
            && |text| >= colon + ROW_LENGTH && text[..colon] == number
            && text[colon + 4..] == cells + (back + rest) && text[colon + 54..colon + 70] == glyphs
            && text[colon + ROW_LENGTH..] == rest
  {
    var back := "  " + (glyphs + "\n");
    RowShape(number, cells, back, rest);
    FindSeparator(number, ':', "   " + (cells + (back + rest)));
    GlyphColumn(number, cells, glyphs, rest);
  }

  lemma GlyphColumn(number: string, cells: string, glyphs: string, rest: string)
    requires |cells| == 48 && |glyphs| == 16
    ensures
      var text := number + (":   " + (cells + ("  " + (glyphs + "\n")))) + rest;
      |text| >= |number| + 70 && text[|number| + 54..|number| + 70] == glyphs
  {
    var text := number + (":   " + (cells + ("  " + (glyphs + "\n")))) + rest;
    var front := number + (":   " + (cells + "  "));
    assert text == front + (glyphs + ("\n" + rest));
    assert |front| == |number| + 54;
  }

  function Concat(texts: seq<string>): string {
    if texts == [] then "" else Concat(texts[..|texts| - 1]) + texts[|texts| - 1]
  }

  /** A reader that gets through each text gets through all of them in turn. */
  lemma {:induction false} ConcatReadsBack<T>(read: (T, string) -> T, texts: seq<string>, states: seq<T>, rest: string)
    requires |states| == |texts| + 1
    requires forall i, r :: 0 <= i < |texts| ==> read(states[i], texts[i] + r) == read(states[i + 1], r)
    ensures read(states[0], Concat(texts) + rest) == read(states[|texts|], rest)
  {
    if texts == [] {
      assert Concat(texts) + rest == rest;
    } else {
      var last := |texts| - 1;
      var front := texts[..last];
      Vectors.Regroup(Concat(front), texts[last], rest);
      assert forall i :: 0 <= i < last ==> front[i] == texts[i] && states[..|texts|][i] == states[i];
      ConcatReadsBack(read, front, states[..|texts|], texts[last] + rest);
    }
  }

  function RowTexts(dumped: Bytes, n: nat): (texts: seq<string>)
    requires 16 * n <= |dumped| + 16
    ensures |texts| == n && forall i :: 0 <= i < n ==> texts[i] == RowText(i, RowBytes(dumped, i))
  {
    seq(n, i requires 0 <= i < n => RowText(i, RowBytes(dumped, i)))
  }

  lemma {:induction false} RowsAreConcat(dumped: Bytes, n: nat)
    requires 16 * n <= |dumped| + 16
    ensures Rows(dumped, n) == Concat(RowTexts(dumped, n))
  {
    if n > 0 {
      RowsAreConcat(dumped, n - 1);
      assert RowTexts(dumped, n)[..n - 1] == RowTexts(dumped, n - 1);
    }
  }

  /** Line `i` of a dump is labelled 16 * `i`, and its text column says what its bytes are. */
  lemma DumpIsLabelled(data: Bytes)
    requires data != [] && Lines(|data|) >= 0
    ensures ReadLinesOn([], DumpText(data)) == LinesOf(Dumped(data), Lines(|data|) + 1)
  {
    LinesBound(|data|);
    RowsAreLabelled(Dumped(data), Lines(|data|) + 1);
  }

  lemma RowsAreLabelled(dumped: Bytes, n: nat)
    requires 16 * n <= |dumped| + 16
    ensures ReadLinesOn([], Rows(dumped, n)) == LinesOf(dumped, n)
  {
    EachRowReadsBack(dumped, n);
    ConcatReadsBack(ReadLinesOn, RowTexts(dumped, n), Prefixes(dumped, n), "");
    RowsAreConcat(dumped, n);
    assert Rows(dumped, n) + "" == Rows(dumped, n);
  }

  /** The lines found before each row, and behind the last one. */
  function Prefixes(dumped: Bytes, n: nat): (prefixes: seq<seq<Line>>)
    requires 16 * n <= |dumped| + 16
    ensures |prefixes| == n + 1 && forall i :: 0 <= i <= n ==> prefixes[i] == LinesOf(dumped, i)
  {
    seq(n + 1, i requires 0 <= i <= n => LinesOf(dumped, i))
  }

  lemma EachRowReadsBack(dumped: Bytes, n: nat)
    requires 16 * n <= |dumped| + 16
    ensures forall i, r :: 0 <= i < n ==>
              ReadLinesOn(Prefixes(dumped, n)[i], RowTexts(dumped, n)[i] + r) ==
              ReadLinesOn(Prefixes(dumped, n)[i + 1], r)
  {
    forall i, r | 0 <= i < n
      ensures ReadLinesOn(Prefixes(dumped, n)[i], RowTexts(dumped, n)[i] + r) ==
              ReadLinesOn(Prefixes(dumped, n)[i + 1], r)
    {
      LineReadsBack(LinesOf(dumped, i), i, RowBytes(dumped, i), r);
    }
  }
}
