/** The byte layout of protocol records: what is written, and a decoder that follows a list of kinds. */
module WireFormat {
  import Division
  import opened Text
  import Vectors

  /** 256 to the power of `width`. */
  function Span(width: nat): (r: nat)
    ensures r > 0
  {
    if width == 0 then 1 else 256 * Span(width - 1)
  }

  /** The memory of an integer on a little-endian machine. */
  function LittleEndian(n: nat, width: nat): (b: Bytes)
    ensures |b| == width
  {
    if width == 0 then [] else [n % 256] + LittleEndian(n / 256, width - 1)
  }

  function Magnitude(b: Bytes): nat {
    if b == [] then 0 else b[0] + 256 * Magnitude(b[1..])
  }

  lemma {:induction false} MagnitudeReadsBack(n: nat, width: nat)
    requires n < Span(width)
    ensures Magnitude(LittleEndian(n, width)) == n
  {
    if width > 0 {
      MagnitudeReadsBack(n / 256, width - 1);
      assert LittleEndian(n, width)[1..] == LittleEndian(n / 256, width - 1);
    }
  }

  lemma {:induction false} MagnitudeBound(b: Bytes)
    ensures Magnitude(b) < Span(|b|)
  {
    if b != [] { MagnitudeBound(b[1..]); }
  }

  /** One value as the `write` overloads know it. */
  datatype Item =
    | Unsigned(width: nat, n: nat)
    | Signed(width: nat, v: int)
    | Flag(b: bool)
    | Str(s: Narrow)
    | WideStr(w: Wide)

  datatype Kind = UnsignedKind(width: nat) | SignedKind(width: nat) | FlagKind | StrKind | WideStrKind

  function KindOf(item: Item): Kind {
    match item
    case Unsigned(width, _) => UnsignedKind(width)
    case Signed(width, _) => SignedKind(width)
    case Flag(_) => FlagKind
    case Str(_) => StrKind
    case WideStr(_) => WideStrKind
  }

  /** Integers fit their type. */
  predicate Typed(item: Item) {
    match item
    case Unsigned(width, n) => n < Span(width)
    case Signed(width, v) => width > 0 && 0 - Span(width) <= 2 * v < Span(width)
    case _ => true
  }

  const SHORT_SPAN := 0x1_0000
  const WORD_SPAN := 0x1_0000_0000

  function UnitBytes(w: Wide): (b: Bytes)
    ensures |b| == 2 * |w|
  {
    if w == [] then [] else [w[0] % 256, w[0] / 256] + UnitBytes(w[1..])
  }

  /** Text goes out behind its length, both cut to what the length field holds. */
  function Encode(item: Item): Bytes
    requires Typed(item)
  {
    match item
    case Unsigned(width, n) => LittleEndian(n, width)
    case Signed(width, v) => LittleEndian(if v < 0 then v + Span(width) else v, width)
    case Flag(b) => [if b then 1 else 0]
    case Str(s) => LittleEndian(|s| % SHORT_SPAN, 2) + s[..|s| % SHORT_SPAN]
    case WideStr(w) => LittleEndian(|w| % WORD_SPAN, 4) + UnitBytes(w[..|w| % WORD_SPAN])
  }

  /** A value and the bytes behind it, or too few bytes. */
  datatype Decoded<T> = Read(value: T, rest: Bytes) | Short

  function Take(n: nat, b: Bytes): Decoded<Bytes> {
    if |b| < n then Short else Read(b[..n], b[n..])
  }

  function Units(n: nat, b: Bytes): Decoded<Wide>
    ensures Units(n, b).Read? ==> |Units(n, b).value| == n
  {
    if n == 0 then Read([], b)
    else if |b| < 2 then Short
    else match Units(n - 1, b[2..])
         case Short => Short
         case Read(w, rest) => Read([b[0] as int + 256 * b[1] as int] + w, rest)
  }

  function Decode(kind: Kind, b: Bytes): Decoded<Item> {
    match kind
    case UnsignedKind(width) =>
      (match Take(width, b) case Short => Short case Read(x, rest) => Read(Unsigned(width, Magnitude(x)), rest))
    case SignedKind(width) =>
      (match Take(width, b)
       case Short => Short
       case Read(x, rest) =>
         var m := Magnitude(x);
         Read(Signed(width, if 2 * m >= Span(width) then m - Span(width) else m), rest))
    case FlagKind => (match Take(1, b) case Short => Short case Read(x, rest) => Read(Flag(x[0] != 0), rest))
    case StrKind =>
      (match Take(2, b)
       case Short => Short
       case Read(x, rest) =>
         match Take(Magnitude(x), rest) case Short => Short case Read(s, after) => Read(Str(s), after))
    case WideStrKind =>
      (match Take(4, b)
       case Short => Short
       case Read(x, rest) =>
         match Units(Magnitude(x), rest) case Short => Short case Read(w, after) => Read(WideStr(w), after))
  }

  /** What survives the trip: text is cut to its length modulo the length field. */
  function Cut(item: Item): Item {
    match item
    case Str(s) => Str(s[..|s| % SHORT_SPAN])
    case WideStr(w) => WideStr(w[..|w| % WORD_SPAN])
    case _ => item
  }

  lemma TakeFront(front: Bytes, rest: Bytes)
    ensures Take(|front|, front + rest) == Read(front, rest)
  {
  }

  lemma UnitsStep(n: nat, u: Unit, back: Bytes, w: Wide, after: Bytes)
    requires Units(n, back) == Read(w, after)
    ensures Units(n + 1, [u % 256, u / 256] + back) == Read([u] + w, after)
  {
    assert ([u % 256, u / 256] + back)[2..] == back;
  }

  lemma {:induction false} UnitsReadBack(w: Wide, rest: Bytes)
    ensures Units(|w|, UnitBytes(w) + rest) == Read(w, rest)
  {
    if w == [] {
      assert UnitBytes(w) + rest == rest;
    } else {
      var tail := w[1..];
      Vectors.Regroup([w[0] % 256, w[0] / 256], UnitBytes(tail), rest);
      UnitsReadBack(tail, rest);
      UnitsStep(|tail|, w[0], UnitBytes(tail) + rest, tail, rest);
      assert w == [w[0]] + tail;
    }
  }

  lemma NumberReadsBack(n: nat, width: nat, rest: Bytes)
    requires n < Span(width)
    ensures Take(width, LittleEndian(n, width) + rest) == Read(LittleEndian(n, width), rest)
    ensures Magnitude(LittleEndian(n, width)) == n
  {
    TakeFront(LittleEndian(n, width), rest);
    MagnitudeReadsBack(n, width);
  }

  lemma Spans()
    ensures Span(1) == 256 && Span(2) == SHORT_SPAN && Span(4) == WORD_SPAN
  {
    assert Span(1) == 256 && Span(2) == 256 * Span(1) && Span(3) == 256 * Span(2) && Span(4) == 256 * Span(3);
  }

  /** Every value written comes back with whatever follows it left over; an over-long text comes back
      as its prefix, and the framing stays in step. */
  lemma ItemReadsBack(item: Item, rest: Bytes)
    requires Typed(item)
    ensures Decode(KindOf(item), Encode(item) + rest) == Read(Cut(item), rest)
  {
    Spans();
    match item
    case Unsigned(width, n) => NumberReadsBack(n, width, rest);
    case Signed(width, v) => NumberReadsBack(if v < 0 then v + Span(width) else v, width, rest);
    case Flag(_) =>
    case Str(s) => StrReadsBack(s[..|s| % SHORT_SPAN], rest);
    case WideStr(w) => WideStrReadsBack(w[..|w| % WORD_SPAN], rest);
  }

  lemma StrReadsBack(s: Narrow, rest: Bytes)
    requires |s| < SHORT_SPAN
    ensures Decode(StrKind, LittleEndian(|s|, 2) + s + rest) == Read(Str(s), rest)
  {
    Spans();
    Vectors.Regroup(LittleEndian(|s|, 2), s, rest);
    NumberReadsBack(|s|, 2, s + rest);
    TakeFront(s, rest);
  }

  lemma WideStrReadsBack(w: Wide, rest: Bytes)
    requires |w| < WORD_SPAN
    ensures Decode(WideStrKind, LittleEndian(|w|, 4) + UnitBytes(w) + rest) == Read(WideStr(w), rest)
  {
    Spans();
    var units := UnitBytes(w);
    Vectors.Regroup(LittleEndian(|w|, 4), units, rest);
    NumberReadsBack(|w|, 4, units + rest);
    UnitsReadBack(w, rest);
  }

  // Where each byte goes

  /** The lowest byte first. */
  lemma {:induction false} ByteAt(n: nat, width: nat, k: nat)
    requires k < width
    ensures LittleEndian(n, width)[k] == n / Span(k) % 256
  {
    if k > 0 {
      ByteAt(n / 256, width - 1, k - 1);
      DivideTwice(n, Span(k - 1));
    }
  }

  lemma DivideTwice(n: nat, b: nat)
    requires b > 0
    ensures n / 256 / b == n / (256 * b)
  {
    var q := n / 256;
    var p, s := q / b, q % b;
    assert q == b * p + s;
    var digit := 256 * s + n % 256;
    assert n == digit + 256 * b * p by {
      assert 256 * (b * p) == 256 * b * p;
    }
    Division.DivideCarry(256 * b, digit, p);
  }

  lemma {:induction false} UnitBytesAt(w: Wide, i: nat)
    requires i < |w|
    ensures UnitBytes(w)[2 * i] == w[i] % 256 && UnitBytes(w)[2 * i + 1] == w[i] / 256
  {
    if i > 0 { UnitBytesAt(w[1..], i - 1); }
  }

  /** A wide text is its 32-bit length and its units, all with the lower byte first. */
  lemma WideTextBytes(w: Wide)
    requires |w| < WORD_SPAN
    ensures |Encode(WideStr(w))| == 4 + 2 * |w|
    ensures forall k :: 0 <= k < 4 ==> Encode(WideStr(w))[k] == |w| / Span(k) % 256
    ensures forall i :: 0 <= i < |w| ==>
              Encode(WideStr(w))[4 + 2 * i] == w[i] % 256 && Encode(WideStr(w))[5 + 2 * i] == w[i] / 256
  {
    Division.Below(|w|, WORD_SPAN);
    assert w[..|w|] == w;
    var length, b := LittleEndian(|w|, 4), UnitBytes(w);
    assert Encode(WideStr(w)) == length + b;
    forall k | 0 <= k < 4 ensures (length + b)[k] == |w| / Span(k) % 256 {
      ByteAt(|w|, 4, k);
    }
    forall i | 0 <= i < |w| ensures (length + b)[4 + 2 * i] == w[i] % 256 && (length + b)[5 + 2 * i] == w[i] / 256 {
      UnitBytesAt(w, i);
    }
  }

  /** A narrow text is its 16-bit length and its bytes. */
  lemma TextBytes(s: Narrow)
    requires |s| < SHORT_SPAN
    ensures |Encode(Str(s))| == 2 + |s|
    ensures Encode(Str(s))[0] == |s| % 256 && Encode(Str(s))[1] == |s| / 256 % 256
    ensures forall i :: 0 <= i < |s| ==> Encode(Str(s))[2 + i] == s[i]
  {
    Division.Below(|s|, SHORT_SPAN);
    Spans();
    ByteAt(|s|, 2, 0);
    ByteAt(|s|, 2, 1);
    assert s[..|s|] == s;
  }

  // Records: values in a fixed order

  predicate AllTyped(items: seq<Item>) {
    forall i :: 0 <= i < |items| ==> Typed(items[i])
  }

  function EncodeAll(items: seq<Item>): Bytes
    requires AllTyped(items)
  {
    if items == [] then [] else Encode(items[0]) + EncodeAll(items[1..])
  }

  function KindsOf(items: seq<Item>): seq<Kind> {
    if items == [] then [] else [KindOf(items[0])] + KindsOf(items[1..])
  }

  function CutAll(items: seq<Item>): seq<Item> {
    if items == [] then [] else [Cut(items[0])] + CutAll(items[1..])
  }

  function DecodeAll(kinds: seq<Kind>, b: Bytes): Decoded<seq<Item>> {
    if kinds == [] then Read([], b)
    else match Decode(kinds[0], b)
         case Short => Short
         case Read(item, rest) =>
           match DecodeAll(kinds[1..], rest)
           case Short => Short
           case Read(items, after) => Read([item] + items, after)
  }

  lemma DecodeAllStep(kind: Kind, kinds: seq<Kind>, b: Bytes, item: Item, items: seq<Item>, rest: Bytes, after: Bytes)
    requires Decode(kind, b) == Read(item, rest) && DecodeAll(kinds, rest) == Read(items, after)
    ensures DecodeAll([kind] + kinds, b) == Read([item] + items, after)
  {
    assert ([kind] + kinds)[1..] == kinds;
  }

  lemma {:induction false} RecordReadsBack(items: seq<Item>, rest: Bytes)
    requires AllTyped(items)
    ensures DecodeAll(KindsOf(items), EncodeAll(items) + rest) == Read(CutAll(items), rest)
  {
    if items == [] {
      assert EncodeAll(items) + rest == rest;
    } else {
      var tail := items[1..];
      var back := EncodeAll(tail) + rest;
      Vectors.Regroup(Encode(items[0]), EncodeAll(tail), rest);
      ItemReadsBack(items[0], back);
      RecordReadsBack(tail, rest);
      DecodeAllStep(KindOf(items[0]), KindsOf(tail), Encode(items[0]) + back, Cut(items[0]), CutAll(tail), back, rest);
    }
  }

  // Counted lists of records

  predicate Shaped(kinds: seq<Kind>, records: seq<seq<Item>>) {
    forall i :: 0 <= i < |records| ==> AllTyped(records[i]) && KindsOf(records[i]) == kinds
  }

  function EncodeRecords(records: seq<seq<Item>>): Bytes
    requires forall i :: 0 <= i < |records| ==> AllTyped(records[i])
  {
    if records == [] then [] else EncodeAll(records[0]) + EncodeRecords(records[1..])
  }

  /** The count is cut to 32 bits; the records are all written. */
  function EncodeList(records: seq<seq<Item>>): Bytes
    requires forall i :: 0 <= i < |records| ==> AllTyped(records[i])
  {
    LittleEndian(|records| % WORD_SPAN, 4) + EncodeRecords(records)
  }

  function CutRecords(records: seq<seq<Item>>): seq<seq<Item>> {
    if records == [] then [] else [CutAll(records[0])] + CutRecords(records[1..])
  }

  function DecodeRecords(kinds: seq<Kind>, n: nat, b: Bytes): Decoded<seq<seq<Item>>> {
    if n == 0 then Read([], b)
    else match DecodeAll(kinds, b)
         case Short => Short
         case Read(record, rest) =>
           match DecodeRecords(kinds, n - 1, rest)
           case Short => Short
           case Read(records, after) => Read([record] + records, after)
  }

  function DecodeList(kinds: seq<Kind>, b: Bytes): Decoded<seq<seq<Item>>> {
    match Take(4, b)
    case Short => Short
    case Read(x, rest) => DecodeRecords(kinds, Magnitude(x), rest)
  }

  lemma DecodeRecordsStep(kinds: seq<Kind>, n: nat, b: Bytes, record: seq<Item>, rest: Bytes,
                          records: seq<seq<Item>>, after: Bytes)
    requires DecodeAll(kinds, b) == Read(record, rest) && DecodeRecords(kinds, n, rest) == Read(records, after)
    ensures DecodeRecords(kinds, n + 1, b) == Read([record] + records, after)
  {
  }

  lemma CutRecordsStep(records: seq<seq<Item>>, n: nat)
    requires n < |records|
    ensures CutRecords(records[..n + 1]) == [CutAll(records[0])] + CutRecords(records[1..][..n])
    ensures records[n + 1..] == records[1..][n..]
  {
    assert records[..n + 1][1..] == records[1..][..n];
  }

  lemma {:induction false} RecordsReadBack(kinds: seq<Kind>, records: seq<seq<Item>>, n: nat, rest: Bytes)
    requires Shaped(kinds, records) && n <= |records|
    ensures DecodeRecords(kinds, n, EncodeRecords(records) + rest) ==
              Read(CutRecords(records[..n]), EncodeRecords(records[n..]) + rest)
  {
    if n == 0 {
      assert records[..0] == [] && records[0..] == records;
    } else {
      var first, tail := records[0], records[1..];
      var back := EncodeRecords(tail) + rest;
      Vectors.Regroup(EncodeAll(first), EncodeRecords(tail), rest);
      RecordReadsBack(first, back);
      RecordsReadBack(kinds, tail, n - 1, rest);
      CutRecordsStep(records, n - 1);
      DecodeRecordsStep(kinds, n - 1, EncodeAll(first) + back, CutAll(first), back,
                        CutRecords(tail[..n - 1]), EncodeRecords(tail[n - 1..]) + rest);
    }
  }

  /** A list reads back as far as its count reaches; what is beyond stays in front of the rest. */
  lemma ListReadsBack(kinds: seq<Kind>, records: seq<seq<Item>>, rest: Bytes)
    requires Shaped(kinds, records)
    ensures var n := |records| % WORD_SPAN;
            DecodeList(kinds, EncodeList(records) + rest) ==
                Read(CutRecords(records[..n]), EncodeRecords(records[n..]) + rest)
  {
    var n := |records| % WORD_SPAN;
    Spans();
    Vectors.Regroup(LittleEndian(n, 4), EncodeRecords(records), rest);
    NumberReadsBack(n, 4, EncodeRecords(records) + rest);
    RecordsReadBack(kinds, records, n, rest);
  }

  lemma ShortListBytes(records: seq<seq<Item>>)
    requires |records| < WORD_SPAN && forall i :: 0 <= i < |records| ==> AllTyped(records[i])
    ensures EncodeList(records) == LittleEndian(|records|, 4) + EncodeRecords(records)
  {
    Division.Below(|records|, WORD_SPAN);
  }

  lemma AllRecordsReadBack(kinds: seq<Kind>, records: seq<seq<Item>>, rest: Bytes)
    requires Shaped(kinds, records)
    ensures DecodeRecords(kinds, |records|, EncodeRecords(records) + rest) == Read(CutRecords(records), rest)
  {
    RecordsReadBack(kinds, records, |records|, rest);
    assert records[..|records|] == records;
    assert EncodeRecords(records[|records|..]) == [];
  }

  lemma WholeListReadsBack(kinds: seq<Kind>, records: seq<seq<Item>>, rest: Bytes)
    requires Shaped(kinds, records) && |records| < WORD_SPAN
    ensures DecodeList(kinds, EncodeList(records) + rest) == Read(CutRecords(records), rest)
  {
    var bytes := EncodeRecords(records);
    Spans();
    ShortListBytes(records);
    Vectors.Regroup(LittleEndian(|records|, 4), bytes, rest);
    NumberReadsBack(|records|, 4, bytes + rest);
    AllRecordsReadBack(kinds, records, rest);
  }

  lemma SomethingWritten(records: seq<seq<Item>>)
    requires records != [] && forall i :: 0 <= i < |records| ==> AllTyped(records[i])
    requires EncodeAll(records[0]) != []
    ensures EncodeRecords(records) != []
  {
  }

  lemma LongListsLoseStep(kinds: seq<Kind>, records: seq<seq<Item>>, rest: Bytes)
    requires Shaped(kinds, records) && |records| >= WORD_SPAN
    requires forall i :: 0 <= i < |records| ==> EncodeAll(records[i]) != []
    ensures DecodeList(kinds, EncodeList(records) + rest).Read?
    ensures |DecodeList(kinds, EncodeList(records) + rest).rest| > |rest|
  {
    var n := |records| % WORD_SPAN;
    ListReadsBack(kinds, records, rest);
    var beyond := records[n..];
    assert beyond[0] == records[n];
    SomethingWritten(beyond);
  }

  /** If records take at least one byte, the framing stays in step exactly for lists the count can hold. */
  lemma ListStaysInStep(kinds: seq<Kind>, records: seq<seq<Item>>, rest: Bytes)
    requires Shaped(kinds, records) && forall i :: 0 <= i < |records| ==> EncodeAll(records[i]) != []
    ensures DecodeList(kinds, EncodeList(records) + rest).Read?
    ensures DecodeList(kinds, EncodeList(records) + rest).rest == rest <==> |records| < WORD_SPAN
  {
    if |records| < WORD_SPAN {
      WholeListReadsBack(kinds, records, rest);
    } else {
      LongListsLoseStep(kinds, records, rest);
    }
  }

  // What fits comes back whole

  predicate Fits(item: Item) {
    && Typed(item)
    && (item.Str? ==> |item.s| < SHORT_SPAN)
    && (item.WideStr? ==> |item.w| < WORD_SPAN)
  }

  predicate AllFit(items: seq<Item>) {
    forall i :: 0 <= i < |items| ==> Fits(items[i])
  }

  lemma {:induction false} FittingItemsStay(items: seq<Item>)
    requires AllFit(items)
    ensures CutAll(items) == items
  {
    if items != [] {
      FittingItemsStay(items[1..]);
      assert items == [items[0]] + items[1..];
      match items[0] {
        case Str(s) => assert s[..|s|] == s;
        case WideStr(w) => assert w[..|w|] == w;
        case _ =>
      }
    }
  }

  lemma {:induction false} FittingRecordsStay(records: seq<seq<Item>>)
    requires forall i :: 0 <= i < |records| ==> AllFit(records[i])
    ensures CutRecords(records) == records
  {
    if records != [] {
      FittingItemsStay(records[0]);
      FittingRecordsStay(records[1..]);
      assert records == [records[0]] + records[1..];
    }
  }
}
