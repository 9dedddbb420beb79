/** Prepared statements: cutting the SQL text, binding values by index and rendering the query. */
module PreparedStatement {
  import opened Decimal
  import opened SqlLiteral
  import opened SqlText
  import opened Wrappers
  import Encoding = Text

  type Byte = Encoding.Byte

  const MARIADB_OK := 0
  const MARIADB_ERROR := 1

  datatype Kind = Unset | Int | Text | Blob

  /** A binding keeps the fields of earlier bindings of other kinds. */
  datatype Binding = Binding(kind: Kind, intValue: int, textValue: string, blobValue: seq<Byte>, isNull: bool)

  const UNBOUND := Binding(Unset, 0, "", [], false)

  /** What the client library makes of a text; a connection without handle escapes nothing. */
  datatype Escaper = Escaper(hasHandle: bool, escape: string -> string)

  function EscapeText(e: Escaper, value: string): string {
    if !e.hasHandle then value
    else if value == "" then "''"
    else "'" + e.escape(value) + "'"
  }

  const HEX_DIGITS := ['0', '1', '2', '3', '4', '5', '6', '7', '8', '9', 'A', 'B', 'C', 'D', 'E', 'F']

  function HexText(blob: seq<Byte>): string {
    if blob == [] then "" else [HEX_DIGITS[blob[0] / 16], HEX_DIGITS[blob[0] % 16]] + HexText(blob[1..])
  }

  function BlobText(blob: seq<Byte>): string {
    if blob == [] then "X''" else "0x" + HexText(blob)
  }

  method FormatBlob(blob: seq<Byte>) returns (result: string)
    ensures result == BlobText(blob) && ReadLiteral(result) == BytesLiteral(blob)
  {
    result := "X''";
    if blob != [] { result := FormatBytes(blob); }
    BlobReadsBack(blob);
  }

  method FormatBytes(blob: seq<Byte>) returns (result: string)
    ensures result == "0x" + HexText(blob)
  {
    result := "0x";
    for i := 0 to |blob|
      invariant result + HexText(blob[i..]) == "0x" + HexText(blob)
    {
      assert blob[i..][1..] == blob[i + 1..];
      result := result + [HEX_DIGITS[blob[i] / 16], HEX_DIGITS[blob[i] % 16]];
    }
  }

  /** A rendered blob is a literal of its bytes. */
  lemma BlobReadsBack(blob: seq<Byte>)
    ensures ReadLiteral(BlobText(blob)) == BytesLiteral(blob)
  {
    if blob == [] {
      assert "X''"[2..2] == "";
    } else {
      HexTextIsHex(blob);
      HexReadsBack(HexText(blob));
    }
  }

  lemma {:induction false} HexTextIsHex(blob: seq<Byte>)
    ensures |HexText(blob)| == 2 * |blob| && IsHex(HexText(blob)) && FromHex(HexText(blob)) == blob
  {
    if blob != [] {
      HexTextIsHex(blob[1..]);
      FromHexNext(blob[0], HexText(blob[1..]));
    }
  }

  lemma FromHexNext(b: Byte, rest: string)
    requires IsHex(rest)
    ensures IsHex([HEX_DIGITS[b / 16], HEX_DIGITS[b % 16]] + rest)
    ensures FromHex([HEX_DIGITS[b / 16], HEX_DIGITS[b % 16]] + rest) == [b] + FromHex(rest)
  {
    var text := [HEX_DIGITS[b / 16], HEX_DIGITS[b % 16]] + rest;
    HexDigit(b / 16);
    HexDigit(b % 16);
    assert text[2..] == rest && |text| >= 2;
  }

  lemma HexDigit(d: nat)
    requires d < 16
    ensures IsHexDigit(HEX_DIGITS[d]) && HexValue(HEX_DIGITS[d]) == d && IsNameChar(HEX_DIGITS[d])
  {
  }

  function ValueText(b: Binding, e: Escaper): string {
    if b.isNull then "NULL"
    else match b.kind
         case Unset => "NULL"
         case Int => Integer(b.intValue)
         case Text => EscapeText(e, b.textValue)
         case Blob => BlobText(b.blobValue)
  }

  /** What a binding stands for; a text counts as what the escape function makes of it. */
  function Bound(b: Binding, e: Escaper): Literal {
    if b.isNull || b.kind == Unset then NullLiteral
    else match b.kind
         case Int => NumberLiteral(b.intValue)
         case Text => TextLiteral(if b.textValue == "" then "" else e.escape(b.textValue))
         case Blob => BytesLiteral(b.blobValue)
  }

  /** A literal of what was bound, except that without a handle texts go out as they are. */
  predicate ReadsBack(text: string, b: Binding, e: Escaper) {
    if HoldsText(b) && !e.hasHandle then text == b.textValue else ReadLiteral(text) == Bound(b, e)
  }

  lemma ValueReadsBack(b: Binding, e: Escaper)
    ensures ReadsBack(ValueText(b, e), b, e)
  {
    if !b.isNull {
      match b.kind {
        case Int => NumberReadsBack(b.intValue);
        case Text =>
          if b.textValue == "" {
            QuotedReadsBack("");
            assert "'" + "" + "'" == "''";
          } else {
            QuotedReadsBack(e.escape(b.textValue));
          }
        case Blob => BlobReadsBack(b.blobValue);
        case Unset =>
      }
    }
  }

  /** Distinct names are numbered from 1 in the order of their first occurrence. */
  function Numbering(names: seq<string>): (m: map<string, nat>)
    ensures forall n :: n in m <==> n in names
    ensures forall n :: n in m ==> 1 <= m[n] <= |m|
  {
    if names == [] then map[]
    else
      var m := Numbering(names[..|names| - 1]);
      var last := names[|names| - 1];
      assert names == names[..|names| - 1] + [last];
      if last in m then m else m[last := |m| + 1]
  }

  /** A name that is new gets the next number, and all the others keep theirs. */
  lemma NextNumber(names: seq<string>, name: string)
    ensures var before, after := Numbering(names), Numbering(names + [name]);
            && (forall n :: n in before ==> n in after && after[n] == before[n])
            && (name !in names ==> |after| == |before| + 1 == after[name])
  {
    assert (names + [name])[..|names|] == names;
  }

  lemma {:induction false} NumbersDiffer(names: seq<string>, a: string, b: string)
    requires a in names && b in names && a != b
    ensures Numbering(names)[a] != Numbering(names)[b]
  {
    var rest, last := names[..|names| - 1], names[|names| - 1];
    assert names == rest + [last];
    if a in rest && b in rest { NumbersDiffer(rest, a, b); }
  }

  function Indices(names: seq<string>, numbers: map<string, nat>): (r: seq<nat>)
    requires forall n :: n in names ==> n in numbers
    ensures |r| == |names| && forall i :: 0 <= i < |names| ==> r[i] == numbers[names[i]]
  {
    seq(|names|, i requires 0 <= i < |names| => numbers[names[i]])
  }

  /** Cutting a prefix of the text and the rest of it separately. */
  function Joined(front: Cut, rest: Cut): Cut
    requires front.Valid() && rest.Valid()
  {
    var n := |front.segments| - 1;
    Cut(front.segments[..n] + [front.segments[n] + rest.segments[0]] + rest.segments[1..], front.names + rest.names)
  }

  lemma JoinedChar(front: Cut, c: char, rest: Cut, longer: Cut)
    requires front.Valid() && rest.Valid()
    requires longer == Cut(Pushed(front.segments, c), front.names)
    ensures Joined(longer, rest) == Joined(front, Cut([[c] + rest.segments[0]] + rest.segments[1..], rest.names))
  {
    var last := front.segments[|front.segments| - 1];
    assert (last + [c]) + rest.segments[0] == last + ([c] + rest.segments[0]);
  }

  lemma JoinedName(front: Cut, name: string, rest: Cut)
    requires front.Valid() && rest.Valid()
    ensures Joined(Cut(front.segments + [""], front.names + [name]), rest) ==
              Joined(front, Cut([""] + rest.segments, [name] + rest.names))
  {
    var l, r := Joined(Cut(front.segments + [""], front.names + [name]), rest),
        Joined(front, Cut([""] + rest.segments, [name] + rest.names));
    assert front.segments[|front.segments| - 1] + "" == front.segments[|front.segments| - 1];
    assert "" + rest.segments[0] == rest.segments[0];
    assert (front.segments + [""])[..|front.segments|] == front.segments;
    assert front.names + [name] + rest.names == front.names + ([name] + rest.names);
    assert l.segments == r.segments;
  }

  lemma JoinedEmpty(c: Cut)
    requires c.Valid()
    ensures Joined(Cut([""], []), c) == c && Joined(c, Cut([""], [])) == c
  {
    var l, r := Joined(Cut([""], []), c), Joined(c, Cut([""], []));
    assert "" + c.segments[0] == c.segments[0];
    assert c.segments[|c.segments| - 1] + "" == c.segments[|c.segments| - 1];
    assert l.segments == c.segments && r.segments == c.segments;
  }

  /** `segments.back().push_back(c)` */
  function Pushed(segments: seq<string>, c: char): seq<string>
    requires segments != []
  {
    segments[|segments| - 1 := segments[|segments| - 1] + [c]]
  }

  lemma {:induction false} NameEndIs(sql: string, p: nat, e: nat)
    requires p <= e <= |sql| && (forall i :: p <= i < e ==> IsNameChar(sql[i])) && (e < |sql| ==> !IsNameChar(sql[e]))
    ensures NameEnd(sql, p) == e
    decreases e - p
  {
    if p < e { NameEndIs(sql, p + 1, e); }
  }

  /** The inner loop of the scanner: the longest name from `p` on. */
  method ReadName(sql: string, p: nat) returns (j: nat, name: string)
    requires p <= |sql|
    ensures j == NameEnd(sql, p) && name == sql[p..j]
  {
    j, name := p, "";
    while j < |sql| && IsNameChar(sql[j])
      invariant p <= j <= |sql| && name == sql[p..j]
      invariant forall k :: p <= k < j ==> IsNameChar(sql[k])
    {
      name := name + [sql[j]];
      j := j + 1;
    }
    NameEndIs(sql, p, j);
  }

  method RenderValue(binding: Binding, e: Escaper) returns (text: string)
    ensures text == ValueText(binding, e)
    ensures ReadsBack(text, binding, e)
  {
    ValueReadsBack(binding, e);
    if binding.isNull || binding.kind == Unset { return "NULL"; }
    match binding.kind {
      case Int => text := Integer(binding.intValue);
      case Text => text := EscapeText(e, binding.textValue);
      case Blob => text := FormatBlob(binding.blobValue);
      case Unset => text := "NULL";
    }
  }

  lemma WeaveRest(segments: seq<string>, values: seq<string>, i: nat)
    requires |segments| == |values| + 1 && i <= |values|
    ensures Weave(segments[i..], values[i..]) ==
              if i == |values| then segments[i] else segments[i] + values[i] + Weave(segments[i + 1..], values[i + 1..])
  {
    if i < |values| {
      assert segments[i..][1..] == segments[i + 1..] && values[i..][1..] == values[i + 1..];
    }
  }

  lemma WeaveMore(front: string, segments: seq<string>, values: seq<string>, i: nat)
    requires |segments| == |values| + 1 && i < |values|
    ensures front + Weave(segments[i..], values[i..]) ==
              (front + segments[i] + values[i]) + Weave(segments[i + 1..], values[i + 1..])
  {
    WeaveRest(segments, values, i);
    var a, b, c := segments[i], values[i], Weave(segments[i + 1..], values[i + 1..]);
    assert front + (a + b + c) == (front + a + b) + c;
  }

  lemma CharRead(sql: string, i: nat, front: Cut)
    requires i < |sql| && front.Valid() && !IsPlaceholder(sql, i)
    ensures Joined(Cut(Pushed(front.segments, sql[i]), front.names), Scan(sql, i + 1)) == Joined(front, Scan(sql, i))
    ensures Quoted(sql, i + 1) == if sql[i] == '\'' then !Quoted(sql, i) else Quoted(sql, i)
  {
    StateStep(sql, i);
    JoinedChar(front, sql[i], Scan(sql, i + 1), Cut(Pushed(front.segments, sql[i]), front.names));
  }

  lemma PlaceholderRead(sql: string, i: nat, j: nat, front: Cut)
    requires i < |sql| && front.Valid() && sql[i] == '@' && !Quoted(sql, i) && j == NameEnd(sql, i + 1) && i + 1 < j
    ensures IsPlaceholder(sql, i) && NameAt(sql, i) == sql[i + 1..j] && !Quoted(sql, j)
    ensures Joined(Cut(front.segments + [""], front.names + [NameAt(sql, i)]), Scan(sql, j)) ==
              Joined(front, Scan(sql, i))
  {
    StateStep(sql, i);
    NameKeepsState(sql, i + 1, j);
    JoinedName(front, NameAt(sql, i), Scan(sql, j));
  }

  class Statement {
    const sql: string
    var segments: seq<string>
    var placeholderToLogicalIndex: seq<nat>
    var logicalIndexByName: map<string, nat>
    var bindings: seq<Binding>

    /** Segments, placeholder indices and name table are those of the cut text; one binding per name. */
    ghost predicate Valid()
      reads this
    {
      segments == Scan(sql, 0).segments && Indexed(Scan(sql, 0).names)
    }

    ghost predicate Indexed(names: seq<string>)
      reads this
    {
      && logicalIndexByName == Numbering(names)
      && placeholderToLogicalIndex == Indices(names, Numbering(names))
      && |bindings| == |logicalIndexByName|
    }

    /** `mariadb_prepare` on a live connection. */
    constructor (sql: string)
      ensures this.sql == sql && Valid() && forall i :: 0 <= i < |bindings| ==> bindings[i] == UNBOUND
    {
      this.sql := sql;
      segments, placeholderToLogicalIndex, logicalIndexByName, bindings := [""], [], map[], [];
      new;
      var inStringLiteral := false;
      var i := 0;
      ghost var names: seq<string> := [];
      JoinedEmpty(Scan(sql, 0));
      while i < |sql|
        invariant 0 <= i <= |sql| && inStringLiteral == Quoted(sql, i)
        invariant |segments| == |names| + 1 && Joined(Cut(segments, names), Scan(sql, i)) == Scan(sql, 0)
        invariant Indexed(names) && forall k :: 0 <= k < |bindings| ==> bindings[k] == UNBOUND
        decreases |sql| - i
      {
        i, inStringLiteral, names := ScanStep(i, inStringLiteral, names);
      }
      JoinedEmpty(Cut(segments, names));
    }

    /** One round of the scanner loop: a quote, a placeholder or any other character. */
    method ScanStep(i: nat, quoted: bool, ghost names: seq<string>)
      returns (next: nat, stillQuoted: bool, ghost allNames: seq<string>)
      requires i < |sql| && quoted == Quoted(sql, i) && |segments| == |names| + 1 && Indexed(names)
      modifies this
      ensures i < next <= |sql| && stillQuoted == Quoted(sql, next) && |segments| == |allNames| + 1 && Indexed(allNames)
      ensures Joined(Cut(segments, allNames), Scan(sql, next)) == Joined(Cut(old(segments), names), Scan(sql, i))
      ensures (forall k :: 0 <= k < |old(bindings)| ==> old(bindings)[k] == UNBOUND) ==>
                forall k :: 0 <= k < |bindings| ==> bindings[k] == UNBOUND
    {
      var c := sql[i];
      if !quoted && c == '@' {
        var j, name := ReadName(sql, i + 1);
        if name != "" {
          PlaceholderRead(sql, i, j, Cut(segments, names));
          AddPlaceholder(name, names);
          return j, quoted, names + [name];
        }
      }
      CharRead(sql, i, Cut(segments, names));
      PushChar(c, names);
      return i + 1, if c == '\'' then !quoted else quoted, names;
    }

    method PushChar(c: char, ghost names: seq<string>)
      requires segments != [] && Indexed(names)
      modifies this`segments
      ensures segments == Pushed(old(segments), c) && Indexed(names)
    {
      segments := Pushed(segments, c);
    }

    /** Looks the name up or gives it the next number and a fresh binding. */
    method AddPlaceholder(name: string, ghost names: seq<string>)
      requires Indexed(names)
      modifies this
      ensures Indexed(names + [name]) && segments == old(segments) + [""]
      ensures (forall i :: 0 <= i < |old(bindings)| ==> old(bindings)[i] == UNBOUND) ==>
                forall i :: 0 <= i < |bindings| ==> bindings[i] == UNBOUND
    {
      assert (names + [name])[..|names|] == names;
      var logicalIndex := 0;
      if name in logicalIndexByName {
        logicalIndex := logicalIndexByName[name];
      } else {
        logicalIndex := |logicalIndexByName| + 1;
        logicalIndexByName := logicalIndexByName[name := logicalIndex];
        bindings := bindings + [UNBOUND];
      }
      placeholderToLogicalIndex := placeholderToLogicalIndex + [logicalIndex];
      segments := segments + [""];
    }

    /** `mariadb_bind_parameter_index`: the name with or without its `@`; 0 if there is no such name. */
    method BindParameterIndex(parameterName: string) returns (index: nat)
      requires Valid()
      ensures var key := if parameterName != "" && parameterName[0] == '@' then parameterName[1..] else parameterName;
              if key in Scan(sql, 0).names then 1 <= index <= |bindings| && index == Numbering(Scan(sql, 0).names)[key]
                  else index == 0
    {
      var key := if parameterName != "" && parameterName[0] == '@' then parameterName[1..] else parameterName;
      index := if key in logicalIndexByName then logicalIndexByName[key] else 0;
    }

    method BindInt(index: int, value: int) returns (code: int)
      requires Valid()
      modifies this`bindings
      ensures Valid() && code == (if 1 <= index <= |bindings| then MARIADB_OK else MARIADB_ERROR)
      ensures bindings == if code == MARIADB_OK
                then old(bindings)[index - 1 :=
                    old(bindings[index - 1]).(kind := Int, intValue := value, isNull := false)] else old(bindings)
    {
      if index <= 0 || index > |bindings| { return MARIADB_ERROR; }
      bindings := bindings[index - 1 := bindings[index - 1].(kind := Int, intValue := value, isNull := false)];
      return MARIADB_OK;
    }

    /** `None` stands for a null pointer; a negative length means the whole string. */
    method BindText(index: int, value: Option<string>, length: int) returns (code: int)
      requires Valid() && (value.Some? ==> length <= |value.value|)
      modifies this`bindings
      ensures Valid() && code == (if 1 <= index <= |bindings| then MARIADB_OK else MARIADB_ERROR)
      ensures bindings == if code == MARIADB_OK
                then old(bindings)[index - 1 := TextBound(old(bindings[index - 1]), value, length)] else old(bindings)
      ensures code == MARIADB_OK ==>
                var b := bindings[index - 1];
                && (b.isNull <==> value.None?)
                && (value.Some? ==>
                      HoldsText(b) && b.textValue == if length < 0 then value.value else value.value[..length])
    {
      if index <= 0 || index > |bindings| { return MARIADB_ERROR; }
      var binding := bindings[index - 1].(kind := Text);
      match value {
        case None => binding := binding.(textValue := "", isNull := true);
        case Some(text) =>
          var count := if length < 0 then |text| else length;
          assert text[..|text|] == text;
          binding := binding.(textValue := text[..count], isNull := false);
      }
      bindings := bindings[index - 1 := binding];
      return MARIADB_OK;
    }

    method BindBlob(index: int, value: Option<seq<Byte>>, length: int) returns (code: int)
      requires Valid() && (value.Some? ==> length <= |value.value|)
      modifies this`bindings
      ensures Valid() && code == (if 1 <= index <= |bindings| then MARIADB_OK else MARIADB_ERROR)
      ensures bindings == if code == MARIADB_OK
                then old(bindings)[index - 1 := BlobBound(old(bindings[index - 1]), value, length)] else old(bindings)
      ensures code == MARIADB_OK ==>
                var b := bindings[index - 1];
                && (b.isNull <==> value.None?)
                && (value.Some? ==> b.kind == Blob && b.blobValue == if length < 0 then [] else value.value[..length])
    {
      if index <= 0 || index > |bindings| { return MARIADB_ERROR; }
      var binding := bindings[index - 1].(kind := Blob, blobValue := []);
      match value {
        case None => binding := binding.(isNull := true);
        case Some(bytes) =>
          var count := if length < 0 then 0 else length;
          binding := binding.(blobValue := bytes[..count], isNull := false);
      }
      bindings := bindings[index - 1 := binding];
      return MARIADB_OK;
    }

    /** Every placeholder outside literals, and nothing else, gives way to the value of its name's binding. */
    method RenderQuery(e: Escaper) returns (query: string)
      requires Valid()
      ensures query == Substitute(sql, 0, NamedValue(logicalIndexByName, bindings, e))
      ensures AllReadBack(logicalIndexByName, bindings, e)
    {
      query := SubstituteBindings(e);
      NamedReadsBack(logicalIndexByName, bindings, e);
    }

    method SubstituteBindings(e: Escaper) returns (query: string)
      requires Valid()
      ensures query == Substitute(sql, 0, NamedValue(logicalIndexByName, bindings, e))
    {
      ghost var names := Scan(sql, 0).names;
      forall i | 0 <= i < |names| ensures 1 <= placeholderToLogicalIndex[i] <= |bindings| {
        NumberOf(names, i);
      }
      TextsAreValues(names, logicalIndexByName, bindings, e);
      query := RenderPieces(segments, placeholderToLogicalIndex, bindings, e);
      WeaveIsSubstitution(sql, 0, NamedValue(logicalIndexByName, bindings, e));
    }
  }

  /** What stands for a name reads as what is bound to its number. */
  ghost predicate AllReadBack(numbers: map<string, nat>, bindings: seq<Binding>, e: Escaper) {
    forall name :: name in numbers ==>
      && 1 <= numbers[name] <= |bindings|
      && ReadsBack(NamedValue(numbers, bindings, e)(name), bindings[numbers[name] - 1], e)
  }

  lemma NamedReadsBack(numbers: map<string, nat>, bindings: seq<Binding>, e: Escaper)
    requires forall name :: name in numbers ==> 1 <= numbers[name] <= |bindings|
    ensures AllReadBack(numbers, bindings, e)
  {
    forall name | name in numbers
      ensures ReadsBack(NamedValue(numbers, bindings, e)(name), bindings[numbers[name] - 1], e)
    {
      ValueReadsBack(bindings[numbers[name] - 1], e);
    }
  }

  lemma TextsAreValues(names: seq<string>, numbers: map<string, nat>, bindings: seq<Binding>, e: Escaper)
    requires forall i :: 0 <= i < |names| ==> names[i] in numbers && 1 <= numbers[names[i]] <= |bindings|
    ensures Texts(Indices(names, numbers), bindings, e) == Values(names, NamedValue(numbers, bindings, e))
  {
    var texts, values := Texts(Indices(names, numbers), bindings, e), Values(names, NamedValue(numbers, bindings, e));
    forall i | 0 <= i < |names| ensures texts[i] == values[i] {
    }
  }

  ghost function Texts(order: seq<nat>, bindings: seq<Binding>, e: Escaper): (texts: seq<string>)
    requires forall i :: 0 <= i < |order| ==> 1 <= order[i] <= |bindings|
    ensures |texts| == |order| && forall i :: 0 <= i < |order| ==> texts[i] == ValueText(bindings[order[i] - 1], e)
  {
    seq(|order|, i requires 0 <= i < |order| => ValueText(bindings[order[i] - 1], e))
  }

  /** The loop of `RenderQuery`. */
  method RenderPieces(segments: seq<string>, order: seq<nat>, bindings: seq<Binding>, e: Escaper)
    returns (query: string)
    requires |segments| == |order| + 1 && forall i :: 0 <= i < |order| ==> 1 <= order[i] <= |bindings|
    ensures query == Weave(segments, Texts(order, bindings, e))
  {
    ghost var values := Texts(order, bindings, e);
    query := "";
    assert segments[0..] == segments && values[0..] == values;
    for i := 0 to |order|
      invariant query + Weave(segments[i..], values[i..]) == Weave(segments, values)
    {
      var text := RenderValue(bindings[order[i] - 1], e);
      WeaveMore(query, segments, values, i);
      query := query + segments[i] + text;
    }
    WeaveRest(segments, values, |values|);
    if segments != [] { query := query + segments[|segments| - 1]; }
  }

  lemma NumberOf(names: seq<string>, i: nat)
    requires i < |names|
    ensures names[i] in Numbering(names) && 1 <= Numbering(names)[names[i]] <= |Numbering(names)|
  {
  }

  function TextBound(b: Binding, value: Option<string>, length: int): Binding
    requires value.Some? ==> length <= |value.value|
  {
    match value
    case None => b.(kind := Text, textValue := "", isNull := true)
    case Some(text) => b.(kind := Text, textValue := if length < 0 then text else text[..length], isNull := false)
  }

  function BlobBound(b: Binding, value: Option<seq<Byte>>, length: int): Binding
    requires value.Some? ==> length <= |value.value|
  {
    match value
    case None => b.(kind := Blob, blobValue := [], isNull := true)
    case Some(bytes) => b.(kind := Blob, blobValue := if length < 0 then [] else bytes[..length], isNull := false)
  }

  /** The text a name stands for under the current bindings. */
  function NamedValue(numbers: map<string, nat>, bindings: seq<Binding>, e: Escaper): string -> string {
    (name: string) =>
      if name in numbers && 1 <= numbers[name] <= |bindings| then ValueText(bindings[numbers[name] - 1], e) else "NULL"
  }

  /** Escaped text that leaves a literal it stands in as it found it: every quote in it is followed by
      another before a placeholder could start. */
  predicate StaysInside(s: string) {
    Clean(s, State(true, false)) && After(s, State(true, false)).quoted
  }

  predicate QuoteFree(s: string) {
    '\'' !in s
  }

  predicate CleanlyEscaped(b: Binding, e: Escaper) {
    e.hasHandle && (b.kind == Text && !b.isNull && b.textValue != "" ==> StaysInside(e.escape(b.textValue)))
  }

  /** Rendered values that begin like a name: NULL, digits and hexadecimal blobs. */
  predicate StartsLikeName(b: Binding) {
    b.isNull || b.kind == Unset || b.kind == Blob || (b.kind == Int && b.intValue >= 0)
  }

  lemma {:induction false} NameCharsAreSafe(v: string, from: State)
    requires (forall c :: c in v ==> IsNameChar(c)) && !from.quoted && !from.at
    ensures Clean(v, from) && After(v, from) == from
  {
    if v != "" {
      assert v[0] in v && forall c :: c in v[1..] ==> c in v;
      NameCharsAreSafe(v[1..], from);
    }
  }

  lemma {:induction false} QuoteFreeStaysInside(s: string)
    requires QuoteFree(s)
    ensures StaysInside(s) && After(s, State(true, false)) == State(true, false)
  {
    if s != "" {
      assert s[0] in s && forall c :: c in s[1..] ==> c in s;
      QuoteFreeStaysInside(s[1..]);
    }
  }

  lemma LiteralIsSafe(s: string)
    ensures SafeValue("'" + s + "'") <==> StaysInside(s)
  {
    CleanConcat("'" + s, "'", START);
    CleanConcat("'", s, START);
    var inside := After(s, State(true, false));
    assert "'"[1..] == "" && After("'", START) == State(true, false);
    assert After("'", inside) == Next('\'', inside) && Clean("'", inside);
  }

  lemma {:induction false} HexIsName(blob: seq<Byte>)
    ensures forall c :: c in HexText(blob) ==> IsNameChar(c)
  {
    if blob != [] {
      HexIsName(blob[1..]);
      HexDigit(blob[0] / 16);
      HexDigit(blob[0] % 16);
    }
  }

  /** A rendered value is inert where it stands exactly if escaping keeps texts inside their quotes. */
  lemma ValueIsSafe(b: Binding, e: Escaper)
    requires e.hasHandle
    ensures SafeValue(ValueText(b, e)) <==> CleanlyEscaped(b, e)
    ensures ValueText(b, e) != "" && (IsNameChar(ValueText(b, e)[0]) <==> StartsLikeName(b))
  {
    if b.isNull || b.kind == Unset {
      NameCharsAreSafe("NULL", START);
    } else {
      match b.kind
      case Int =>
        var digits := Natural(if b.intValue < 0 then -b.intValue else b.intValue);
        NameCharsAreSafe(digits, START);
        assert digits[0] in digits;
        if b.intValue < 0 {
          assert ("-" + digits)[1..] == digits && Next('-', START) == START;
        }
      case Text =>
        LiteralIsSafe(if b.textValue == "" then "" else e.escape(b.textValue));
        assert b.textValue == "" ==> "'" + "" + "'" == "''";
      case Blob =>
        HexIsName(b.blobValue);
        NameCharsAreSafe("0x" + HexText(b.blobValue), START);
        EmptyBlobIsSafe();
    }
  }

  lemma EmptyBlobIsSafe()
    ensures SafeValue("X''")
  {
    LiteralIsSafe("");
    assert "'" + "" + "'" == "''";
    assert "X''"[1..] == "''" && Next('X', START) == START;
  }

  predicate EndsWithAt(segment: string) {
    segment != "" && segment[|segment| - 1] == '@'
  }

  /** Some value that starts like a name goes right behind an `@`. */
  ghost predicate Glues(c: Cut, numbers: map<string, nat>, bindings: seq<Binding>)
    requires c.Valid() && forall i :: 0 <= i < |c.names| ==>
               c.names[i] in numbers && 1 <= numbers[c.names[i]] <= |bindings|
  {
    exists i :: 0 <= i < |c.names| && EndsWithAt(c.segments[i]) && StartsLikeName(bindings[numbers[c.names[i]] - 1])
  }

  lemma GluedValues(c: Cut, numbers: map<string, nat>, bindings: seq<Binding>, e: Escaper)
    requires c.Valid() && forall i :: 0 <= i < |c.names| ==>
               c.names[i] in numbers && 1 <= numbers[c.names[i]] <= |bindings|
    requires forall i :: 0 <= i < |bindings| ==> CleanlyEscaped(bindings[i], e)
    ensures var values := Values(c.names, NamedValue(numbers, bindings, e));
            && (forall i :: 0 <= i < |values| ==> SafeValue(values[i]))
            && ((exists i :: 0 <= i < |values| && Joins(c.segments[i], values[i])) <==> Glues(c, numbers, bindings))
  {
    var values := Values(c.names, NamedValue(numbers, bindings, e));
    forall i | 0 <= i < |c.names|
      ensures SafeValue(values[i])
      ensures Joins(c.segments[i], values[i]) <==>
                EndsWithAt(c.segments[i]) && StartsLikeName(bindings[numbers[c.names[i]] - 1])
    {
      var b := bindings[numbers[c.names[i]] - 1];
      assert values[i] == ValueText(b, e);
      ValueIsSafe(b, e);
    }
  }

  /** Preparing a rendered query again yields one segment and no placeholder, unless a value that
      starts like a name stands right behind an `@`; and then it does not. */
  lemma RenderedAgain(sql: string, bindings: seq<Binding>, e: Escaper)
    requires |bindings| == |Numbering(Scan(sql, 0).names)|
    requires forall i :: 0 <= i < |bindings| ==> CleanlyEscaped(bindings[i], e)
    ensures var numbers := Numbering(Scan(sql, 0).names);
            var rendered := Substitute(sql, 0, NamedValue(numbers, bindings, e));
            Scan(rendered, 0) == Cut([rendered], []) <==> !Glues(Scan(sql, 0), numbers, bindings)
  {
    var c, numbers := Scan(sql, 0), Numbering(Scan(sql, 0).names);
    forall i | 0 <= i < |c.names| ensures 1 <= numbers[c.names[i]] <= |bindings| {
      NumberOf(c.names, i);
    }
    GluedValues(c, numbers, bindings, e);
    WeaveIsSubstitution(sql, 0, NamedValue(numbers, bindings, e));
    PrepareAgain(sql, Values(c.names, NamedValue(numbers, bindings, e)));
  }

  // Escaping with backslashes

  ghost predicate EscapesWithBackslash(e: Escaper) {
    e.hasHandle && forall v :: e.escape(v) == BackslashEscape(v)
  }

  /** The server reads the text that was bound. */
  lemma {:induction false} EscapeReadsBack(v: string)
    ensures ReadInner(BackslashEscape(v)) == Some(v)
  {
    if v != "" {
      var rest := BackslashEscape(v[1..]);
      EscapeReadsBack(v[1..]);
      EscapedCharReadsBack(v[0], rest);
      assert v == [v[0]] + v[1..];
    }
  }

  lemma EscapedCharReadsBack(c: char, rest: string)
    ensures ReadInner(EscapedChar(c) + rest) == Behind(c, ReadInner(rest))
  {
    var e := EscapedChar(c);
    if |e| == 2 {
      assert (e + rest)[2..] == rest;
    } else {
      assert (e + rest)[1..] == rest;
    }
  }

  lemma TextReadsBack(b: Binding, e: Escaper)
    requires EscapesWithBackslash(e) && HoldsText(b)
    ensures ReadLiteral(ValueText(b, e)).TextLiteral?
    ensures ReadInner(ReadLiteral(ValueText(b, e)).inner) == Some(b.textValue)
  {
    ValueReadsBack(b, e);
    EscapeReadsBack(b.textValue);
  }

  /** A text with paired quotes in which no `@` is exposed. */
  ghost predicate Tame(v: string) {
    QuoteCount(v) % 2 == 0 && forall p :: 0 <= p < |v| ==> !ExposedAt(v, p)
  }

  /** Escaped with backslashes, a text stays inside its quotes exactly if it is tame: escaping is no help. */
  lemma TameStaysInside(v: string)
    ensures StaysInside(BackslashEscape(v)) <==> Tame(v)
  {
    EscapeIsInvisible(v, State(true, false));
    AfterQuotes(v, State(true, false));
    InsideIsClean(v);
  }

  /** A text is bound to the parameter. */
  predicate HoldsText(b: Binding) {
    b.kind == Text && !b.isNull
  }

  ghost predicate PairedQuotes(b: Binding) {
    HoldsText(b) ==> QuoteCount(b.textValue) % 2 == 0
  }

  lemma TextValueIsLevel(b: Binding, e: Escaper)
    requires EscapesWithBackslash(e) && PairedQuotes(b)
    ensures LevelValue(ValueText(b, e))
    ensures Clean(ValueText(b, e), START) <==> (HoldsText(b) ==> Tame(b.textValue))
  {
    ValueIsSafe(b, e);
    if HoldsText(b) {
      TameStaysInside(b.textValue);
      QuotedLevel(b.textValue);
      assert b.textValue == "" ==> "'" + "" + "'" == "''" && BackslashEscape("") == "";
    }
  }

  lemma QuotedLevel(v: string)
    requires QuoteCount(v) % 2 == 0
    ensures var value := "'" + BackslashEscape(v) + "'";
            LevelValue(value) && (Clean(value, START) <==> Tame(v))
  {
    var s := BackslashEscape(v);
    CleanConcat("'" + s, "'", START);
    CleanConcat("'", s, START);
    EscapeIsInvisible(v, State(true, false));
    AfterQuotes(v, State(true, false));
    InsideIsClean(v);
    var inside := After(s, State(true, false));
    assert "'"[1..] == "" && After("'", START) == State(true, false);
    assert After("'", inside) == Next('\'', inside) && Clean("'", inside);
  }

  /** Some bound text that the statement uses exposes an `@`. */
  ghost predicate Exposes(c: Cut, numbers: map<string, nat>, bindings: seq<Binding>)
    requires c.Valid()
    requires forall i :: 0 <= i < |c.names| ==> c.names[i] in numbers && 1 <= numbers[c.names[i]] <= |bindings|
  {
    exists i :: 0 <= i < |c.names| && HoldsText(bindings[numbers[c.names[i]] - 1])
                && !Tame(bindings[numbers[c.names[i]] - 1].textValue)
  }

  lemma TextValue(b: Binding, e: Escaper, segment: string)
    requires EscapesWithBackslash(e) && PairedQuotes(b)
    ensures LevelValue(ValueText(b, e))
    ensures !Joins(segment, ValueText(b, e)) && Clean(ValueText(b, e), START) <==>
              !(EndsWithAt(segment) && StartsLikeName(b)) && (HoldsText(b) ==> Tame(b.textValue))
  {
    TextValueIsLevel(b, e);
    ValueIsSafe(b, e);
  }

  lemma TextValues(c: Cut, numbers: map<string, nat>, bindings: seq<Binding>, e: Escaper)
    requires c.Valid() && EscapesWithBackslash(e) && forall i :: 0 <= i < |bindings| ==> PairedQuotes(bindings[i])
    requires forall i :: 0 <= i < |c.names| ==> c.names[i] in numbers && 1 <= numbers[c.names[i]] <= |bindings|
    ensures var values := Values(c.names, NamedValue(numbers, bindings, e));
            && (forall i :: 0 <= i < |values| ==> LevelValue(values[i]))
            && ((forall i :: 0 <= i < |values| ==> !Joins(c.segments[i], values[i]) && Clean(values[i], START)) <==>
                !Glues(c, numbers, bindings) && !Exposes(c, numbers, bindings))
  {
    var values := Values(c.names, NamedValue(numbers, bindings, e));
    forall i | 0 <= i < |c.names|
      ensures LevelValue(values[i])
      ensures var b := bindings[numbers[c.names[i]] - 1];
              !Joins(c.segments[i], values[i]) && Clean(values[i], START) <==>
                !(EndsWithAt(c.segments[i]) && StartsLikeName(b)) && (HoldsText(b) ==> Tame(b.textValue))
    {
      var b := bindings[numbers[c.names[i]] - 1];
      assert values[i] == ValueText(b, e);
      TextValue(b, e, c.segments[i]);
    }
  }

  /** With backslash escaping and any bound texts whose quotes are paired: exactly if no used text exposes
      an `@` and no value that starts like a name goes behind one. */
  lemma RenderedTextsAgain(sql: string, bindings: seq<Binding>, e: Escaper)
    requires |bindings| == |Numbering(Scan(sql, 0).names)| && EscapesWithBackslash(e)
    requires forall i :: 0 <= i < |bindings| ==> PairedQuotes(bindings[i])
    ensures var numbers := Numbering(Scan(sql, 0).names);
            var rendered := Substitute(sql, 0, NamedValue(numbers, bindings, e));
            Scan(rendered, 0) == Cut([rendered], []) <==>
              !Glues(Scan(sql, 0), numbers, bindings) && !Exposes(Scan(sql, 0), numbers, bindings)
  {
    var c, numbers := Scan(sql, 0), Numbering(Scan(sql, 0).names);
    forall i | 0 <= i < |c.names| ensures 1 <= numbers[c.names[i]] <= |bindings| {
      NumberOf(c.names, i);
    }
    TextValues(c, numbers, bindings, e);
    WeaveIsSubstitution(sql, 0, NamedValue(numbers, bindings, e));
    PrepareLevelAgain(sql, Values(c.names, NamedValue(numbers, bindings, e)));
  }

  /** With values of any kind, and even without a handle: exactly if the scanner, passing from piece to
      piece, never meets a name character behind an `@` outside literals. */
  lemma RenderedAnyAgain(sql: string, bindings: seq<Binding>, e: Escaper)
    ensures var numbers, c := Numbering(Scan(sql, 0).names), Scan(sql, 0);
            var value := NamedValue(numbers, bindings, e);
            var rendered := Substitute(sql, 0, value);
            Scan(rendered, 0) == Cut([rendered], []) <==> PiecesClean(c.segments, Values(c.names, value), START)
  {
    var c, value := Scan(sql, 0), NamedValue(Numbering(Scan(sql, 0).names), bindings, e);
    WeaveIsSubstitution(sql, 0, value);
    PrepareAnyAgain(sql, Values(c.names, value));
  }

  /** A value as it would be rendered without any escaping, empty texts included. */
  function RawText(b: Binding, e: Escaper): string {
    if HoldsText(b) then "'" + b.textValue + "'" else ValueText(b, e)
  }

  function RawValue(numbers: map<string, nat>, bindings: seq<Binding>, e: Escaper): string -> string {
    (name: string) =>
      if name in numbers && 1 <= numbers[name] <= |bindings| then RawText(bindings[numbers[name] - 1], e) else "NULL"
  }

  lemma RawIsSame(b: Binding, e: Escaper)
    requires EscapesWithBackslash(e)
    ensures SameToScanner(ValueText(b, e), RawText(b, e))
  {
    if HoldsText(b) {
      var s, v := BackslashEscape(b.textValue), b.textValue;
      assert b.textValue == "" ==> "'" + "" + "'" == "''";
      assert ValueText(b, e) == "'" + s + "'";
      forall from: State
        ensures After("'" + s + "'", from) == After("'" + v + "'", from)
        ensures Clean("'" + s + "'", from) <==> Clean("'" + v + "'", from)
      {
        EscapeIsInvisible(v, After("'", from));
        CleanConcat("'" + s, "'", from);
        CleanConcat("'", s, from);
        CleanConcat("'" + v, "'", from);
        CleanConcat("'", v, from);
      }
    }
  }

  lemma RawPieces(c: Cut, numbers: map<string, nat>, bindings: seq<Binding>, e: Escaper)
    requires c.Valid() && EscapesWithBackslash(e)
    ensures PiecesClean(c.segments, Values(c.names, NamedValue(numbers, bindings, e)), START) <==>
            PiecesClean(c.segments, Values(c.names, RawValue(numbers, bindings, e)), START)
  {
    var named, plain := NamedValue(numbers, bindings, e), RawValue(numbers, bindings, e);
    forall i | 0 <= i < |c.names| ensures SameToScanner(Values(c.names, named)[i], Values(c.names, plain)[i]) {
      if c.names[i] in numbers && 1 <= numbers[c.names[i]] <= |bindings| {
        RawIsSame(bindings[numbers[c.names[i]] - 1], e);
      }
    }
    SamePieces(c.segments, Values(c.names, named), Values(c.names, plain), START);
  }

  /** With backslash escaping and any texts at all, the condition is one on the texts as they were bound:
      exactly if a scan of the segments and the unescaped texts in turn meets no name character behind an
      `@` outside literals. */
  lemma RenderedRawAgain(sql: string, bindings: seq<Binding>, e: Escaper)
    requires EscapesWithBackslash(e)
    ensures var numbers, c := Numbering(Scan(sql, 0).names), Scan(sql, 0);
            var rendered := Substitute(sql, 0, NamedValue(numbers, bindings, e));
            Scan(rendered, 0) == Cut([rendered], []) <==>
              PiecesClean(c.segments, Values(c.names, RawValue(numbers, bindings, e)), START)
  {
    var c, numbers := Scan(sql, 0), Numbering(Scan(sql, 0).names);
    RenderedAnyAgain(sql, bindings, e);
    RawPieces(c, numbers, bindings, e);
  }

  /** A number behind `@@`: the second `@` goes with the name, the first one stays in front of the digits. */
  lemma NumberBehindAt(e: Escaper)
    requires e.hasHandle
    ensures var bindings := [Binding(Int, 5, "", [], false)];
            var rendered := Substitute("@@a", 0, NamedValue(map["a" := 1], bindings, e));
            Scan("@@a", 0) == Cut(["@", ""], ["a"]) && Glues(Scan("@@a", 0), map["a" := 1], bindings)
            && Scan(rendered, 0) != Cut([rendered], [])
  {
    var bindings := [Binding(Int, 5, "", [], false)];
    ScanOfExample();
    assert Numbering(["a"][..0]) == map[] && Numbering(["a"]) == map["a" := 1];
    RenderedAgain("@@a", bindings, e);
  }

  lemma ScanOfExample()
    ensures Scan("@@a", 0) == Cut(["@", ""], ["a"])
  {
    var sql := "@@a";
    assert sql[..0] == "" && sql[..1] == "@" && sql[..1][..0] == "";
    assert QuoteCount(sql[..1]) == 0;
    assert IsPlaceholder(sql, 1) && !IsPlaceholder(sql, 0);
    assert NameEnd(sql, 2) == 3 && NameAt(sql, 1) == "a";
    assert Scan(sql, 3) == Cut([""], []) && Scan(sql, 1) == Cut(["", ""], ["a"]);
    var rest := Scan(sql, 1);
    assert Scan(sql, 0) == Cut([[sql[0]] + rest.segments[0]] + rest.segments[1..], rest.names);
    assert [sql[0]] + rest.segments[0] == "@" && rest.segments[1..] == [""];
  }

  /** An apostrophe escaped with a backslash still counts as a quote, so a literal behind it is open text
      to the scanner, and an `@` in it a placeholder. */
  lemma ApostropheOpensLiteral(e: Escaper)
    requires e.hasHandle && e.escape("'") == "\\'"
    ensures !CleanlyEscaped(Binding(Text, 0, "'", [], false), e)
    ensures !PiecesClean(["", "'@y'"], [ValueText(Binding(Text, 0, "'", [], false), e)], START)
  {
    var text, rest := "\\'", "'@y'";
    var value := "'" + text + "'";
    assert value == "'\\''" && value[1..] == "\\''" && value[1..][1..] == "''" && value[1..][1..][1..] == "'";
    assert text[1..] == "'" && text[1..][1..] == "";
    var end := value[1..][1..][1..];
    assert end[1..] == "" && After(end, START) == State(true, false) &&
           After(value[1..][1..], State(true, false)) == State(true, false);
    assert After(value, START) == State(true, false);
    assert rest[1..] == "@y'" && rest[1..][1..] == "y'";
    assert !Clean(rest, State(true, false));
    var segments, values := ["", rest], [value];
    assert segments[1..] == [rest] && values[1..] == [] &&
           PiecesClean(["", rest], values, START) == PiecesClean(segments, values, START);
  }
}
