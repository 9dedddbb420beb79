/** Literals of SQL, as the server reads them. */
module SqlLiteral {
  import opened Decimal
  import opened Wrappers

  datatype Literal =
    | NullLiteral
    | NumberLiteral(value: int)
    | TextLiteral(inner: string)
    | BytesLiteral(bytes: seq<int>)
    | NoLiteral

  predicate IsHexDigit(c: char) {
    '0' <= c <= '9' || 'A' <= c <= 'F' || 'a' <= c <= 'f'
  }

  function HexValue(c: char): (v: nat)
    requires IsHexDigit(c)
    ensures v < 16
  {
    if c <= '9' then c as int - '0' as int
    else if c <= 'F' then c as int - 'A' as int + 10
    else c as int - 'a' as int + 10
  }

  /** Two digits for each byte. */
  predicate IsHex(s: string) {
    |s| % 2 == 0 && forall c :: c in s ==> IsHexDigit(c)
  }

  function FromHex(s: string): seq<int>
    requires IsHex(s)
  {
    if s == "" then [] else [16 * HexValue(s[0]) + HexValue(s[1])] + FromHex(s[2..])
  }

  predicate AllDigits(s: string) {
    s != "" && forall c :: c in s ==> IsDigit(c)
  }

  /** `NULL`, `0x...`, `X'...'`, a quoted text, or a decimal number; what stands between the quotes of a text
      is for the escape rules of the connection. */
  function ReadLiteral(s: string): Literal {
    if s == "NULL" then NullLiteral
    else if |s| > 2 && s[0] == '0' && s[1] == 'x' && IsHex(s[2..]) then BytesLiteral(FromHex(s[2..]))
    else if |s| > 2 && s[0] == 'X' && s[1] == '\'' && s[|s| - 1] == '\'' && IsHex(s[2..|s| - 1]) then
      BytesLiteral(FromHex(s[2..|s| - 1]))
    else if |s| > 1 && s[0] == '\'' && s[|s| - 1] == '\'' then TextLiteral(s[1..|s| - 1])
    else if |s| > 1 && s[0] == '-' && AllDigits(s[1..]) then NumberLiteral(0 - DigitsValue(s[1..], 0))
    else if AllDigits(s) then NumberLiteral(DigitsValue(s, 0))
    else NoLiteral
  }

  lemma NumberReadsBack(n: int)
    ensures ReadLiteral(Integer(n)) == NumberLiteral(n)
  {
    var s := Integer(n);
    if n < 0 {
      NaturalValue(-n);
      assert s[1..] == Natural(-n);
    } else {
      NaturalValue(n);
      assert s[0] in s && (|s| > 1 ==> s[1] in s);
      assert s[0] != 'N' && s[0] != 'X' && s[0] != '\'' && s[0] != '-';
    }
  }

  lemma HexReadsBack(digits: string)
    requires digits != "" && IsHex(digits)
    ensures ReadLiteral("0x" + digits) == BytesLiteral(FromHex(digits))
  {
    assert ("0x" + digits)[2..] == digits;
  }

  lemma QuotedReadsBack(inner: string)
    ensures ReadLiteral("'" + inner + "'") == TextLiteral(inner)
  {
    var s := "'" + inner + "'";
    assert s[1..|s| - 1] == inner;
    assert s[0] == '\'';
  }

  // The escape rules of a connection that escapes with backslashes

  function Unescaped(c: char): char {
    match c
    case 'n' => '\n'
    case 'r' => '\r'
    case 't' => '\t'
    case 'b' => 8 as char
    case '0' => '\0'
    case 'Z' => 26 as char
    case _ => c
  }

  /** The text that stands between the quotes of a literal, if no quote in it ends the literal. */
  function ReadInner(s: string): Option<string> {
    if s == "" then Some("")
    else if s[0] == '\\' then if |s| == 1 then None else Behind(Unescaped(s[1]), ReadInner(s[2..]))
    else if s[0] == '\'' then if |s| == 1 || s[1] != '\'' then None else Behind('\'', ReadInner(s[2..]))
    else Behind(s[0], ReadInner(s[1..]))
  }

  function Behind(c: char, rest: Option<string>): Option<string> {
    if rest.None? then None else Some([c] + rest.value)
  }
}
