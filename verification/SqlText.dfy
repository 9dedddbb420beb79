/** SQL text with `@name` placeholders: where they are, how a text is cut at them, and what it means
    to put values in their place. */
module SqlText {

  predicate IsNameChar(c: char) {
    'a' <= c <= 'z' || 'A' <= c <= 'Z' || '0' <= c <= '9' || c == '_'
  }

  function QuoteCount(s: string): nat {
    if s == "" then 0 else (if s[|s| - 1] == '\'' then 1 else 0) + QuoteCount(s[..|s| - 1])
  }

  /** Position `p` is inside a string literal: an odd number of quotes precedes it. */
  predicate Quoted(sql: string, p: nat)
    requires p <= |sql|
  {
    QuoteCount(sql[..p]) % 2 == 1
  }

  /** A placeholder starts at `p`: an `@` outside any literal with a name character behind it. */
  predicate IsPlaceholder(sql: string, p: nat)
    requires p < |sql|
  {
    sql[p] == '@' && !Quoted(sql, p) && p + 1 < |sql| && IsNameChar(sql[p + 1])
  }

  /** End of the longest run of name characters from `p` on. */
  function NameEnd(sql: string, p: nat): (e: nat)
    requires p <= |sql|
    ensures p <= e <= |sql|
    ensures forall i :: p <= i < e ==> IsNameChar(sql[i])
    ensures e < |sql| ==> !IsNameChar(sql[e])
    decreases |sql| - p
  {
    if p < |sql| && IsNameChar(sql[p]) then NameEnd(sql, p + 1) else p
  }

  function NameAt(sql: string, p: nat): string
    requires p < |sql|
  {
    sql[p + 1..NameEnd(sql, p + 1)]
  }

  /** The text from `p` on with each placeholder replaced by the value of its name. */
  function Substitute(sql: string, p: nat, value: string -> string): string
    requires p <= |sql|
    decreases |sql| - p
  {
    if p == |sql| then ""
    else if IsPlaceholder(sql, p) then value(NameAt(sql, p)) + Substitute(sql, NameEnd(sql, p + 1), value)
    else [sql[p]] + Substitute(sql, p + 1, value)
  }

  /** Letters, digits and the underscore make names; an `@` in a literal or in front of anything else is text. */
  lemma SmallTexts()
    ensures IsPlaceholder("@a", 0) && IsPlaceholder("@Z", 0) && IsPlaceholder("@0", 0) && IsPlaceholder("@_", 0)
    ensures !IsPlaceholder("@-", 0) && !IsPlaceholder("@ ", 0) && !IsPlaceholder("@@", 0) && !IsPlaceholder("@", 0)
    ensures !IsPlaceholder("'@a", 1) && IsPlaceholder("''@a", 2) && NameAt("@a_1-", 0) == "a_1"
  {
    assert "'@a"[..1] == "'" && "'"[..0] == "" && QuoteCount("'") == 1;
    assert "''@a"[..2] == "''" && "''"[..1] == "'" && QuoteCount("''") == 2;
    assert NameEnd("@a_1-", 1) == 4;
  }

  /** Text segments with one placeholder name between each two neighbours. */
  datatype Cut = Cut(segments: seq<string>, names: seq<string>) {
    ghost predicate Valid() { |segments| == |names| + 1 }
  }

  /** The segments and names from `p` on. */
  function Scan(sql: string, p: nat): (c: Cut)
    requires p <= |sql|
    ensures c.Valid()
    decreases |sql| - p
  {
    if p == |sql| then Cut([""], [])
    else if IsPlaceholder(sql, p) then
      var rest := Scan(sql, NameEnd(sql, p + 1));
      Cut([""] + rest.segments, [NameAt(sql, p)] + rest.names)
    else
      var rest := Scan(sql, p + 1);
      Cut([[sql[p]] + rest.segments[0]] + rest.segments[1..], rest.names)
  }

  /** Segments and values in turn. */
  function Weave(segments: seq<string>, values: seq<string>): string
    requires |segments| == |values| + 1
  {
    if values == [] then segments[0] else segments[0] + values[0] + Weave(segments[1..], values[1..])
  }

  function Values(names: seq<string>, value: string -> string): (vs: seq<string>)
    ensures |vs| == |names| && forall i :: 0 <= i < |names| ==> vs[i] == value(names[i])
  {
    seq(|names|, i requires 0 <= i < |names| => value(names[i]))
  }

  /** Filling the cuts of a text with values substitutes every placeholder and nothing else. */
  lemma {:induction false} WeaveIsSubstitution(sql: string, p: nat, value: string -> string)
    requires p <= |sql|
    ensures Weave(Scan(sql, p).segments, Values(Scan(sql, p).names, value)) == Substitute(sql, p, value)
    decreases |sql| - p
  {
    if p < |sql| {
      var c := Scan(sql, p);
      if IsPlaceholder(sql, p) {
        var rest := Scan(sql, NameEnd(sql, p + 1));
        WeaveIsSubstitution(sql, NameEnd(sql, p + 1), value);
        WeaveNext(rest.segments, NameAt(sql, p), rest.names, value);
      } else {
        var rest := Scan(sql, p + 1);
        WeaveIsSubstitution(sql, p + 1, value);
        WeaveHead(sql[p], rest.segments, Values(rest.names, value));
      }
    }
  }

  lemma WeaveNext(segments: seq<string>, name: string, names: seq<string>, value: string -> string)
    requires |segments| == |names| + 1
    ensures Weave([""] + segments, Values([name] + names, value)) == value(name) + Weave(segments, Values(names, value))
  {
    var longer, values := [""] + segments, Values([name] + names, value);
    assert longer[1..] == segments && values[1..] == Values(names, value);
    assert "" + values[0] == value(name);
  }

  lemma WeaveHead(c: char, segments: seq<string>, values: seq<string>)
    requires |segments| == |values| + 1
    ensures Weave([[c] + segments[0]] + segments[1..], values) == [c] + Weave(segments, values)
  {
    var longer := [[c] + segments[0]] + segments[1..];
    if values != [] {
      assert longer[1..] == segments[1..];
      assert ([c] + segments[0]) + values[0] + Weave(segments[1..], values[1..])
          == [c] + (segments[0] + values[0] + Weave(segments[1..], values[1..]));
    }
  }

  /** Putting each name back with its `@` gives the text back. */
  lemma {:induction false} SubstituteBack(sql: string, p: nat)
    requires p <= |sql|
    ensures Substitute(sql, p, (n: string) => "@" + n) == sql[p..]
    decreases |sql| - p
  {
    if p < |sql| {
      if IsPlaceholder(sql, p) {
        var e := NameEnd(sql, p + 1);
        SubstituteBack(sql, e);
        assert "@" + NameAt(sql, p) == sql[p..e];
        assert sql[p..e] + sql[e..] == sql[p..];
      } else {
        SubstituteBack(sql, p + 1);
        assert [sql[p]] + sql[p + 1..] == sql[p..];
      }
    }
  }

  /** Cutting loses nothing. */
  lemma ScanIsLossless(sql: string)
    ensures Weave(Scan(sql, 0).segments, Values(Scan(sql, 0).names, (n: string) => "@" + n)) == sql
  {
    WeaveIsSubstitution(sql, 0, (n: string) => "@" + n);
    SubstituteBack(sql, 0);
    assert sql[0..] == sql;
  }

  /** Names are exactly the placeholders, so a text without placeholders is a single segment. */
  lemma {:induction false} ScanFindsPlaceholders(sql: string, p: nat)
    requires p <= |sql|
    ensures Scan(sql, p).names == [] <==> forall i :: p <= i < |sql| ==> !IsPlaceholder(sql, i)
    ensures Scan(sql, p).names == [] ==> Scan(sql, p).segments == [sql[p..]]
    decreases |sql| - p
  {
    if p == |sql| {
      assert sql[p..] == "";
    } else if !IsPlaceholder(sql, p) {
      ScanFindsPlaceholders(sql, p + 1);
      assert [sql[p]] + sql[p + 1..] == sql[p..];
    }
  }

  /** A scanner state: inside a literal, or just behind an `@` outside of one. */
  datatype State = State(quoted: bool, at: bool)

  const START := State(false, false)

  function After(s: string, from: State): State
  {
    if s == "" then from
    else After(s[1..], Next(s[0], from))
  }

  function Next(c: char, from: State): State {
    State(if c == '\'' then !from.quoted else from.quoted, c == '@' && !from.quoted)
  }

  /** No name character directly follows an `@` that stands outside literals. */
  predicate Clean(s: string, from: State) {
    s != "" ==> !(from.at && IsNameChar(s[0])) && Clean(s[1..], Next(s[0], from))
  }

  lemma {:induction false} CleanConcat(a: string, b: string, from: State)
    ensures After(a + b, from) == After(b, After(a, from))
    ensures Clean(a + b, from) <==> Clean(a, from) && Clean(b, After(a, from))
  {
    if a == "" {
      assert a + b == b;
    } else {
      assert (a + b)[1..] == a[1..] + b;
      CleanConcat(a[1..], b, Next(a[0], from));
    }
  }

  /** The state a scan of the whole text is in at position `p`. */
  function StateAt(sql: string, p: nat): State
    requires p <= |sql|
  {
    State(Quoted(sql, p), p > 0 && sql[p - 1] == '@' && !Quoted(sql, p - 1))
  }

  lemma StateStep(sql: string, p: nat)
    requires p < |sql|
    ensures StateAt(sql, p + 1) == Next(sql[p], StateAt(sql, p))
  {
    assert sql[..p + 1][..p] == sql[..p];
  }

  /** A clean text is one without placeholders. */
  lemma {:induction false} CleanMeansNoPlaceholder(sql: string, p: nat)
    requires p <= |sql|
    ensures Clean(sql[p..], StateAt(sql, p)) <==>
              (forall i :: p <= i < |sql| ==> !IsPlaceholder(sql, i)) &&
                  !(StateAt(sql, p).at && p < |sql| && IsNameChar(sql[p]))
    decreases |sql| - p
  {
    if p < |sql| {
      StateStep(sql, p);
      assert sql[p..][1..] == sql[p + 1..];
      CleanMeansNoPlaceholder(sql, p + 1);
      assert IsPlaceholder(sql, p) <==> StateAt(sql, p + 1).at && p + 1 < |sql| && IsNameChar(sql[p + 1]);
    }
  }

  /** Names hold no quote and no `@`, so a scan comes out of a name as it went in. */
  lemma {:induction false} NameKeepsState(sql: string, p: nat, e: nat)
    requires p < e <= |sql| && forall i :: p <= i < e ==> IsNameChar(sql[i])
    ensures StateAt(sql, e) == State(StateAt(sql, p).quoted, false)
    decreases e - p
  {
    StateStep(sql, e - 1);
    if p < e - 1 { NameKeepsState(sql, p, e - 1); }
  }

  /** Every segment of a cut text is clean in itself, and all but the last end outside literals. */
  lemma {:induction false} ScanSegments(sql: string, p: nat)
    requires p <= |sql| && !(StateAt(sql, p).at && p < |sql| && IsNameChar(sql[p]))
    ensures var c := Scan(sql, p);
            && Clean(c.segments[0], StateAt(sql, p))
            && (c.names != [] ==> !After(c.segments[0], StateAt(sql, p)).quoted)
            && forall i :: 1 <= i < |c.segments| ==>
                 Clean(c.segments[i], START) && (i < |c.names| ==> !After(c.segments[i], START).quoted)
    decreases |sql| - p
  {
    if p < |sql| {
      StateStep(sql, p);
      if IsPlaceholder(sql, p) {
        var e := NameEnd(sql, p + 1);
        NameKeepsState(sql, p + 1, e);
        assert StateAt(sql, e) == START;
        ScanSegments(sql, e);
        var c, rest := Scan(sql, p), Scan(sql, e);
        assert forall i :: 1 <= i < |c.segments| ==> c.segments[i] == rest.segments[i - 1];
      } else {
        ScanSegments(sql, p + 1);
        var rest := Scan(sql, p + 1);
        assert ([sql[p]] + rest.segments[0])[1..] == rest.segments[0];
      }
    }
  }

  /** A value that stands for itself wherever it is put outside a literal. */
  predicate SafeValue(v: string) {
    v != "" && Clean(v, START) && After(v, START) == START
  }

  /** An `@` at the end of a segment and a value starting like a name make a new placeholder. */
  predicate Joins(segment: string, v: string) {
    segment != "" && segment[|segment| - 1] == '@' && v != "" && IsNameChar(v[0])
  }

  lemma {:induction false} AfterLast(s: string, from: State)
    requires s != ""
    ensures After(s, from).at <==> s[|s| - 1] == '@' && !After(s, from).quoted
  {
    if |s| > 1 { AfterLast(s[1..], Next(s[0], from)); }
  }

  /** A value behind which the scanner stands as it stood in front of it: all quotes in it are paired. */
  predicate LevelValue(v: string) {
    v != "" && After(v, START) == START
  }

  lemma LevelFrom(v: string, at: bool)
    requires LevelValue(v)
    ensures After(v, State(false, at)) == START
    ensures Clean(v, State(false, at)) <==> !(at && IsNameChar(v[0])) && Clean(v, START)
  {
  }

  lemma {:induction false} WeaveClean(segments: seq<string>, values: seq<string>, from: State)
    requires |segments| == |values| + 1 && !from.at
    requires Clean(segments[0], from) && (values != [] ==> !After(segments[0], from).quoted)
    requires forall i :: 1 <= i < |segments| ==>
               Clean(segments[i], START) && (i < |values| ==> !After(segments[i], START).quoted)
    requires forall i :: 0 <= i < |values| ==> LevelValue(values[i])
    ensures Clean(Weave(segments, values), from) <==>
              forall i :: 0 <= i < |values| ==> !Joins(segments[i], values[i]) && Clean(values[i], START)
  {
    if values != [] {
      var head, v, tail := segments[0], values[0], Weave(segments[1..], values[1..]);
      var mid := After(head, from);
      CleanConcat(head + v, tail, from);
      CleanConcat(head, v, from);
      LevelFrom(v, mid.at);
      if head != "" { AfterLast(head, from); }
      WeaveClean(segments[1..], values[1..], START);
      assert forall i :: 0 <= i < |values| - 1 ==>
          Joins(segments[1..][i], values[1..][i]) == Joins(segments[i + 1], values[i + 1])
          && values[1..][i] == values[i + 1];
    }
  }

  /** Preparing a text filled with level values again: it has no placeholder, and is one segment, exactly
      if every value is clean in itself and none that starts like a name was put behind an `@`. */
  lemma PrepareLevelAgain(sql: string, values: seq<string>)
    requires |values| == |Scan(sql, 0).names| && forall i :: 0 <= i < |values| ==> LevelValue(values[i])
    ensures var rendered := Weave(Scan(sql, 0).segments, values);
            Scan(rendered, 0) == Cut([rendered], []) <==>
              forall i :: 0 <= i < |values| ==> !Joins(Scan(sql, 0).segments[i], values[i]) && Clean(values[i], START)
  {
    var c, rendered := Scan(sql, 0), Weave(Scan(sql, 0).segments, values);
    ScanSegments(sql, 0);
    WeaveClean(c.segments, values, START);
    ScanFindsPlaceholders(rendered, 0);
    CleanMeansNoPlaceholder(rendered, 0);
    assert rendered[0..] == rendered;
  }

  /** With inert values: exactly when no value starting like a name was put behind a segment ending in `@`. */
  lemma PrepareAgain(sql: string, values: seq<string>)
    requires |values| == |Scan(sql, 0).names| && forall i :: 0 <= i < |values| ==> SafeValue(values[i])
    ensures var rendered := Weave(Scan(sql, 0).segments, values);
            Scan(rendered, 0) == Cut([rendered], []) <==>
              forall i :: 0 <= i < |values| ==> !Joins(Scan(sql, 0).segments[i], values[i])
  {
    PrepareLevelAgain(sql, values);
  }

  /** The pieces of a filled-in text, scanned one after the other, each from the state the last one left. */
  predicate PiecesClean(segments: seq<string>, values: seq<string>, from: State)
    requires |segments| == |values| + 1
  {
    && Clean(segments[0], from)
    && (values != [] ==>
          && Clean(values[0], After(segments[0], from))
          && PiecesClean(segments[1..], values[1..], After(values[0], After(segments[0], from))))
  }

  lemma {:induction false} WeaveCleanIff(segments: seq<string>, values: seq<string>, from: State)
    requires |segments| == |values| + 1
    ensures Clean(Weave(segments, values), from) <==> PiecesClean(segments, values, from)
  {
    if values != [] {
      CleanConcat(segments[0] + values[0], Weave(segments[1..], values[1..]), from);
      CleanConcat(segments[0], values[0], from);
      WeaveCleanIff(segments[1..], values[1..], After(values[0], After(segments[0], from)));
    }
  }

  /** The same for any values at all, safe or not. */
  lemma PrepareAnyAgain(sql: string, values: seq<string>)
    requires |values| == |Scan(sql, 0).names|
    ensures var rendered := Weave(Scan(sql, 0).segments, values);
            Scan(rendered, 0) == Cut([rendered], []) <==> PiecesClean(Scan(sql, 0).segments, values, START)
  {
    var c, rendered := Scan(sql, 0), Weave(Scan(sql, 0).segments, values);
    WeaveCleanIff(c.segments, values, START);
    ScanFindsPlaceholders(rendered, 0);
    CleanMeansNoPlaceholder(rendered, 0);
    assert rendered[0..] == rendered;
  }

  /** Texts that no scan can tell apart. */
  ghost predicate SameToScanner(a: string, b: string) {
    forall from: State :: After(a, from) == After(b, from) && (Clean(a, from) <==> Clean(b, from))
  }

  lemma {:induction false} SamePieces(segments: seq<string>, a: seq<string>, b: seq<string>, from: State)
    requires |segments| == |a| + 1 == |b| + 1 && forall i :: 0 <= i < |a| ==> SameToScanner(a[i], b[i])
    ensures PiecesClean(segments, a, from) <==> PiecesClean(segments, b, from)
  {
    if a != [] {
      assert SameToScanner(a[0], b[0]);
      SamePieces(segments[1..], a[1..], b[1..], After(a[0], After(segments[0], from)));
    }
  }

  // Texts escaped with backslashes, as the scanner sees them

  /** What the client library makes of one character. */
  function EscapedChar(c: char): string {
    if c == '\'' || c == '"' || c == '\\' then ['\\', c]
    else if c == '\n' then "\\n"
    else if c == '\r' then "\\r"
    else if c == '\0' then "\\0"
    else if c == 26 as char then "\\Z"
    else [c]
  }

  function BackslashEscape(v: string): string {
    if v == "" then "" else EscapedChar(v[0]) + BackslashEscape(v[1..])
  }

  lemma EscapedCharIsInvisible(c: char, from: State)
    ensures After(EscapedChar(c), from) == Next(c, from)
    ensures Clean(EscapedChar(c), from) <==> !(from.at && IsNameChar(c))
  {
    var e := EscapedChar(c);
    if |e| == 2 {
      var mid := Next(e[0], from);
      assert e[0] == '\\' && e[1..] == [e[1]] && [e[1]][1..] == "";
      assert After([e[1]], mid) == Next(e[1], mid) && Clean([e[1]], mid);
      assert !IsNameChar(c) && Next(e[1], mid) == Next(c, from);
    } else {
      assert e[1..] == "";
    }
  }

  /** The scanner takes the escaped text as it would take the text itself: a backslash means nothing to it. */
  lemma {:induction false} EscapeIsInvisible(v: string, from: State)
    ensures After(BackslashEscape(v), from) == After(v, from)
    ensures Clean(BackslashEscape(v), from) <==> Clean(v, from)
  {
    if v != "" {
      EscapedCharIsInvisible(v[0], from);
      CleanConcat(EscapedChar(v[0]), BackslashEscape(v[1..]), from);
      EscapeIsInvisible(v[1..], Next(v[0], from));
    }
  }

  /** An `@` that starts a placeholder once the text stands between quotes: an odd number of quotes in
      front of it and a name character behind it. */
  predicate ExposedAt(v: string, p: nat)
    requires p < |v|
  {
    v[p] == '@' && QuoteCount(v[..p]) % 2 == 1 && p + 1 < |v| && IsNameChar(v[p + 1])
  }

  lemma {:induction false} QuoteCountCons(c: char, s: string)
    ensures QuoteCount([c] + s) == (if c == '\'' then 1 else 0) + QuoteCount(s)
  {
    var t := [c] + s;
    if s != "" {
      assert t[..|t| - 1] == [c] + s[..|s| - 1];
      QuoteCountCons(c, s[..|s| - 1]);
    } else {
      assert t[..0] == "";
    }
  }

  lemma {:induction false} AfterQuotes(s: string, from: State)
    ensures After(s, from).quoted == (from.quoted == (QuoteCount(s) % 2 == 0))
  {
    if s != "" {
      assert s == [s[0]] + s[1..];
      QuoteCountCons(s[0], s[1..]);
      AfterQuotes(s[1..], Next(s[0], from));
    }
  }

  lemma ExposedIsPlaceholder(v: string, p: nat)
    requires p < |v|
    ensures IsPlaceholder("'" + v, p + 1) <==> ExposedAt(v, p)
  {
    var sql := "'" + v;
    assert sql[..p + 1] == ['\''] + v[..p];
    QuoteCountCons('\'', v[..p]);
    assert sql[p + 1] == v[p] && (p + 1 < |v| ==> sql[p + 2] == v[p + 1]);
  }

  lemma QuotedIsClean(v: string)
    ensures Clean(v, State(true, false)) <==> forall i :: 0 <= i < |"'" + v| ==> !IsPlaceholder("'" + v, i)
  {
    var sql := "'" + v;
    assert sql[0..] == sql && sql[1..] == v && sql[..0] == "";
    CleanMeansNoPlaceholder(sql, 0);
  }

  /** Between quotes, a text is clean exactly if none of its `@` is exposed. */
  lemma InsideIsClean(v: string)
    ensures Clean(v, State(true, false)) <==> forall p :: 0 <= p < |v| ==> !ExposedAt(v, p)
  {
    QuotedIsClean(v);
    forall p | 0 <= p < |v| ensures IsPlaceholder("'" + v, p + 1) <==> ExposedAt(v, p) {
      ExposedIsPlaceholder(v, p);
    }
    if !Clean(v, State(true, false)) {
      var i :| 0 <= i < |"'" + v| && IsPlaceholder("'" + v, i);
      assert i > 0 && ExposedAt(v, i - 1);
    }
  }
}
