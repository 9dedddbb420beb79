/** The glob matcher of the logging library: `*` and `?` only. */
module Wildcard {

  /** What one pattern character stands for. */
  predicate Stands(piece: string, c: char) {
    if c == '*' then true else if c == '?' then |piece| == 1 else piece == [c]
  }

  function Concat(pieces: seq<string>): string {
    if pieces == [] then "" else pieces[0] + Concat(pieces[1..])
  }

  ghost predicate Spells(pieces: seq<string>, str: string, pattern: string) {
    && |pieces| == |pattern| && Concat(pieces) == str
    && forall i :: 0 <= i < |pattern| ==> Stands(pieces[i], pattern[i])
  }

  /** The text can be cut into one piece for every character of the pattern. */
  ghost predicate Matches(str: string, pattern: string) {
    exists pieces :: Spells(pieces, str, pattern)
  }

  lemma MatchesNothing(str: string)
    ensures Matches(str, "") <==> str == ""
  {
    if str == "" {
      assert Spells([], "", "");
    }
  }

  lemma SpellsTail(pieces: seq<string>, str: string, pattern: string)
    requires pattern != "" && Spells(pieces, str, pattern)
    ensures Stands(pieces[0], pattern[0]) && pieces[0] <= str && Matches(str[|pieces[0]|..], pattern[1..])
  {
    assert Spells(pieces[1..], str[|pieces[0]|..], pattern[1..]);
  }

  lemma SpellsCons(piece: string, str: string, pattern: string)
    requires pattern != "" && Stands(piece, pattern[0]) && Matches(str, pattern[1..])
    ensures Matches(piece + str, pattern)
  {
    var pieces :| Spells(pieces, str, pattern[1..]);
    assert ([piece] + pieces)[1..] == pieces;
    assert Spells([piece] + pieces, piece + str, pattern);
  }

  lemma MatchesCharacter(str: string, pattern: string)
    requires pattern != "" && pattern[0] != '*'
    ensures Matches(str, pattern) <==>
              str != "" && (pattern[0] == '?' || str[0] == pattern[0]) && Matches(str[1..], pattern[1..])
  {
    if Matches(str, pattern) {
      var pieces :| Spells(pieces, str, pattern);
      SpellsTail(pieces, str, pattern);
    }
    if str != "" && (pattern[0] == '?' || str[0] == pattern[0]) && Matches(str[1..], pattern[1..]) {
      SpellsCons([str[0]], str[1..], pattern);
      assert [str[0]] + str[1..] == str;
    }
  }

  lemma StarSplits(str: string, pattern: string)
    requires pattern != "" && pattern[0] == '*' && Matches(str, pattern)
    ensures Matches(str, pattern[1..]) || (str != "" && Matches(str[1..], pattern))
  {
    var pieces :| Spells(pieces, str, pattern);
    SpellsTail(pieces, str, pattern);
    var front, back := pieces[0], str[|pieces[0]|..];
    if front == "" {
      assert back == str;
    } else {
      SpellsCons(front[1..], back, pattern);
      assert front[1..] + back == str[1..];
    }
  }

  lemma StarSwallows(str: string, pattern: string)
    requires pattern != "" && pattern[0] == '*' && str != "" && Matches(str[1..], pattern)
    ensures Matches(str, pattern)
  {
    var tail := str[1..];
    var pieces :| Spells(pieces, tail, pattern);
    SpellsTail(pieces, tail, pattern);
    var front, back := [str[0]] + pieces[0], tail[|pieces[0]|..];
    SpellsCons(front, back, pattern);
    assert front + back == str;
  }

  /** A star stands for nothing, or swallows one more character. */
  lemma MatchesStar(str: string, pattern: string)
    requires pattern != "" && pattern[0] == '*'
    ensures Matches(str, pattern) <==> Matches(str, pattern[1..]) || (str != "" && Matches(str[1..], pattern))
  {
    if Matches(str, pattern) { StarSplits(str, pattern); }
    if Matches(str, pattern[1..]) {
      SpellsCons("", str, pattern);
      assert "" + str == str;
    }
    if str != "" && Matches(str[1..], pattern) { StarSwallows(str, pattern); }
  }

  method WildCardMatch(str: string, pattern: string) returns (matched: bool)
    ensures matched <==> Matches(str, pattern)
    decreases |str| + |pattern|
  {
    var s, p := str, pattern;
    while p != ""
      invariant |s| + |p| <= |str| + |pattern|
      invariant Matches(s, p) <==> Matches(str, pattern)
      decreases |p|
    {
      if p[0] == '*' {
        MatchesStar(s, p);
        var skipped := WildCardMatch(s, p[1..]);
        if skipped { return true; }
        if s != "" {
          var swallowed := WildCardMatch(s[1..], p);
          if swallowed { return true; }
        }
        return false;
      }
      MatchesCharacter(s, p);
      if s == "" || (p[0] != '?' && s[0] != p[0]) { return false; }
      s, p := s[1..], p[1..];
    }
    MatchesNothing(s);
    return s == "";
  }
}
