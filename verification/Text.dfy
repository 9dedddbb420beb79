/** Narrow (`std::string`) and wide (`std::u16string`) text and the element-wise conversions
    between them. */
module Text {
  type Byte = x: nat | x < 0x100
  type Bytes = seq<Byte>
  type Unit = x: nat | x < 0x1_0000
  type Narrow = Bytes
  type Wide = seq<Unit>

  /** Each 16-bit unit is cut to its low byte. */
  function FromWide(w: Wide): (n: Narrow)
    ensures |n| == |w|
  {
    if w == [] then [] else [w[0] % 0x100] + FromWide(w[1..])
  }

  /** One `char` becomes one 16-bit unit; where `char` is signed, the high half sign-extends. */
  function WidenByte(b: Byte, signedChar: bool): Unit {
    if signedChar && b >= 0x80 then 0xFF00 + b else b
  }

  function ToWide(n: Narrow, signedChar: bool): (w: Wide)
    ensures |w| == |n|
  {
    if n == [] then [] else [WidenByte(n[0], signedChar)] + ToWide(n[1..], signedChar)
  }

  predicate SurvivesUnit(u: Unit, signedChar: bool) {
    if signedChar then u < 0x80 || 0xFF80 <= u else u < 0x100
  }

  predicate Survives(w: Wide, signedChar: bool) {
    forall i :: 0 <= i < |w| ==> SurvivesUnit(w[i], signedChar)
  }

  /** Text comes back from its narrow form unchanged exactly when every unit fits a (sign-extended) byte. */
  lemma {:induction false} RoundTrip(w: Wide, signedChar: bool)
    ensures ToWide(FromWide(w), signedChar) == w <==> Survives(w, signedChar)
  {
    if w != [] {
      RoundTrip(w[1..], signedChar);
      var back := ToWide(FromWide(w), signedChar);
      assert FromWide(w)[1..] == FromWide(w[1..]);
      assert back[1..] == ToWide(FromWide(w[1..]), signedChar);
      assert w == [w[0]] + w[1..] && back == [back[0]] + back[1..];
      if back[0] == w[0] && back[1..] == w[1..] {
        forall i | 0 <= i < |w| ensures SurvivesUnit(w[i], signedChar) {
          if i > 0 { assert w[i] == w[1..][i - 1]; }
        }
      }
    }
  }

  /** Text without a zero byte, as it goes in and out of the database through C strings. */
  type CText = n: Narrow | NoZero(n)

  predicate NoZero(n: Narrow) {
    forall i :: 0 <= i < |n| ==> n[i] != 0
  }

  /** What `strlen` sees of a text. */
  function CString(n: Narrow): (c: CText)
    ensures |c| <= |n| && c == n[..|c|] && (|c| < |n| ==> n[|c|] == 0)
  {
    if n == [] || n[0] == 0 then [] else [n[0]] + CString(n[1..])
  }

  /** The form in which a wide text is bound to a statement. */
  function ToStorage(w: Wide): CText {
    CString(FromWide(w))
  }

  /** The texts that storage gives back unchanged. */
  predicate Storable(w: Wide, signedChar: bool) {
    Survives(w, signedChar) && forall i :: 0 <= i < |w| ==> w[i] != 0
  }

  lemma StorageRoundTrip(w: Wide, signedChar: bool)
    ensures ToWide(ToStorage(w), signedChar) == w <==> Storable(w, signedChar)
  {
    var n := FromWide(w);
    RoundTrip(w, signedChar);
    FromWideAt(w);
    var c := CString(n);
    assert n[..|n|] == n;
    if |c| < |n| {
      assert w[|c|] % 0x100 == 0 && |ToWide(c, signedChar)| != |w|;
    } else {
      assert c == n && forall i :: 0 <= i < |w| ==> n[i] != 0;
    }
  }

  lemma {:induction false} FromWideAt(w: Wide)
    ensures forall i :: 0 <= i < |w| ==> FromWide(w)[i] == w[i] % 0x100
  {
    if w != [] { FromWideAt(w[1..]); }
  }

  /** Plain text (units from 1 to 0x7F) survives on either kind of platform. */
  predicate Plain(w: Wide) {
    forall i :: 0 <= i < |w| ==> 0 < w[i] < 0x80
  }

  lemma PlainSurvives(w: Wide, signedChar: bool)
    requires Plain(w)
    ensures ToWide(ToStorage(w), signedChar) == w
  {
    StorageRoundTrip(w, signedChar);
  }

  lemma {:induction false} ToWideInjective(a: Narrow, b: Narrow, signedChar: bool)
    requires ToWide(a, signedChar) == ToWide(b, signedChar)
    ensures a == b
  {
    if a != [] {
      var x, y := ToWide(a, signedChar), ToWide(b, signedChar);
      assert |a| == |x| == |y| == |b|;
      assert x[0] == y[0] && x[1..] == ToWide(a[1..], signedChar) && y[1..] == ToWide(b[1..], signedChar);
      ToWideInjective(a[1..], b[1..], signedChar);
      assert a == [a[0]] + a[1..] && b == [b[0]] + b[1..];
    }
  }
}
