/**
 What TextEncoder does: UTF-16 strings to UTF-8 bytes, with every lone surrogate replaced by
 U+FFFD, and exactly which strings it maps to the same bytes.
 */
module Utf8 {

  type Unit = x: int | 0 <= x < 0x10000
  type Byte = x: int | 0 <= x < 0x100
  /** A Unicode scalar value: any code point but a surrogate. */
  type Scalar = x: int | 0 <= x < 0xD800 || 0xE000 <= x < 0x110000
  type Text = seq<Unit>

  predicate IsHigh(u: Unit) {
    0xD800 <= u < 0xDC00
  }

  predicate IsLow(u: Unit) {
    0xDC00 <= u < 0xE000
  }

  predicate StartsPair(s: Text) {
    |s| >= 2 && IsHigh(s[0]) && IsLow(s[1])
  }

  function PairValue(high: int, low: int): int {
    0x10000 + (high - 0xD800) * 0x400 + (low - 0xDC00)
  }

  /** The scalar values of a string. */
  function Scalars(s: Text): seq<Scalar> {
    if s == [] then []
    else if StartsPair(s) then [PairValue(s[0], s[1])] + Scalars(s[2..])
    else [if IsHigh(s[0]) || IsLow(s[0]) then 0xFFFD else s[0]] + Scalars(s[1..])
  }

  function EncodeScalar(c: Scalar): seq<Byte> {
    if c < 0x80 then [c]
    else if c < 0x800 then [0xC0 + c / 0x40, 0x80 + c % 0x40]
    else if c < 0x10000 then [0xE0 + c / 0x1000, 0x80 + (c / 0x40) % 0x40, 0x80 + c % 0x40]
    else [0xF0 + c / 0x40000, 0x80 + (c / 0x1000) % 0x40, 0x80 + (c / 0x40) % 0x40, 0x80 + c % 0x40]
  }

  function EncodeScalars(cs: seq<Scalar>): seq<Byte> {
    if cs == [] then [] else EncodeScalar(cs[0]) + EncodeScalars(cs[1..])
  }

  function Encode(s: Text): seq<Byte> {
    EncodeScalars(Scalars(s))
  }

  // ----- the bytes determine the scalar values -----------------------------------------------------------------

  ghost function WidthOf(first: Byte): nat {
    if first < 0x80 then 1 else if first < 0xE0 then 2 else if first < 0xF0 then 3 else 4
  }

  ghost function Tail(b: int): int {
    b - 0x80
  }

  ghost function ValueOf(b: seq<Byte>): int
    requires b != [] && |b| >= WidthOf(b[0])
  {
    var first: int := b[0];
    match WidthOf(b[0])
    case 1 => first
    case 2 => (first - 0xC0) * 0x40 + Tail(b[1])
    case 3 => (first - 0xE0) * 0x1000 + Tail(b[1]) * 0x40 + Tail(b[2])
    case _ => (first - 0xF0) * 0x40000 + Tail(b[1]) * 0x1000 + Tail(b[2]) * 0x40 + Tail(b[3])
  }

  ghost function Decode(b: seq<Byte>): seq<int> {
    if b == [] || |b| < WidthOf(b[0]) then [] else [ValueOf(b)] + Decode(b[WidthOf(b[0])..])
  }

  lemma {:induction false} DigitsOf(c: Scalar)
    ensures c == (c / 0x40) * 0x40 + c % 0x40
    ensures c / 0x40 == (c / 0x1000) * 0x40 + (c / 0x40) % 0x40
    ensures c / 0x1000 == (c / 0x40000) * 0x40 + (c / 0x1000) % 0x40
  {
  }

  lemma {:induction false} ScalarReadsBack(c: Scalar, rest: seq<Byte>)
    ensures var b := EncodeScalar(c) + rest;
            WidthOf(b[0]) == |EncodeScalar(c)| && ValueOf(b) == c && b[WidthOf(b[0])..] == rest
  {
    DigitsOf(c);
    var b := EncodeScalar(c) + rest;
    assert b[0] == EncodeScalar(c)[0];
  }

  lemma {:induction false} ScalarsReadBack(cs: seq<Scalar>)
    ensures Decode(EncodeScalars(cs)) == cs
  {
    if cs != [] {
      ScalarReadsBack(cs[0], EncodeScalars(cs[1..]));
      ScalarsReadBack(cs[1..]);
    }
  }

  // ----- the scalar values determine the repaired string ---------------------------------------------------------

  /** The string with every lone surrogate replaced. */
  ghost function Repaired(s: Text): Text {
    if s == [] then []
    else if StartsPair(s) then [s[0], s[1]] + Repaired(s[2..])
    else [if IsHigh(s[0]) || IsLow(s[0]) then 0xFFFD else s[0]] + Repaired(s[1..])
  }

  ghost function UnitsOf(c: Scalar): Text {
    if c < 0x10000 then [c] else [0xD800 + (c - 0x10000) / 0x400, 0xDC00 + (c - 0x10000) % 0x400]
  }

  ghost function ToText(cs: seq<Scalar>): Text {
    if cs == [] then [] else UnitsOf(cs[0]) + ToText(cs[1..])
  }

  lemma {:induction false} PairReadsBack(high: Unit, low: Unit)
    requires IsHigh(high) && IsLow(low)
    ensures UnitsOf(PairValue(high, low)) == [high, low]
  {
    var c := PairValue(high, low) - 0x10000;
    assert c / 0x400 == high - 0xD800 && c % 0x400 == low - 0xDC00;
  }

  lemma {:induction false} TextReadsBack(s: Text)
    ensures ToText(Scalars(s)) == Repaired(s)
    decreases |s|
  {
    if s != [] {
      if StartsPair(s) {
        PairReadsBack(s[0], s[1]);
        TextReadsBack(s[2..]);
      } else {
        TextReadsBack(s[1..]);
      }
    }
  }

  lemma {:induction false} RepairedHasTheScalars(s: Text)
    ensures Scalars(Repaired(s)) == Scalars(s)
    decreases |s|
  {
    if s != [] {
      var r := Repaired(s);
      if StartsPair(s) {
        assert r[2..] == Repaired(s[2..]);
        RepairedHasTheScalars(s[2..]);
      } else {
        assert r[1..] == Repaired(s[1..]);
        assert !StartsPair(r);
        RepairedHasTheScalars(s[1..]);
      }
    }
  }

  /** Two strings have the same bytes exactly when they agree once lone surrogates are replaced. */
  lemma {:induction false} SameBytesIff(s: Text, t: Text)
    ensures Encode(s) == Encode(t) <==> Repaired(s) == Repaired(t)
  {
    ScalarsReadBack(Scalars(s));
    ScalarsReadBack(Scalars(t));
    TextReadsBack(s);
    TextReadsBack(t);
    RepairedHasTheScalars(s);
    RepairedHasTheScalars(t);
  }

  ghost predicate Partnered(s: Text, i: nat)
    requires i < |s|
  {
    && (IsHigh(s[i]) ==> i + 1 < |s| && IsLow(s[i + 1]))
    && (IsLow(s[i]) ==> i > 0 && IsHigh(s[i - 1]))
  }

  /** Every surrogate has its partner next to it. */
  ghost predicate WellFormed(s: Text) {
    forall i :: 0 <= i < |s| ==> Partnered(s, i)
  }

  lemma {:induction false} WellFormedTail(s: Text, n: nat)
    requires n <= |s| && WellFormed(s) && (n < |s| ==> !IsLow(s[n]))
    ensures WellFormed(s[n..])
  {
    forall i | 0 <= i < |s[n..]|
      ensures Partnered(s[n..], i)
    {
      assert Partnered(s, n + i);
    }
  }

  /** A well-formed string needs no repair. */
  lemma {:induction false} WellFormedIsUnchanged(s: Text)
    requires WellFormed(s)
    ensures Repaired(s) == s
    decreases |s|
  {
    if s != [] {
      var n := if StartsPair(s) then 2 else 1;
      assert Partnered(s, 0);
      assert n < |s| ==> Partnered(s, n);
      WellFormedTail(s, n);
      WellFormedIsUnchanged(s[n..]);
      assert s == s[..n] + s[n..];
    }
  }

  lemma {:induction false} WellFormedCons(front: Text, rest: Text)
    requires WellFormed(rest)
    requires (|front| == 1 && !IsHigh(front[0]) && !IsLow(front[0])) || (|front| == 2 && IsHigh(front[0]) && IsLow(front[1]))
    ensures WellFormed(front + rest)
  {
    var s := front + rest;
    assert rest != [] ==> Partnered(rest, 0);
    forall i | 0 <= i < |s|
      ensures Partnered(s, i)
    {
      if i >= |front| {
        assert Partnered(rest, i - |front|);
      }
    }
  }

  lemma {:induction false} RepairedIsWellFormed(s: Text)
    ensures WellFormed(Repaired(s))
    decreases |s|
  {
    if s != [] {
      if StartsPair(s) {
        RepairedIsWellFormed(s[2..]);
        WellFormedCons([s[0], s[1]], Repaired(s[2..]));
      } else {
        RepairedIsWellFormed(s[1..]);
        WellFormedCons([if IsHigh(s[0]) || IsLow(s[0]) then 0xFFFD else s[0]], Repaired(s[1..]));
      }
    }
  }

  /** A string shares its bytes with a different, well-formed one exactly when it is not well-formed. */
  lemma {:induction false} CollidesIff(s: Text)
    ensures !WellFormed(s) <==> exists t :: WellFormed(t) && t != s && Encode(t) == Encode(s)
  {
    RepairedIsWellFormed(s);
    if !WellFormed(s) {
      var t := Repaired(s);
      WellFormedIsUnchanged(t);
      SameBytesIff(t, s);
      assert WellFormed(t) && t != s && Encode(t) == Encode(s);
    } else {
      forall t | WellFormed(t) && Encode(t) == Encode(s)
        ensures t == s
      {
        WellFormedIsUnchanged(s);
        WellFormedIsUnchanged(t);
        SameBytesIff(t, s);
      }
    }
  }
}
