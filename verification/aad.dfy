/**
 Additional authenticated data: the length-prefixed encoder that fills a byte buffer, and a decoder
 that takes the buffer apart again.
 */
module Aad {
  import opened Prelude
  import opened Utf8

  const AAD_VERSION := 1
  const MAX_FIELD := 0xFFFF

  // ----- the format ----------------------------------------------------------------------------------------

  /** charCodeAt stored into a byte; past the end it stores zero. */
  function ByteAt(s: Text, i: nat): Byte {
    if i < |s| then s[i] % 0x100 else 0
  }

  function Header(scope: Text, nFields: nat): seq<Byte> {
    [ByteAt(scope, 0), ByteAt(scope, 1), AAD_VERSION, nFields % 0x100]
  }

  /** A length as setUint16 stores it, big-endian. */
  function Length(n: nat): seq<Byte> {
    [(n % 0x10000) / 0x100, n % 0x100]
  }

  function Framed(field: seq<Byte>): seq<Byte> {
    Length(|field|) + field
  }

  function Body(fields: seq<seq<Byte>>): seq<Byte> {
    if fields == [] then [] else Framed(fields[0]) + Body(fields[1..])
  }

  function EncodeAll(fields: seq<Text>): (encoded: seq<seq<Byte>>)
    ensures |encoded| == |fields| && forall i :: 0 <= i < |fields| ==> encoded[i] == Encode(fields[i])
  {
    if fields == [] then [] else [Encode(fields[0])] + EncodeAll(fields[1..])
  }

  function Bytes(scope: Text, fields: seq<Text>): seq<Byte> {
    Header(scope, |fields|) + Body(EncodeAll(fields))
  }

  // ----- filling the buffer ------------------------------------------------------------------------------------

  lemma {:induction false} BodySnoc(fields: seq<seq<Byte>>, n: nat)
    requires n < |fields|
    ensures Body(fields[..n + 1]) == Body(fields[..n]) + Framed(fields[n])
  {
    if n == 0 {
      assert fields[..1][1..] == [] && fields[..0] == [];
      assert Body(fields[..1]) == Framed(fields[0]) + Body(fields[..1][1..]);
    } else {
      var rest := fields[1..];
      BodySnoc(rest, n - 1);
      assert fields[..n + 1][1..] == rest[..n] && fields[..n][1..] == rest[..n - 1];
    }
  }

  function BodySize(fields: seq<seq<Byte>>): (n: nat)
    ensures n == |Body(fields)|
  {
    if fields == [] then 0 else 2 + |fields[0]| + BodySize(fields[1..])
  }

  lemma {:induction false} PrefixFits(fields: seq<seq<Byte>>, n: nat)
    requires n <= |fields|
    ensures |Body(fields[..n])| <= |Body(fields)|
  {
    if n > 0 {
      assert fields[..n][1..] == fields[1..][..n - 1];
      PrefixFits(fields[1..], n - 1);
    }
  }

  /** The four header bytes. */
  method PutHeader(buf: array<Byte>, scope: Text, nFields: nat)
    requires buf.Length >= 4
    modifies buf
    ensures buf[..4] == Header(scope, nFields)
  {
    buf[0] := ByteAt(scope, 0);
    buf[1] := ByteAt(scope, 1);
    buf[2] := AAD_VERSION;
    buf[3] := nFields % 0x100;
  }

  /** One field: its length, then its bytes; everything before `offset` stays. */
  method PutField(buf: array<Byte>, offset: nat, field: seq<Byte>) returns (next: nat)
    requires offset + 2 + |field| <= buf.Length
    modifies buf
    ensures next == offset + 2 + |field|
    ensures buf[..next] == old(buf[..offset]) + Framed(field)
  {
    buf[offset] := (|field| % 0x10000) / 0x100;
    buf[offset + 1] := |field| % 0x100;
    next := offset + 2;
    for i := 0 to |field|
      invariant next == offset + 2 + i
      invariant buf[..offset + 2] == old(buf[..offset]) + Length(|field|)
      invariant buf[offset + 2..next] == field[..i]
    {
      buf[next] := field[i];
      next := next + 1;
      assert buf[offset + 2..next] == buf[offset + 2..next - 1] + [field[i]];
      assert field[..i + 1] == field[..i] + [field[i]];
    }
    assert buf[..next] == buf[..offset + 2] + buf[offset + 2..next];
    assert field[..|field|] == field;
  }

  /** The offset after the header and the first `n` fields. */
  ghost function OffsetOf(fields: seq<seq<Byte>>, n: nat): nat
    requires n <= |fields|
  {
    4 + |Body(fields[..n])|
  }

  lemma {:induction false} OffsetStep(fields: seq<seq<Byte>>, n: nat)
    requires n < |fields|
    ensures OffsetOf(fields, n + 1) == OffsetOf(fields, n) + 2 + |fields[n]| <= 4 + BodySize(fields)
  {
    BodySnoc(fields, n);
    PrefixFits(fields, n + 1);
  }

  /** The fixture's encoder: no checks, lengths wrap; the loop fills the buffer exactly. */
  method BuildFixtureAad(scope: Text, fields: seq<Text>) returns (buf: array<Byte>)
    ensures fresh(buf) && buf[..] == Bytes(scope, fields)
  {
    var encoded := EncodeAll(fields);
    buf := new Byte[4 + BodySize(encoded)];
    PutHeader(buf, scope, |encoded|);
    var offset := 4;
    assert encoded[..0] == [];
    for i := 0 to |encoded|
      invariant offset == OffsetOf(encoded, i) <= buf.Length
      invariant buf[..offset] == Header(scope, |encoded|) + Body(encoded[..i])
    {
      OffsetStep(encoded, i);
      BodySnoc(encoded, i);
      Regroup(Header(scope, |encoded|), Body(encoded[..i]), Framed(encoded[i]));
      offset := PutField(buf, offset, encoded[i]);
    }
    assert encoded[..|encoded|] == encoded;
    assert buf[..offset] == buf[..];
  }

  datatype Error = BadScope | BadFieldCount | FieldTooLong
  datatype Outcome = Built(bytes: seq<Byte>) | Refused(error: Error)

  ghost predicate AllShort(fields: seq<seq<Byte>>) {
    forall i :: 0 <= i < |fields| ==> |fields[i]| <= MAX_FIELD
  }

  /** What the registry's encoder gives. */
  ghost function Build(scope: Text, expected: nat, fields: seq<Text>): Outcome {
    if |scope| != 2 then Refused(BadScope)
    else if |fields| != expected then Refused(BadFieldCount)
    else if !AllShort(EncodeAll(fields)) then Refused(FieldTooLong)
    else Built(Bytes(scope, fields))
  }

  /** The checked loop: stops at a field whose length does not fit. */
  method FillChecked(scope: Text, encoded: seq<seq<Byte>>) returns (r: Option<seq<Byte>>)
    ensures r.None? <==> !AllShort(encoded)
    ensures r.Some? ==> r.value == Header(scope, |encoded|) + Body(encoded)
  {
    var buf := new Byte[4 + BodySize(encoded)];
    PutHeader(buf, scope, |encoded|);
    var offset := 4;
    assert encoded[..0] == [];
    for i := 0 to |encoded|
      invariant offset == OffsetOf(encoded, i) <= buf.Length
      invariant buf[..offset] == Header(scope, |encoded|) + Body(encoded[..i])
      invariant forall j :: 0 <= j < i ==> |encoded[j]| <= MAX_FIELD
    {
      if |encoded[i]| > MAX_FIELD {
        return None;
      }
      OffsetStep(encoded, i);
      BodySnoc(encoded, i);
      Regroup(Header(scope, |encoded|), Body(encoded[..i]), Framed(encoded[i]));
      offset := PutField(buf, offset, encoded[i]);
    }
    assert encoded[..|encoded|] == encoded;
    assert buf[..offset] == buf[..];
    return Some(buf[..]);
  }

  method BuildAadBytes(scope: Text, expected: nat, fields: seq<Text>) returns (r: Outcome)
    ensures r == Build(scope, expected, fields)
  {
    if |scope| != 2 {
      return Refused(BadScope);
    }
    if |fields| != expected {
      return Refused(BadFieldCount);
    }
    var filled := FillChecked(scope, EncodeAll(fields));
    return if filled.None? then Refused(FieldTooLong) else Built(filled.value);
  }

  // ----- taking the bytes apart -----------------------------------------------------------------------------------

  function DecodeFields(b: seq<Byte>, n: nat): Option<seq<seq<Byte>>> {
    if n == 0 then
      if b == [] then Some([]) else None
    else if |b| < 2 then None
    else
      var hi: int, lo: int := b[0], b[1];
      var len := hi * 0x100 + lo;
      if |b| < 2 + len then None
      else
        match DecodeFields(b[2 + len..], n - 1)
        case None => None
        case Some(rest) => Some([b[2..2 + len]] + rest)
  }

  datatype Parts = Parts(scope0: Byte, scope1: Byte, fields: seq<seq<Byte>>)

  function Decoded(b: seq<Byte>): Option<Parts> {
    if |b| < 4 || b[2] != AAD_VERSION then None
    else
      match DecodeFields(b[4..], b[3])
      case None => None
      case Some(fields) => Some(Parts(b[0], b[1], fields))
  }

  lemma {:induction false} LengthReadsBack(n: nat)
    requires n <= MAX_FIELD
    ensures Length(n)[0] as int * 0x100 + Length(n)[1] as int == n
  {
  }

  lemma {:induction false} FieldsReadBack(fields: seq<seq<Byte>>)
    requires AllShort(fields)
    ensures DecodeFields(Body(fields), |fields|) == Some(fields)
  {
    if fields != [] {
      var field, rest := fields[0], Body(fields[1..]);
      assert |field| <= MAX_FIELD;
      LengthReadsBack(|field|);
      var b := Body(fields);
      assert b == Length(|field|) + field + rest;
      assert b[0] == Length(|field|)[0] && b[1] == Length(|field|)[1];
      assert b[2..2 + |field|] == field && b[2 + |field|..] == rest;
      assert forall i :: 0 <= i < |fields[1..]| ==> fields[1..][i] == fields[i + 1];
      FieldsReadBack(fields[1..]);
      assert fields == [field] + fields[1..];
    }
  }

  /** Scope and fields come back from the bytes. */
  lemma {:induction false} BytesReadBack(scope: Text, fields: seq<Text>)
    requires |fields| < 0x100 && AllShort(EncodeAll(fields))
    ensures Decoded(Bytes(scope, fields)) == Some(Parts(ByteAt(scope, 0), ByteAt(scope, 1), EncodeAll(fields)))
  {
    var encoded := EncodeAll(fields);
    var b := Bytes(scope, fields);
    assert b[..4] == Header(scope, |fields|) && b[4..] == Body(encoded);
    assert b[0] == b[..4][0] && b[1] == b[..4][1] && b[2] == b[..4][2] && b[3] == b[..4][3];
    FieldsReadBack(encoded);
  }

  ghost predicate IsScope(scope: Text) {
    |scope| == 2 && scope[0] < 0x100 && scope[1] < 0x100
  }

  ghost function RepairedAll(fields: seq<Text>): seq<Text> {
    if fields == [] then [] else [Repaired(fields[0])] + RepairedAll(fields[1..])
  }

  lemma {:induction false} RepairedAllIs(fields: seq<Text>)
    ensures |RepairedAll(fields)| == |fields|
    ensures forall i :: 0 <= i < |fields| ==> RepairedAll(fields)[i] == Repaired(fields[i])
  {
    if fields != [] {
      RepairedAllIs(fields[1..]);
    }
  }

  lemma {:induction false} SameFieldsIff(a: seq<Text>, b: seq<Text>)
    ensures EncodeAll(a) == EncodeAll(b) <==> RepairedAll(a) == RepairedAll(b)
  {
    RepairedAllIs(a);
    RepairedAllIs(b);
    if |a| == |b| {
      forall i | 0 <= i < |a|
        ensures EncodeAll(a)[i] == EncodeAll(b)[i] <==> RepairedAll(a)[i] == RepairedAll(b)[i]
      {
        SameBytesIff(a[i], b[i]);
      }
    }
  }

  /** Within the limits, equal bytes mean equal scope and, up to lone surrogates, equal fields. */
  lemma {:induction false} SameAadIff(scope: Text, a: seq<Text>, other: Text, b: seq<Text>)
    requires IsScope(scope) && IsScope(other) && |a| < 0x100 && |b| < 0x100
    requires AllShort(EncodeAll(a)) && AllShort(EncodeAll(b))
    ensures Bytes(scope, a) == Bytes(other, b) <==> scope == other && RepairedAll(a) == RepairedAll(b)
  {
    SameFieldsIff(a, b);
    RepairedAllIs(a);
    RepairedAllIs(b);
    if Bytes(scope, a) == Bytes(other, b) {
      SameBytesSameParts(scope, a, other, b);
    }
  }

  lemma {:induction false} SameBytesSameParts(scope: Text, a: seq<Text>, other: Text, b: seq<Text>)
    requires IsScope(scope) && IsScope(other) && |a| < 0x100 && |b| < 0x100
    requires AllShort(EncodeAll(a)) && AllShort(EncodeAll(b)) && Bytes(scope, a) == Bytes(other, b)
    ensures scope == other && EncodeAll(a) == EncodeAll(b)
  {
    BytesReadBack(scope, a);
    BytesReadBack(other, b);
    SameScope(scope, other);
  }

  lemma {:induction false} SameScope(scope: Text, other: Text)
    requires IsScope(scope) && IsScope(other)
    requires ByteAt(scope, 0) == ByteAt(other, 0) && ByteAt(scope, 1) == ByteAt(other, 1)
    ensures scope == other
  {
  }
}
