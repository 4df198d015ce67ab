/** Splitting bytes into UTF-8 characters and invalid bytes, as the chunks of
    the standard library do in nmbl-host-tools/src/log_import.rs. */
module Utf8Units {
  import opened Basics

  /** A Unicode scalar value. */
  type Scalar = c: int | 0 <= c < 0xD800 || 0xE000 <= c < 0x110000

  /** One step of the splitter: a valid character or one invalid byte. */
  datatype Unit = Char(c: Scalar) | Raw(b: Byte)

  function Utf8(c: Scalar): (bytes: seq<Byte>)
    ensures 1 <= |bytes| <= 4
    ensures c < 0x80 <==> |bytes| == 1
    ensures |bytes| > 1 ==> forall i :: 0 <= i < |bytes| ==> bytes[i] >= 0x80
  {
    if c < 0x80 then [c]
    else if c < 0x800 then [0xC0 + c / 64, 0x80 + c % 64]
    else if c < 0x10000 then [0xE0 + c / 4096, 0x80 + c / 64 % 64, 0x80 + c % 64]
    else [0xF0 + c / 262144, 0x80 + c / 4096 % 64, 0x80 + c / 64 % 64, 0x80 + c % 64]
  }

  function UnitBytes(u: Unit): (bytes: seq<Byte>)
    ensures bytes != []
  {
    if u.Char? then Utf8(u.c) else [u.b]
  }

  /** The raw bytes a sequence of units was split from. */
  function RawBytes(units: seq<Unit>): seq<Byte> {
    if units == [] then [] else UnitBytes(units[0]) + RawBytes(units[1..])
  }

  lemma {:induction false} RawBytesConcat(a: seq<Unit>, b: seq<Unit>)
    ensures RawBytes(a + b) == RawBytes(a) + RawBytes(b)
  {
    if a == [] {
      assert a + b == b;
    } else {
      assert (a + b)[1..] == a[1..] + b;
      RawBytesConcat(a[1..], b);
    }
  }

  // ---------------------------------------------------------------------
  // The one way to split

  /** No character starts here. */
  ghost predicate NoChar(bytes: seq<Byte>) {
    forall c: Scalar :: !(Utf8(c) <= bytes)
  }

  /** The units a decoder yields: a byte is invalid exactly when no character
      starts at it. */
  ghost predicate Canonical(units: seq<Unit>) {
    units == [] || (Canonical(units[1..]) && (units[0].Raw? ==> NoChar(RawBytes(units))))
  }

  /** The length of a character is told by its first byte. */
  lemma Utf8Length(c: Scalar, d: Scalar)
    requires Utf8(c)[0] == Utf8(d)[0]
    ensures |Utf8(c)| == |Utf8(d)|
  {
  }

  lemma Utf8Injective(c: Scalar, d: Scalar)
    requires Utf8(c) == Utf8(d)
    ensures c == d
  {
    var bytes := Utf8(c);
    assert forall i :: 0 <= i < |bytes| ==> Utf8(d)[i] == bytes[i];
    Digits64(c);
    Digits64(d);
  }

  /** A number is made of its digits to the base 64. */
  lemma Digits64(c: nat)
    ensures c == c / 64 * 64 + c % 64
    ensures c / 64 == c / 4096 * 64 + c / 64 % 64
    ensures c / 4096 == c / 262144 * 64 + c / 4096 % 64
  {
    assert c / 64 / 64 == c / 4096;
    assert c / 4096 / 64 == c / 262144;
  }

  /** Two characters cannot start at the same place. */
  lemma OneCharStarts(c: Scalar, d: Scalar, bytes: seq<Byte>)
    requires Utf8(c) <= bytes && Utf8(d) <= bytes
    ensures c == d
  {
    assert Utf8(c)[0] == bytes[0] == Utf8(d)[0];
    Utf8Length(c, d);
    assert Utf8(c) == bytes[..|Utf8(c)|] == Utf8(d);
    Utf8Injective(c, d);
  }

  /** The bytes of a line determine its units. */
  lemma {:induction false} CanonicalIsUnique(u: seq<Unit>, v: seq<Unit>)
    requires Canonical(u) && Canonical(v) && RawBytes(u) == RawBytes(v)
    ensures u == v
  {
    if u != [] && v != [] {
      SameFirstUnit(u, v, RawBytes(u));
      var n := |UnitBytes(u[0])|;
      assert RawBytes(u[1..]) == RawBytes(u)[n..] && RawBytes(v[1..]) == RawBytes(v)[n..];
      CanonicalIsUnique(u[1..], v[1..]);
      assert u == [u[0]] + u[1..] && v == [v[0]] + v[1..];
    }
  }

  lemma {:induction false} SameFirstUnit(u: seq<Unit>, v: seq<Unit>, bytes: seq<Byte>)
    requires u != [] && v != [] && Canonical(u) && Canonical(v) && bytes == RawBytes(u) == RawBytes(v)
    ensures u[0] == v[0]
  {
    FirstUnitStarts(u, bytes);
    FirstUnitStarts(v, bytes);
    if u[0].Char? && v[0].Char? {
      OneCharStarts(u[0].c, v[0].c, bytes);
    }
  }

  lemma {:induction false} FirstUnitStarts(u: seq<Unit>, bytes: seq<Byte>)
    requires u != [] && Canonical(u) && bytes == RawBytes(u)
    ensures bytes != []
    ensures if u[0].Char? then Utf8(u[0].c) <= bytes else NoChar(bytes) && u[0].b == bytes[0]
  {
    assert UnitBytes(u[0]) <= bytes;
  }

  lemma {:induction false} CanonicalCons(u: Unit, rest: seq<Unit>)
    requires Canonical(rest) && (u.Raw? ==> NoChar(UnitBytes(u) + RawBytes(rest)))
    ensures Canonical([u] + rest) && RawBytes([u] + rest) == UnitBytes(u) + RawBytes(rest)
  {
    assert ([u] + rest)[1..] == rest;
  }

  /** The unit that some bytes start with. */
  ghost function FirstUnit(bytes: seq<Byte>): (u: Unit)
    requires bytes != []
    ensures UnitBytes(u) <= bytes && (u.Raw? ==> NoChar(bytes))
  {
    if NoChar(bytes) then Raw(bytes[0])
    else
      var c: Scalar :| Utf8(c) <= bytes;
      Char(c)
  }

  ghost function SplitUnits(bytes: seq<Byte>): seq<Unit> {
    if bytes == [] then []
    else
      var u := FirstUnit(bytes);
      [u] + SplitUnits(bytes[|UnitBytes(u)|..])
  }

  /** Every line has canonical units, and only these. */
  lemma {:induction false} SplitUnitsSplit(bytes: seq<Byte>)
    ensures RawBytes(SplitUnits(bytes)) == bytes && Canonical(SplitUnits(bytes))
  {
    if bytes != [] {
      var u := FirstUnit(bytes);
      var rest := bytes[|UnitBytes(u)|..];
      SplitUnitsSplit(rest);
      assert bytes == UnitBytes(u) + rest;
      CanonicalCons(u, SplitUnits(rest));
    }
  }

  lemma {:induction false} SplitUnitsIsTheSplit(units: seq<Unit>)
    requires Canonical(units)
    ensures SplitUnits(RawBytes(units)) == units
  {
    SplitUnitsSplit(RawBytes(units));
    CanonicalIsUnique(SplitUnits(RawBytes(units)), units);
  }

  // ---------------------------------------------------------------------
  // ASCII

  predicate AsciiText(text: seq<Scalar>) {
    forall i :: 0 <= i < |text| ==> text[i] < 0x80
  }

  function Chars(text: seq<Scalar>): (units: seq<Unit>)
    ensures |units| == |text| && forall i :: 0 <= i < |text| ==> units[i] == Char(text[i])
  {
    seq(|text|, i requires 0 <= i < |text| => Char(text[i]))
  }

  lemma {:induction false} AsciiUnits(text: seq<Scalar>)
    requires AsciiText(text)
    ensures RawBytes(Chars(text)) == text && Canonical(Chars(text))
  {
    if text != [] {
      assert Chars(text)[1..] == Chars(text[1..]);
      AsciiUnits(text[1..]);
    }
  }

  /** A byte that starts no character still starts none when what follows some
      bytes after it is replaced by ASCII. */
  lemma NoCharBeforeAscii(a: seq<Byte>, b: seq<Byte>, text: seq<Byte>)
    requires a != [] && NoChar(a + b) && forall i :: 0 <= i < |text| ==> text[i] < 0x80
    ensures NoChar(a + text)
  {
    AsciiAddsNoChar(a, b, text);
  }

  lemma AsciiAddsNoChar(a: seq<Byte>, b: seq<Byte>, text: seq<Byte>)
    requires a != [] && forall i :: 0 <= i < |text| ==> text[i] < 0x80
    ensures forall c: Scalar :: Utf8(c) <= a + text ==> Utf8(c) <= a + b
  {
    forall c: Scalar | Utf8(c) <= a + text ensures Utf8(c) <= a + b {
      CharEndsBeforeAscii(a, text, c);
      assert Utf8(c) == (a + text)[..|Utf8(c)|] == (a + b)[..|Utf8(c)|];
    }
  }

  lemma CharEndsBeforeAscii(a: seq<Byte>, text: seq<Byte>, c: Scalar)
    requires a != [] && Utf8(c) <= a + text && forall i :: 0 <= i < |text| ==> text[i] < 0x80
    ensures |Utf8(c)| <= |a|
  {
    NextByte(a, text, Utf8(c));
  }

  lemma NextByte(a: seq<Byte>, text: seq<Byte>, start: seq<Byte>)
    requires start <= a + text
    ensures |a| < |start| ==> text != [] && start[|a|] == text[0]
  {
    assert |a| < |start| ==> start[|a|] == (a + text)[|a|];
  }

  /** The bytes of a line cut after k units and continued by some text. */
  lemma {:induction false} CutBytes(units: seq<Unit>, k: nat, text: seq<Scalar>)
    requires k <= |units| && AsciiText(text)
    ensures RawBytes(units) == RawBytes(units[..k]) + RawBytes(units[k..])
    ensures RawBytes(units[..k] + Chars(text)) == RawBytes(units[..k]) + text
  {
    assert units == units[..k] + units[k..];
    RawBytesConcat(units[..k], units[k..]);
    RawBytesConcat(units[..k], Chars(text));
    AsciiUnits(text);
  }

  /** ASCII text can follow any beginning of a line. */
  lemma {:induction false} CanonicalBeforeAscii(units: seq<Unit>, k: nat, text: seq<Scalar>)
    requires Canonical(units) && k <= |units| && AsciiText(text)
    ensures Canonical(units[..k] + Chars(text))
  {
    if k == 0 {
      AsciiUnits(text);
      assert units[..0] + Chars(text) == Chars(text);
    } else {
      var rest := units[1..][..k - 1] + Chars(text);
      assert units[..k] + Chars(text) == [units[0]] + rest;
      CanonicalBeforeAscii(units[1..], k - 1, text);
      CutBytes(units, k, text);
      if units[0].Raw? {
        NoCharBeforeAscii(RawBytes(units[..k]), RawBytes(units[k..]), text);
      }
      CanonicalCons(units[0], rest);
    }
  }
}
