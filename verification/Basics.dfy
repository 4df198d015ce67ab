/** Shared value types and a few facts about sequences. */
module Basics {
  type Byte = b: int | 0 <= b < 256

  /** Whether bytes are valid UTF-8. */
  type Utf8Check = seq<Byte> -> bool

  datatype Option<+T> = None | Some(value: T)

  datatype Result<+T, +E> = Ok(value: T) | Err(error: E)

  /** The byte of an ASCII character; anything else becomes a question mark. */
  function AsciiByte(c: char): Byte {
    if c < 128 as char then c as int else 63
  }

  /** The bytes of an ASCII literal. */
  function Ascii(text: string): (bytes: seq<Byte>)
    ensures |bytes| == |text|
    ensures forall i :: 0 <= i < |text| ==> bytes[i] == AsciiByte(text[i])
  {
    seq(|text|, i requires 0 <= i < |text| => AsciiByte(text[i]))
  }

  /** `part` stands in `whole` at a position. */
  predicate Stands<T(==)>(whole: seq<T>, pos: nat, part: seq<T>) {
    pos + |part| <= |whole| && whole[pos..pos + |part|] == part
  }

  lemma StandsSplit<T>(whole: seq<T>, pos: nat, a: seq<T>, b: seq<T>)
    requires Stands(whole, pos, a + b)
    ensures Stands(whole, pos, a) && Stands(whole, pos + |a|, b)
  {
    var both := whole[pos..pos + |a + b|];
    assert both[..|a|] == a && both[|a|..] == b;
  }

  lemma ConcatAssociative<T>(a: seq<T>, b: seq<T>, c: seq<T>)
    ensures a + (b + c) == a + b + c
  {
  }

  predicate Distinct<T(==)>(s: seq<T>) {
    forall i, j :: 0 <= i < j < |s| ==> s[i] != s[j]
  }
}
