/** Why a state slot is refused, from the bytes where its decoder stops. */
module CborFaults {
  import opened Basics
  import opened CborSlots

  /** The bytes of an argument after the first byte, for each value of its low
      five bits that is allowed. */
  function More(low: nat): nat {
    if low < 24 then 0 else if low == 24 then 1 else if low == 25 then 2 else if low == 26 then 4 else 8
  }

  /** What is wrong with the item at a position before any item inside it is
      looked at: it lies too deep or past the end; its first byte is none of the
      three primitives, or one of the four lengths that are not supported; its
      argument or its string runs past the end; its argument is above 16384
      where it counts something; it is a tag; or its text is not UTF-8. */
  function Fault(utf8: Utf8Check, data: seq<Byte>, pos: nat, depth: nat): Option<Error> {
    if depth > 32 || pos >= |data| then Some(Invalid)
    else if data[pos] >= 0xE0 then (if 0xF4 <= data[pos] <= 0xF6 then None else Some(Unsupported))
    else if data[pos] % 32 >= 28 then Some(Unsupported)
    else
      var at := pos + 1 + More(data[pos] % 32);
      if at > |data| then Some(Truncated)
      else
        var n := if data[pos] % 32 < 24 then data[pos] % 32 else BigEndian(data[pos + 1..at]);
        if data[pos] < 0x40 then None
        else if n > 16384 then Some(Oversized)
        else if data[pos] >= 0xC0 then Some(Unsupported)
        else if data[pos] >= 0x80 then None
        else if at + n > |data| then Some(Truncated)
        else if data[pos] >= 0x60 && !utf8(data[at..at + n]) then Some(BadText)
        else None
  }

  /** Such a fault is the answer; and without one every item that holds no other
      items is read. */
  lemma {:induction false} FaultIsAnswer(utf8: Utf8Check, data: seq<Byte>, pos: nat, depth: nat)
    requires pos <= |data| && depth <= 33
    ensures var fault := Fault(utf8, data, pos, depth);
      if fault.Some? then DecodeItem(utf8, data, pos, depth) == Err(fault.value)
      else data[pos] < 0x80 || data[pos] >= 0xE0 ==> DecodeItem(utf8, data, pos, depth).Ok?
  {
    if depth <= 32 && pos < |data| && data[pos] < 0xE0 {
      ArgumentFault(data, pos);
    }
  }

  lemma {:induction false} ArgumentFault(data: seq<Byte>, pos: nat)
    requires pos < |data|
    ensures var low := data[pos] % 32;
      var r, at := Argument(data, pos + 1, low), pos + 1 + More(low);
      if low >= 28 then r == Err(Unsupported)
      else if at > |data| then r == Err(Truncated)
      else r == Ok((if low < 24 then low else BigEndian(data[pos + 1..at]), at))
  {
  }

  /** An item is read at each of these places but the last, and ends at the
      next. */
  ghost predicate ItemsRead(utf8: Utf8Check, data: seq<Byte>, depth: nat, places: seq<nat>)
    requires depth <= 33
  {
    forall i :: 0 <= i < |places| - 1 ==>
      && places[i] <= |data| && DecodeItem(utf8, data, places[i], depth).Ok?
      && DecodeItem(utf8, data, places[i], depth).value.1 == places[i + 1]
  }

  /** A list that is refused is refused for the first of its items that is. */
  lemma {:induction false} FirstFaultCounts(utf8: Utf8Check, data: seq<Byte>, pos: nat, depth: nat, count: nat,
                                            done: seq<Value>)
    returns (places: seq<nat>)
    requires pos <= |data| && depth <= 33 && DecodeItems(utf8, data, pos, depth, count, done).Err?
    ensures 0 < |places| <= count && places[0] == pos && ItemsRead(utf8, data, depth, places)
    ensures places[|places| - 1] <= |data|
    ensures var answer := DecodeItem(utf8, data, places[|places| - 1], depth);
      answer.Err? && DecodeItems(utf8, data, pos, depth, count, done) == Err(answer.error)
    decreases count
  {
    var item := DecodeItem(utf8, data, pos, depth);
    if item.Err? {
      places := [pos];
    } else {
      var rest := FirstFaultCounts(utf8, data, item.value.1, depth, count - 1, done + [item.value.0]);
      places := [pos] + rest;
    }
  }

  /** The answers to a slot that its size or its first byte decides. */
  lemma {:induction false} SlotFaults(utf8: Utf8Check, data: seq<Byte>)
    ensures |data| != 16384 ==> DecodeSlot(utf8, data) == Err(WrongSize)
    ensures |data| == 16384 ==>
      var fault := Fault(utf8, data, 0, 0);
      && (fault.Some? ==> DecodeSlot(utf8, data) == Err(fault.value))
      && (fault.None? && (data[0] < 0x80 || data[0] >= 0xE0) ==> DecodeSlot(utf8, data) == Err(NotAMap))
  {
    if |data| == 16384 {
      FaultIsAnswer(utf8, data, 0, 0);
      FirstByteTells(utf8, data);
    }
  }

  /** Only the major type 5 makes dictionaries. */
  lemma {:induction false} FirstByteTells(utf8: Utf8Check, data: seq<Byte>)
    requires |data| == 16384
    ensures var r := DecodeItem(utf8, data, 0, 0); r.Ok? && r.value.0.Dict? ==> 0xA0 <= data[0] < 0xC0
  {
  }
}
