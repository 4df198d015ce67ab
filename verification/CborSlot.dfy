/** The state-slot decoder (testing/stateful-bios-host/harness.py): a subset of
    the major types of section 3 of RFC 8949, read with one shared cursor. */
module CborSlots {
  import opened Basics

  /** A decoded value. Text is kept as its UTF-8 bytes; a dictionary is its
      entries in insertion order. */
  datatype Value =
    | Bool(b: bool)
    | Null
    | Int(n: int)
    | Blob(bytes: seq<Byte>)
    | Text(bytes: seq<Byte>)
    | List(items: seq<Value>)
    | Dict(entries: seq<Entry>)

  datatype Entry = Entry(key: Value, value: Value)

  datatype Error = Invalid | Unsupported | Truncated | Oversized | BadText | BadKey | NotAMap | WrongSize

  const SLOT_SIZE := 16384
  const MAX_LENGTH := 16384
  const MAX_DEPTH := 32
  const TWO_64 := 0x1_0000_0000_0000_0000

  /** What decoding an item leaves: the value and the new position. */
  type Decoded<T> = Result<(T, nat), Error>

  // ---------------------------------------------------------------------
  // Dictionaries

  predicate Hashable(v: Value) {
    !v.List? && !v.Dict?
  }

  /** Equality of dictionary keys: the booleans are the integers 0 and 1. */
  function Numeral(v: Value): Value {
    if v.Bool? then Int(if v.b then 1 else 0) else v
  }

  predicate SameKey(a: Value, b: Value) {
    Numeral(a) == Numeral(b)
  }

  predicate HasKey(entries: seq<Entry>, key: Value) {
    exists i :: 0 <= i < |entries| && SameKey(entries[i].key, key)
  }

  /** Store under a key: replace in place, or append. */
  function Store(entries: seq<Entry>, key: Value, value: Value): (after: seq<Entry>)
    ensures |after| <= |entries| + 1
    ensures !HasKey(entries, key) ==> after == entries + [Entry(key, value)]
  {
    if entries == [] then [Entry(key, value)]
    else
      assert entries == [entries[0]] + entries[1..];
      if SameKey(entries[0].key, key) then [Entry(entries[0].key, value)] + entries[1..]
      else
        assert HasKey(entries[1..], key) ==> HasKey(entries, key) by {
          if HasKey(entries[1..], key) {
            var i :| 0 <= i < |entries[1..]| && SameKey(entries[1..][i].key, key);
            assert SameKey(entries[i + 1].key, key);
          }
        }
        [entries[0]] + Store(entries[1..], key, value)
  }

  predicate DistinctKeys(entries: seq<Entry>) {
    forall i, j :: 0 <= i < j < |entries| ==> !SameKey(entries[i].key, entries[j].key)
  }

  /** Each of these entries brings a key that is not there yet. */
  predicate FreshKeys(done: seq<Entry>, entries: seq<Entry>)
    decreases |entries|
  {
    entries == [] || (!HasKey(done, entries[0].key) && FreshKeys(done + [entries[0]], entries[1..]))
  }

  lemma {:induction false} FreshMeansDistinct(done: seq<Entry>, entries: seq<Entry>)
    requires DistinctKeys(done)
    ensures FreshKeys(done, entries) <==> DistinctKeys(done + entries)
    decreases |entries|
  {
    if entries == [] {
      assert done + entries == done;
    } else {
      var all := done + entries;
      assert all[|done|] == entries[0];
      assert forall i :: 0 <= i < |done| ==> all[i] == done[i];
      assert done + [entries[0]] + entries[1..] == all;
      if !HasKey(done, entries[0].key) {
        FreshMeansDistinct(done + [entries[0]], entries[1..]);
      }
    }
  }

  // ---------------------------------------------------------------------
  // Heads

  function BigEndian(bytes: seq<Byte>): nat {
    if bytes == [] then 0 else BigEndian(bytes[..|bytes| - 1]) * 256 + bytes[|bytes| - 1]
  }

  function ToBigEndian(n: nat, width: nat): (bytes: seq<Byte>)
    ensures |bytes| == width
  {
    if width == 0 then [] else ToBigEndian(n / 256, width - 1) + [n % 256]
  }

  function Power256(width: nat): nat {
    if width == 0 then 1 else 256 * Power256(width - 1)
  }

  lemma {:induction false} BigEndianRoundTrip(n: nat, width: nat)
    requires n < Power256(width)
    ensures BigEndian(ToBigEndian(n, width)) == n
  {
    if width > 0 {
      BigEndianRoundTrip(n / 256, width - 1);
      assert ToBigEndian(n, width)[..width - 1] == ToBigEndian(n / 256, width - 1);
    }
  }

  lemma {:induction false} BigEndianBounded(bytes: seq<Byte>)
    ensures BigEndian(bytes) < Power256(|bytes|)
  {
    if bytes != [] {
      BigEndianBounded(bytes[..|bytes| - 1]);
    }
  }

  function Width(short: nat): nat
    requires 24 <= short <= 27
  {
    if short == 24 then 1 else if short == 25 then 2 else if short == 26 then 4 else 8
  }

  lemma Power256Values()
    ensures Power256(1) == 0x100 && Power256(2) == 0x1_0000 && Power256(4) == 0x1_0000_0000 && Power256(8) == TWO_64
  {
    assert Power256(3) == 0x100_0000;
    assert Power256(5) == 0x100_0000_0000;
    assert Power256(6) == 0x1_0000_0000_0000;
    assert Power256(7) == 0x100_0000_0000_0000;
  }

  /** The argument of a head whose low five bits are `short`, read at pos. */
  function Argument(data: seq<Byte>, pos: nat, short: nat): (r: Decoded<nat>)
    requires pos <= |data| && short < 32
    ensures r.Ok? ==> pos <= r.value.1 <= |data| && r.value.0 < TWO_64
  {
    if short < 24 then Ok((short, pos))
    else if short <= 27 then
      var width := Width(short);
      if pos + width > |data| then Err(Truncated)
      else
        var bytes := data[pos..pos + width];
        BigEndianBounded(bytes);
        Power256Values();
        Ok((BigEndian(bytes), pos + width))
    else Err(Unsupported)
  }

  // ---------------------------------------------------------------------
  // Decoding

  function DecodeItem(utf8: Utf8Check, data: seq<Byte>, pos: nat, depth: nat): (r: Decoded<Value>)
    requires pos <= |data| && depth <= MAX_DEPTH + 1
    ensures r.Ok? ==> pos < r.value.1 <= |data|
    decreases MAX_DEPTH + 1 - depth, 0, 0
  {
    if depth > MAX_DEPTH || pos >= |data| then Err(Invalid)
    else
      var major, short := data[pos] / 32, data[pos] % 32;
      if major == 7 then
        if short == 20 then Ok((Bool(false), pos + 1))
        else if short == 21 then Ok((Bool(true), pos + 1))
        else if short == 22 then Ok((Null, pos + 1))
        else Err(Unsupported)
      else
        var argument := Argument(data, pos + 1, short);
        if argument.Err? then Err(argument.error)
        else
          var (value, at) := argument.value;
          if major == 0 then Ok((Int(value), at))
          else if major == 1 then Ok((Int(-1 - value), at))
          else if value > MAX_LENGTH then Err(Oversized)
          else if major == 2 || major == 3 then
            if at + value > |data| then Err(Truncated)
            else if major == 2 then Ok((Blob(data[at..at + value]), at + value))
            else if !utf8(data[at..at + value]) then Err(BadText)
            else Ok((Text(data[at..at + value]), at + value))
          else if major == 4 then
            var items := DecodeItems(utf8, data, at, depth + 1, value, []);
            if items.Err? then Err(items.error) else Ok((List(items.value.0), items.value.1))
          else if major == 5 then
            var entries := DecodeEntries(utf8, data, at, depth + 1, value, []);
            if entries.Err? then Err(entries.error) else Ok((Dict(entries.value.0), entries.value.1))
          else Err(Unsupported)
  }

  /** The remaining items of a list, after those already decoded. */
  function DecodeItems(utf8: Utf8Check, data: seq<Byte>, pos: nat, depth: nat, count: nat, done: seq<Value>)
    : (r: Decoded<seq<Value>>)
    requires pos <= |data| && depth <= MAX_DEPTH + 1
    ensures r.Ok? ==> pos <= r.value.1 <= |data| && |r.value.0| == |done| + count
    decreases MAX_DEPTH + 1 - depth, 1, count
  {
    if count == 0 then Ok((done, pos))
    else
      var item := DecodeItem(utf8, data, pos, depth);
      if item.Err? then Err(item.error)
      else DecodeItems(utf8, data, item.value.1, depth, count - 1, done + [item.value.0])
  }

  /** One key and its value; the key is looked at only when both are read. */
  function DecodeEntry(utf8: Utf8Check, data: seq<Byte>, pos: nat, depth: nat): (r: Decoded<Entry>)
    requires pos <= |data| && depth <= MAX_DEPTH + 1
    ensures r.Ok? ==> pos < r.value.1 <= |data|
    decreases MAX_DEPTH + 1 - depth, 0, 1
  {
    var key := DecodeItem(utf8, data, pos, depth);
    if key.Err? then Err(key.error)
    else
      var value := DecodeItem(utf8, data, key.value.1, depth);
      if value.Err? then Err(value.error)
      else if !Hashable(key.value.0) then Err(BadKey)
      else Ok((Entry(key.value.0, value.value.0), value.value.1))
  }

  /** The remaining entries of a dictionary. */
  function DecodeEntries(utf8: Utf8Check, data: seq<Byte>, pos: nat, depth: nat, count: nat, done: seq<Entry>)
    : (r: Decoded<seq<Entry>>)
    requires pos <= |data| && depth <= MAX_DEPTH + 1
    ensures r.Ok? ==> pos <= r.value.1 <= |data| && |r.value.0| <= |done| + count
    decreases MAX_DEPTH + 1 - depth, 1, count
  {
    if count == 0 then Ok((done, pos))
    else
      var entry := DecodeEntry(utf8, data, pos, depth);
      if entry.Err? then Err(entry.error)
      else
        var (e, next) := entry.value;
        DecodeEntries(utf8, data, next, depth, count - 1, Store(done, e.key, e.value))
  }

  /** A slot is a dictionary at its start; what follows it is not looked at. */
  function DecodeSlot(utf8: Utf8Check, data: seq<Byte>): Result<Value, Error> {
    if |data| != SLOT_SIZE then Err(WrongSize)
    else
      var item := DecodeItem(utf8, data, 0, 0);
      if item.Err? then Err(item.error)
      else if !item.value.0.Dict? then Err(NotAMap)
      else Ok(item.value.0)
  }

  // ---------------------------------------------------------------------
  // Encoding

  /** The shortest head of a major type with an argument. */
  function Head(major: nat, n: nat): (bytes: seq<Byte>)
    requires major < 7 && n < TWO_64
    ensures bytes != []
  {
    if n < 24 then [major * 32 + n]
    else if n < 0x100 then [major * 32 + 24] + ToBigEndian(n, 1)
    else if n < 0x1_0000 then [major * 32 + 25] + ToBigEndian(n, 2)
    else if n < 0x1_0000_0000 then [major * 32 + 26] + ToBigEndian(n, 4)
    else [major * 32 + 27] + ToBigEndian(n, 8)
  }

  /** The values a slot can hold at this depth. */
  predicate Encodable(utf8: Utf8Check, v: Value, depth: nat)
    decreases v, 1
  {
    depth <= MAX_DEPTH &&
    match v
    case Bool(_) => true
    case Null => true
    case Int(n) => -TWO_64 <= n < TWO_64
    case Blob(bytes) => |bytes| <= MAX_LENGTH
    case Text(bytes) => |bytes| <= MAX_LENGTH && utf8(bytes)
    case List(items) => |items| <= MAX_LENGTH && ItemsEncodable(utf8, items, depth + 1)
    case Dict(entries) =>
      |entries| <= MAX_LENGTH && FreshKeys([], entries) && EntriesEncodable(utf8, entries, depth + 1)
  }

  predicate ItemsEncodable(utf8: Utf8Check, items: seq<Value>, depth: nat)
    decreases items, 0
  {
    items == [] || (Encodable(utf8, items[0], depth) && ItemsEncodable(utf8, items[1..], depth))
  }

  predicate EntriesEncodable(utf8: Utf8Check, entries: seq<Entry>, depth: nat)
    decreases entries, 0
  {
    entries == [] || (EntryEncodable(utf8, entries[0], depth) && EntriesEncodable(utf8, entries[1..], depth))
  }

  predicate EntryEncodable(utf8: Utf8Check, e: Entry, depth: nat)
    decreases e, 0
  {
    Hashable(e.key) && Encodable(utf8, e.key, depth) && Encodable(utf8, e.value, depth)
  }

  function Encode(v: Value): (bytes: seq<Byte>)
    decreases v, 1
  {
    match v
    case Bool(b) => [if b then 0xF5 else 0xF4]
    case Null => [0xF6]
    case Int(n) =>
      if 0 <= n < TWO_64 then Head(0, n) else if -TWO_64 <= n < 0 then Head(1, -1 - n) else []
    case Blob(bytes) => if |bytes| <= MAX_LENGTH then Head(2, |bytes|) + bytes else []
    case Text(bytes) => if |bytes| <= MAX_LENGTH then Head(3, |bytes|) + bytes else []
    case List(items) => if |items| <= MAX_LENGTH then Head(4, |items|) + EncodeItems(items) else []
    case Dict(entries) => if |entries| <= MAX_LENGTH then Head(5, |entries|) + EncodeEntries(entries) else []
  }

  function EncodeItems(items: seq<Value>): seq<Byte>
    decreases items, 0
  {
    if items == [] then [] else Encode(items[0]) + EncodeItems(items[1..])
  }

  function EncodeEntries(entries: seq<Entry>): seq<Byte>
    decreases entries, 0
  {
    if entries == [] then [] else EncodeEntry(entries[0]) + EncodeEntries(entries[1..])
  }

  function EncodeEntry(e: Entry): seq<Byte>
    decreases e, 0
  {
    Encode(e.key) + Encode(e.value)
  }

  /** Reading a shortest head gives its type and argument back. */
  lemma HeadReads(data: seq<Byte>, pos: nat, major: nat, n: nat)
    requires major < 7 && n < TWO_64 && Stands(data, pos, Head(major, n))
    ensures pos < |data| && data[pos] / 32 == major
    ensures Argument(data, pos + 1, data[pos] % 32) == Ok((n, pos + |Head(major, n)|))
  {
    var head := Head(major, n);
    assert data[pos] == data[pos..pos + |head|][0] == head[0];
    if n >= 24 {
      var short := LongForm(major, n);
      var bytes := ToBigEndian(n, Width(short));
      StandsSplit(data, pos, [head[0]], bytes);
      BigEndianRoundTrip(n, Width(short));
      LongArgument(data, pos + 1, short, bytes);
    }
  }

  /** A long head is its first byte and the argument in a width that holds it. */
  lemma LongForm(major: nat, n: nat) returns (short: nat)
    requires major < 7 && 24 <= n < TWO_64
    ensures 24 <= short <= 27 && n < Power256(Width(short))
    ensures Head(major, n) == [major * 32 + short] + ToBigEndian(n, Width(short))
  {
    Power256Values();
    short := if n < 0x100 then 24 else if n < 0x1_0000 then 25 else if n < 0x1_0000_0000 then 26 else 27;
  }

  lemma {:induction false} LongArgument(data: seq<Byte>, pos: nat, short: nat, bytes: seq<Byte>)
    requires 24 <= short <= 27 && |bytes| == Width(short) && Stands(data, pos, bytes)
    ensures Argument(data, pos, short) == Ok((BigEndian(bytes), pos + |bytes|))
  {
  }

  /** A head and what it announces. */
  lemma OpensWith(data: seq<Byte>, pos: nat, major: nat, n: nat, body: seq<Byte>)
    requires major < 7 && n < TWO_64 && Stands(data, pos, Head(major, n) + body)
    ensures pos < |data| && data[pos] / 32 == major
    ensures Argument(data, pos + 1, data[pos] % 32) == Ok((n, pos + |Head(major, n)|))
    ensures Stands(data, pos + |Head(major, n)|, body)
  {
    StandsSplit(data, pos, Head(major, n), body);
    HeadReads(data, pos, major, n);
  }

  // ---------------------------------------------------------------------
  // Round trip

  /** Decoding at this position gives the value and ends there. */
  ghost predicate ReadsItem(utf8: Utf8Check, data: seq<Byte>, pos: nat, depth: nat, v: Value, end: nat) {
    pos <= |data| && depth <= MAX_DEPTH + 1 && DecodeItem(utf8, data, pos, depth) == Ok((v, end))
  }

  ghost predicate ReadsItems(utf8: Utf8Check, data: seq<Byte>, pos: nat, depth: nat,
                             done: seq<Value>, items: seq<Value>, end: nat) {
    && pos <= |data| && depth <= MAX_DEPTH + 1
    && DecodeItems(utf8, data, pos, depth, |items|, done) == Ok((done + items, end))
  }

  ghost predicate ReadsEntry(utf8: Utf8Check, data: seq<Byte>, pos: nat, depth: nat, e: Entry, end: nat) {
    pos <= |data| && depth <= MAX_DEPTH + 1 && DecodeEntry(utf8, data, pos, depth) == Ok((e, end))
  }

  ghost predicate ReadsEntries(utf8: Utf8Check, data: seq<Byte>, pos: nat, depth: nat,
                               done: seq<Entry>, entries: seq<Entry>, end: nat) {
    && pos <= |data| && depth <= MAX_DEPTH + 1
    && DecodeEntries(utf8, data, pos, depth, |entries|, done) == Ok((done + entries, end))
  }

  /** A head of a list or dictionary hands over to its contents. */
  lemma ListUnfolds(utf8: Utf8Check, data: seq<Byte>, pos: nat, depth: nat, at: nat, items: seq<Value>, end: nat)
    requires pos < |data| && depth <= MAX_DEPTH && |items| <= MAX_LENGTH
    requires data[pos] / 32 == 4 && Argument(data, pos + 1, data[pos] % 32) == Ok((|items|, at))
    requires ReadsItems(utf8, data, at, depth + 1, [], items, end)
    ensures ReadsItem(utf8, data, pos, depth, List(items), end)
  {
    assert [] + items == items;
  }

  lemma DictUnfolds(utf8: Utf8Check, data: seq<Byte>, pos: nat, depth: nat, at: nat, entries: seq<Entry>, end: nat)
    requires pos < |data| && depth <= MAX_DEPTH && |entries| <= MAX_LENGTH
    requires data[pos] / 32 == 5 && Argument(data, pos + 1, data[pos] % 32) == Ok((|entries|, at))
    requires ReadsEntries(utf8, data, at, depth + 1, [], entries, end)
    ensures ReadsItem(utf8, data, pos, depth, Dict(entries), end)
  {
    assert [] + entries == entries;
  }

  /** One more item is decoded and added. */
  lemma ItemsUnfold(utf8: Utf8Check, data: seq<Byte>, pos: nat, depth: nat, done: seq<Value>, items: seq<Value>,
                    next: nat, end: nat)
    requires items != [] && ReadsItem(utf8, data, pos, depth, items[0], next) && next <= |data|
    requires ReadsItems(utf8, data, next, depth, done + [items[0]], items[1..], end)
    ensures ReadsItems(utf8, data, pos, depth, done, items, end)
  {
    Shift(done, items);
  }

  /** One more entry is decoded and stored as a new one. */
  lemma {:induction false} EntriesUnfold(utf8: Utf8Check, data: seq<Byte>, pos: nat, depth: nat, done: seq<Entry>,
                                         entries: seq<Entry>, next: nat, end: nat)
    requires entries != [] && ReadsEntry(utf8, data, pos, depth, entries[0], next) && next <= |data|
    requires Store(done, entries[0].key, entries[0].value) == done + [entries[0]]
    requires ReadsEntries(utf8, data, next, depth, done + [entries[0]], entries[1..], end)
    ensures ReadsEntries(utf8, data, pos, depth, done, entries, end)
  {
    Shift(done, entries);
  }

  /** Shifting the first element over keeps the whole. */
  lemma Shift<T>(done: seq<T>, rest: seq<T>)
    requires rest != []
    ensures done + [rest[0]] + rest[1..] == done + rest
  {
  }

  /** Everything without contents of its own. */
  lemma {:induction false} AtomRoundTrip(utf8: Utf8Check, data: seq<Byte>, pos: nat, depth: nat, v: Value)
    requires Encodable(utf8, v, depth) && Stands(data, pos, Encode(v)) && !v.List? && !v.Dict?
    ensures ReadsItem(utf8, data, pos, depth, v, pos + |Encode(v)|)
  {
    if v.Int? {
      IntRoundTrip(utf8, data, pos, depth, v.n);
    } else if v.Blob? || v.Text? {
      StringRoundTrip(utf8, data, pos, depth, v);
    } else {
      assert data[pos] == data[pos..pos + 1][0];
    }
  }

  lemma IntRoundTrip(utf8: Utf8Check, data: seq<Byte>, pos: nat, depth: nat, n: int)
    requires depth <= MAX_DEPTH && -TWO_64 <= n < TWO_64 && Stands(data, pos, Encode(Int(n)))
    ensures ReadsItem(utf8, data, pos, depth, Int(n), pos + |Encode(Int(n))|)
  {
    if n >= 0 { HeadReads(data, pos, 0, n); } else { HeadReads(data, pos, 1, -1 - n); }
  }

  lemma {:induction false} StringRoundTrip(utf8: Utf8Check, data: seq<Byte>, pos: nat, depth: nat, v: Value)
    requires v.Blob? || v.Text?
    requires Encodable(utf8, v, depth) && Stands(data, pos, Encode(v))
    ensures ReadsItem(utf8, data, pos, depth, v, pos + |Encode(v)|)
  {
    var major := if v.Blob? then 2 else 3;
    OpensWith(data, pos, major, |v.bytes|, v.bytes);
  }

  /** Decoding at an encoding gives the value and the position after it,
      whatever stands around it. */
  lemma {:induction false} ItemRoundTrip(utf8: Utf8Check, data: seq<Byte>, pos: nat, depth: nat, v: Value)
    requires Encodable(utf8, v, depth) && Stands(data, pos, Encode(v))
    ensures ReadsItem(utf8, data, pos, depth, v, pos + |Encode(v)|)
    decreases v, 1
  {
    if v.List? {
      ListRoundTrip(utf8, data, pos, depth, v.items, Head(4, |v.items|), EncodeItems(v.items));
    } else if v.Dict? {
      DictRoundTrip(utf8, data, pos, depth, v.entries, Head(5, |v.entries|), EncodeEntries(v.entries));
    } else {
      AtomRoundTrip(utf8, data, pos, depth, v);
    }
  }

  lemma {:induction false} ListRoundTrip(utf8: Utf8Check, data: seq<Byte>, pos: nat, depth: nat, items: seq<Value>,
                                         head: seq<Byte>, text: seq<Byte>)
    requires depth <= MAX_DEPTH && |items| <= MAX_LENGTH
    requires head == Head(4, |items|) && text == EncodeItems(items) && Stands(data, pos, head + text)
    requires ItemsEncodable(utf8, items, depth + 1)
    ensures ReadsItem(utf8, data, pos, depth, List(items), pos + |head + text|)
    decreases items, 2
  {
    var at := pos + |head|;
    OpensWith(data, pos, 4, |items|, text);
    ItemsRoundTrip(utf8, data, at, depth + 1, items, [], text);
    ListUnfolds(utf8, data, pos, depth, at, items, at + |text|);
  }

  lemma {:induction false} DictRoundTrip(utf8: Utf8Check, data: seq<Byte>, pos: nat, depth: nat, entries: seq<Entry>,
                                         head: seq<Byte>, text: seq<Byte>)
    requires depth <= MAX_DEPTH && |entries| <= MAX_LENGTH
    requires head == Head(5, |entries|) && text == EncodeEntries(entries) && Stands(data, pos, head + text)
    requires FreshKeys([], entries) && EntriesEncodable(utf8, entries, depth + 1)
    ensures ReadsItem(utf8, data, pos, depth, Dict(entries), pos + |head + text|)
    decreases entries, 2
  {
    var at := pos + |head|;
    OpensWith(data, pos, 5, |entries|, text);
    EntriesRoundTrip(utf8, data, at, depth + 1, entries, [], text);
    DictUnfolds(utf8, data, pos, depth, at, entries, at + |text|);
  }

  lemma {:induction false} ItemsRoundTrip(utf8: Utf8Check, data: seq<Byte>, pos: nat, depth: nat,
                                          items: seq<Value>, done: seq<Value>, text: seq<Byte>)
    requires depth <= MAX_DEPTH + 1 && text == EncodeItems(items) && Stands(data, pos, text)
    requires ItemsEncodable(utf8, items, depth)
    ensures ReadsItems(utf8, data, pos, depth, done, items, pos + |text|)
    decreases items, 1
  {
    if items == [] {
      assert done + [] == done;
    } else {
      var next, rest := FirstItemReads(utf8, data, pos, depth, items, text);
      ItemsRoundTrip(utf8, data, next, depth, items[1..], done + [items[0]], rest);
      ItemsUnfold(utf8, data, pos, depth, done, items, next, pos + |text|);
    }
  }

  lemma {:induction false} FirstItemReads(utf8: Utf8Check, data: seq<Byte>, pos: nat, depth: nat,
                                          items: seq<Value>, text: seq<Byte>) returns (next: nat, rest: seq<Byte>)
    requires depth <= MAX_DEPTH + 1 && items != [] && text == EncodeItems(items) && Stands(data, pos, text)
    requires ItemsEncodable(utf8, items, depth)
    ensures ReadsItem(utf8, data, pos, depth, items[0], next) && ItemsEncodable(utf8, items[1..], depth)
    ensures rest == EncodeItems(items[1..]) && Stands(data, next, rest) && next + |rest| == pos + |text|
    decreases items, 0
  {
    var first := Encode(items[0]);
    rest := EncodeItems(items[1..]);
    next := pos + |first|;
    ItemsSplit(data, pos, items, text, first, rest);
    ItemRoundTrip(utf8, data, pos, depth, items[0]);
  }

  /** The first item stands before the others. */
  lemma {:induction false} ItemsSplit(data: seq<Byte>, pos: nat, items: seq<Value>, text: seq<Byte>,
                                      first: seq<Byte>, rest: seq<Byte>)
    requires items != [] && text == EncodeItems(items) && Stands(data, pos, text)
    requires first == Encode(items[0]) && rest == EncodeItems(items[1..])
    ensures Stands(data, pos, first) && Stands(data, pos + |first|, rest) && |text| == |first| + |rest|
  {
    StandsSplit(data, pos, first, rest);
  }

  lemma {:induction false} EntriesSplit(data: seq<Byte>, pos: nat, entries: seq<Entry>, text: seq<Byte>,
                                        key: seq<Byte>, value: seq<Byte>, rest: seq<Byte>)
    requires entries != [] && text == EncodeEntries(entries) && Stands(data, pos, text)
    requires key == Encode(entries[0].key) && value == Encode(entries[0].value)
    requires rest == EncodeEntries(entries[1..])
    ensures Stands(data, pos, key) && Stands(data, pos + |key|, value)
    ensures Stands(data, pos + |key| + |value|, rest) && |text| == |key| + |value| + |rest|
  {
    StandsSplit(data, pos, key + value, rest);
    StandsSplit(data, pos, key, value);
  }

  lemma {:induction false} FirstIsNew(done: seq<Entry>, entries: seq<Entry>)
    requires entries != [] && FreshKeys(done, entries)
    ensures Store(done, entries[0].key, entries[0].value) == done + [entries[0]]
    ensures FreshKeys(done + [entries[0]], entries[1..])
  {
  }

  lemma {:induction false} EntriesRoundTrip(utf8: Utf8Check, data: seq<Byte>, pos: nat, depth: nat,
                                            entries: seq<Entry>, done: seq<Entry>, text: seq<Byte>)
    requires depth <= MAX_DEPTH + 1 && text == EncodeEntries(entries) && Stands(data, pos, text)
    requires FreshKeys(done, entries) && EntriesEncodable(utf8, entries, depth)
    ensures ReadsEntries(utf8, data, pos, depth, done, entries, pos + |text|)
    decreases entries, 1
  {
    if entries == [] {
      assert done + [] == done;
    } else {
      var next, rest := FirstEntryReads(utf8, data, pos, depth, entries, text);
      FirstIsNew(done, entries);
      EntriesRoundTrip(utf8, data, next, depth, entries[1..], done + [entries[0]], rest);
      EntriesUnfold(utf8, data, pos, depth, done, entries, next, pos + |text|);
    }
  }

  lemma {:induction false} FirstEntryReads(utf8: Utf8Check, data: seq<Byte>, pos: nat, depth: nat,
                                           entries: seq<Entry>, text: seq<Byte>) returns (next: nat, rest: seq<Byte>)
    requires depth <= MAX_DEPTH + 1 && entries != [] && text == EncodeEntries(entries) && Stands(data, pos, text)
    requires EntriesEncodable(utf8, entries, depth)
    ensures ReadsEntry(utf8, data, pos, depth, entries[0], next) && EntriesEncodable(utf8, entries[1..], depth)
    ensures rest == EncodeEntries(entries[1..]) && Stands(data, next, rest) && next + |rest| == pos + |text|
    decreases entries, 0
  {
    var key, value := Encode(entries[0].key), Encode(entries[0].value);
    rest := EncodeEntries(entries[1..]);
    next := pos + |key| + |value|;
    EntriesSplit(data, pos, entries, text, key, value, rest);
    EntryRoundTrip(utf8, data, pos, depth, entries[0], key, value);
  }

  lemma {:induction false} EntryRoundTrip(utf8: Utf8Check, data: seq<Byte>, pos: nat, depth: nat, e: Entry,
                                          key: seq<Byte>, value: seq<Byte>)
    requires depth <= MAX_DEPTH + 1 && EntryEncodable(utf8, e, depth)
    requires key == Encode(e.key) && value == Encode(e.value)
    requires Stands(data, pos, key) && Stands(data, pos + |key|, value)
    ensures ReadsEntry(utf8, data, pos, depth, e, pos + |key| + |value|)
    decreases e, 0
  {
    var mid := pos + |key|;
    ItemRoundTrip(utf8, data, pos, depth, e.key);
    ItemRoundTrip(utf8, data, mid, depth, e.value);
    KeyThenValue(utf8, data, pos, depth, e, mid, mid + |value|);
  }

  lemma KeyThenValue(utf8: Utf8Check, data: seq<Byte>, pos: nat, depth: nat, e: Entry, mid: nat, next: nat)
    requires Hashable(e.key) && ReadsItem(utf8, data, pos, depth, e.key, mid)
    requires ReadsItem(utf8, data, mid, depth, e.value, next)
    ensures ReadsEntry(utf8, data, pos, depth, e, next)
  {
  }

  /** A slot holding the encoding of a dictionary, followed by anything,
      decodes to that dictionary. */
  lemma {:induction false} SlotRoundTrip(utf8: Utf8Check, v: Value, padding: seq<Byte>)
    requires v.Dict? && Encodable(utf8, v, 0) && |Encode(v) + padding| == SLOT_SIZE
    ensures DecodeSlot(utf8, Encode(v) + padding) == Ok(v)
  {
    var data := Encode(v) + padding;
    assert data[0..|Encode(v)|] == Encode(v);
    ItemRoundTrip(utf8, data, 0, 0, v);
  }

  /** Two dictionaries with the same encoding are the same. */
  lemma {:induction false} EncodingIsInjective(utf8: Utf8Check, v: Value, w: Value)
    requires Encodable(utf8, v, 0) && Encodable(utf8, w, 0) && Encode(v) == Encode(w)
    ensures v == w
  {
    var data := Encode(v);
    assert data[0..|data|] == data;
    ItemRoundTrip(utf8, data, 0, 0, v);
    ItemRoundTrip(utf8, data, 0, 0, w);
  }

  // ---------------------------------------------------------------------
  // Every decoded value has a normal form that fits where it was read

  lemma {:induction false} ItemsEncodableSnoc(utf8: Utf8Check, items: seq<Value>, v: Value, depth: nat)
    requires ItemsEncodable(utf8, items, depth) && Encodable(utf8, v, depth)
    ensures ItemsEncodable(utf8, items + [v], depth)
    ensures |EncodeItems(items + [v])| == |EncodeItems(items)| + |Encode(v)|
  {
    if items == [] {
      assert items + [v] == [v] && [v][1..] == [];
    } else {
      assert (items + [v])[1..] == items[1..] + [v];
      ItemsEncodableSnoc(utf8, items[1..], v, depth);
    }
  }

  /** Storing keeps the keys distinct and the entries encodable, and costs at
      most the stored entry. */
  lemma {:induction false} StoreKeeps(utf8: Utf8Check, entries: seq<Entry>, e: Entry, depth: nat)
    requires EntriesEncodable(utf8, entries, depth) && EntryEncodable(utf8, e, depth)
    ensures EntriesEncodable(utf8, Store(entries, e.key, e.value), depth)
    ensures |EncodeEntries(Store(entries, e.key, e.value))| <= |EncodeEntries(entries)| + |EncodeEntry(e)|
  {
    var after := Store(entries, e.key, e.value);
    if entries == [] {
      assert after == [e] && after[1..] == [];
    } else if SameKey(entries[0].key, e.key) {
      assert after[1..] == entries[1..];
    } else {
      assert after[1..] == Store(entries[1..], e.key, e.value);
      StoreKeeps(utf8, entries[1..], e, depth);
    }
  }

  lemma {:induction false} StoreKeepsDistinct(entries: seq<Entry>, key: Value, value: Value)
    requires DistinctKeys(entries)
    ensures DistinctKeys(Store(entries, key, value))
    ensures forall other :: HasKey(Store(entries, key, value), other) ==> HasKey(entries, other) || SameKey(key, other)
  {
    var after := Store(entries, key, value);
    if entries == [] || SameKey(entries[0].key, key) {
      assert forall i :: 0 <= i < |entries| ==> after[i].key == entries[i].key;
    } else {
      var rest := Store(entries[1..], key, value);
      StoreKeepsDistinct(entries[1..], key, value);
      assert after == [entries[0]] + rest;
      forall j | 0 <= j < |rest| ensures !SameKey(entries[0].key, rest[j].key) {
        assert HasKey(rest, rest[j].key);
        if HasKey(entries[1..], rest[j].key) {
          var i :| 0 <= i < |entries[1..]| && SameKey(entries[1..][i].key, rest[j].key);
          assert !SameKey(entries[0].key, entries[i + 1].key);
        }
      }
      forall other | HasKey(after, other) ensures HasKey(entries, other) || SameKey(key, other) {
        StoredKeyIsOldOrNew(entries, key, value, other);
      }
    }
  }

  lemma {:induction false} StoredKeyIsOldOrNew(entries: seq<Entry>, key: Value, value: Value, other: Value)
    requires entries != [] && HasKey(Store(entries, key, value), other)
    requires HasKey(Store(entries[1..], key, value), other) ==> HasKey(entries[1..], other) || SameKey(key, other)
    requires !SameKey(entries[0].key, key)
    ensures HasKey(entries, other) || SameKey(key, other)
  {
    var rest := Store(entries[1..], key, value);
    var i :| 0 <= i < |Store(entries, key, value)| && SameKey(Store(entries, key, value)[i].key, other);
    if i == 0 {
      assert SameKey(entries[0].key, other);
    } else {
      assert SameKey(rest[i - 1].key, other);
      if HasKey(entries[1..], other) {
        var j :| 0 <= j < |entries[1..]| && SameKey(entries[1..][j].key, other);
        assert SameKey(entries[j + 1].key, other);
      }
    }
  }

  /** The shortest head is no longer than the head that was read. */
  lemma HeadIsShortest(data: seq<Byte>, pos: nat, major: nat)
    requires pos < |data| && data[pos] / 32 == major < 7
    requires Argument(data, pos + 1, data[pos] % 32).Ok?
    ensures var r := Argument(data, pos + 1, data[pos] % 32).value;
      pos + |Head(major, r.0)| <= r.1
  {
    var short := data[pos] % 32;
    if 24 <= short <= 27 {
      var width := Width(short);
      BigEndianBounded(data[pos + 1..pos + 1 + width]);
      Power256Values();
    }
  }

  /** A decoded value is encodable at its depth, and its shortest encoding is
      no longer than what was read. */
  lemma {:induction false} DecodedHasNormalForm(utf8: Utf8Check, data: seq<Byte>, pos: nat, depth: nat)
    requires pos <= |data| && depth <= MAX_DEPTH + 1 && DecodeItem(utf8, data, pos, depth).Ok?
    ensures var r := DecodeItem(utf8, data, pos, depth).value;
      Encodable(utf8, r.0, depth) && pos + |Encode(r.0)| <= r.1
    decreases MAX_DEPTH + 1 - depth, 0, 0
  {
    var major := data[pos] / 32;
    if major != 7 {
      var (n, at) := Argument(data, pos + 1, data[pos] % 32).value;
      HeadIsShortest(data, pos, major);
      if major == 4 {
        ListHasNormalForm(utf8, data, at, depth + 1, n);
      } else if major == 5 {
        DictHasNormalForm(utf8, data, at, depth + 1, n);
      } else {
        AtomHasNormalForm(utf8, data, pos, depth);
      }
    }
  }

  lemma {:induction false} AtomHasNormalForm(utf8: Utf8Check, data: seq<Byte>, pos: nat, depth: nat)
    requires pos < |data| && depth <= MAX_DEPTH && data[pos] / 32 !in {4, 5, 7}
    requires DecodeItem(utf8, data, pos, depth).Ok?
    requires Argument(data, pos + 1, data[pos] % 32).Ok?
    requires var r := Argument(data, pos + 1, data[pos] % 32).value;
      data[pos] / 32 < 7 && pos + |Head(data[pos] / 32, r.0)| <= r.1
    ensures var r := DecodeItem(utf8, data, pos, depth).value;
      Encodable(utf8, r.0, depth) && pos + |Encode(r.0)| <= r.1
  {
  }

  lemma {:induction false} ListHasNormalForm(utf8: Utf8Check, data: seq<Byte>, at: nat, depth: nat, n: nat)
    requires at <= |data| && depth <= MAX_DEPTH + 1
    requires DecodeItems(utf8, data, at, depth, n, []).Ok?
    ensures var r := DecodeItems(utf8, data, at, depth, n, []).value;
      |r.0| == n && ItemsEncodable(utf8, r.0, depth) && at + |EncodeItems(r.0)| <= r.1
    decreases MAX_DEPTH + 1 - depth, 2, n
  {
    ItemsHaveNormalForm(utf8, data, at, depth, n, []);
  }

  lemma {:induction false} DictHasNormalForm(utf8: Utf8Check, data: seq<Byte>, at: nat, depth: nat, n: nat)
    requires at <= |data| && depth <= MAX_DEPTH + 1 && n <= MAX_LENGTH
    requires DecodeEntries(utf8, data, at, depth, n, []).Ok?
    ensures var r := DecodeEntries(utf8, data, at, depth, n, []).value;
      && |r.0| <= n && FreshKeys([], r.0) && EntriesEncodable(utf8, r.0, depth)
      && at + |EncodeEntries(r.0)| <= r.1 && |Head(5, |r.0|)| <= |Head(5, n)|
    decreases MAX_DEPTH + 1 - depth, 2, n
  {
    EntriesHaveNormalForm(utf8, data, at, depth, n, []);
    var entries := DecodeEntries(utf8, data, at, depth, n, []).value.0;
    FreshMeansDistinct([], entries);
    assert [] + entries == entries;
    HeadMonotone(5, |entries|, n);
  }

  lemma HeadMonotone(major: nat, m: nat, n: nat)
    requires major < 7 && m <= n < TWO_64
    ensures |Head(major, m)| <= |Head(major, n)|
  {
  }

  lemma {:induction false} ItemsHaveNormalForm(utf8: Utf8Check, data: seq<Byte>, pos: nat, depth: nat, count: nat,
                                               done: seq<Value>)
    requires pos <= |data| && depth <= MAX_DEPTH + 1 && ItemsEncodable(utf8, done, depth)
    requires DecodeItems(utf8, data, pos, depth, count, done).Ok?
    ensures var r := DecodeItems(utf8, data, pos, depth, count, done).value;
      ItemsEncodable(utf8, r.0, depth) && pos + |EncodeItems(r.0)| <= r.1 + |EncodeItems(done)|
    decreases MAX_DEPTH + 1 - depth, 1, count
  {
    if count > 0 {
      var (v, next) := DecodeItem(utf8, data, pos, depth).value;
      DecodedHasNormalForm(utf8, data, pos, depth);
      ItemsEncodableSnoc(utf8, done, v, depth);
      ItemsHaveNormalForm(utf8, data, next, depth, count - 1, done + [v]);
    }
  }

  lemma {:induction false} EntriesHaveNormalForm(utf8: Utf8Check, data: seq<Byte>, pos: nat, depth: nat, count: nat,
                                                 done: seq<Entry>)
    requires pos <= |data| && depth <= MAX_DEPTH + 1
    requires EntriesEncodable(utf8, done, depth) && DistinctKeys(done)
    requires DecodeEntries(utf8, data, pos, depth, count, done).Ok?
    ensures var r := DecodeEntries(utf8, data, pos, depth, count, done).value;
      && EntriesEncodable(utf8, r.0, depth) && DistinctKeys(r.0)
      && pos + |EncodeEntries(r.0)| <= r.1 + |EncodeEntries(done)|
    decreases MAX_DEPTH + 1 - depth, 1, count
  {
    if count > 0 {
      var (e, next) := DecodeEntry(utf8, data, pos, depth).value;
      EntryHasNormalForm(utf8, data, pos, depth);
      StoreKeeps(utf8, done, e, depth);
      StoreKeepsDistinct(done, e.key, e.value);
      EntriesHaveNormalForm(utf8, data, next, depth, count - 1, Store(done, e.key, e.value));
    }
  }

  lemma {:induction false} EntryHasNormalForm(utf8: Utf8Check, data: seq<Byte>, pos: nat, depth: nat)
    requires pos <= |data| && depth <= MAX_DEPTH + 1 && DecodeEntry(utf8, data, pos, depth).Ok?
    ensures var r := DecodeEntry(utf8, data, pos, depth).value;
      EntryEncodable(utf8, r.0, depth) && pos + |EncodeEntry(r.0)| <= r.1
    decreases MAX_DEPTH + 1 - depth, 0, 1
  {
    DecodedHasNormalForm(utf8, data, pos, depth);
    DecodedHasNormalForm(utf8, data, DecodeItem(utf8, data, pos, depth).value.1, depth);
  }

  /** Every slot that decodes has a normal form: its value, encoded with the
      shortest heads and padded with anything, fits a slot and decodes to the
      same value again. */
  lemma SlotsNormalise(utf8: Utf8Check, data: seq<Byte>, padding: seq<Byte>)
    requires DecodeSlot(utf8, data).Ok?
    ensures |Encode(DecodeSlot(utf8, data).value)| <= SLOT_SIZE
    ensures |padding| == SLOT_SIZE - |Encode(DecodeSlot(utf8, data).value)| ==>
      DecodeSlot(utf8, Encode(DecodeSlot(utf8, data).value) + padding) == DecodeSlot(utf8, data)
  {
    DecodedHasNormalForm(utf8, data, 0, 0);
    if |padding| == SLOT_SIZE - |Encode(DecodeSlot(utf8, data).value)| {
      SlotRoundTrip(utf8, DecodeSlot(utf8, data).value, padding);
    }
  }

  // ---------------------------------------------------------------------
  // The decoder with its shared cursor

  class Decoder {
    const utf8: Utf8Check
    const data: seq<Byte>
    var position: nat

    constructor (utf8: Utf8Check, data: seq<Byte>)
      ensures this.utf8 == utf8 && this.data == data && position == 0
    {
      this.utf8, this.data, position := utf8, data, 0;
    }

    ghost predicate Valid()
      reads this
    {
      position <= |data|
    }

    /** The cursor and result agree with a functional decoding. */
    ghost predicate Follows<T>(spec: Decoded<T>, r: Result<T, Error>)
      reads this
    {
      if spec.Ok? then r == Ok(spec.value.0) && position == spec.value.1 else r == Err(spec.error)
    }

    /** Read the argument of a head. */
    method ReadArgument(short: nat) returns (r: Result<nat, Error>)
      requires Valid() && short < 32
      modifies this
      ensures Valid() && Follows(Argument(data, old(position), short), r)
    {
      if short < 24 {
        return Ok(short);
      }
      if short <= 27 {
        var width := Width(short);
        if position + width > |data| {
          return Err(Truncated);
        }
        var value: nat := 0;
        ghost var bytes := data[position..position + width];
        for i := 0 to width
          invariant value == BigEndian(bytes[..i])
        {
          assert bytes[..i + 1][..i] == bytes[..i];
          value := value * 256 + data[position + i] as int;
        }
        assert bytes[..width] == bytes;
        position := position + width;
        return Ok(value);
      }
      r := Err(Unsupported);
    }

    /** Decode one item at the cursor. */
    method Item(depth: nat) returns (r: Result<Value, Error>)
      requires Valid() && depth <= MAX_DEPTH + 1
      modifies this
      ensures Valid() && Follows(DecodeItem(utf8, data, old(position), depth), r)
      decreases MAX_DEPTH + 1 - depth, 0
    {
      if depth > MAX_DEPTH || position >= |data| {
        return Err(Invalid);
      }
      var head := data[position];
      position := position + 1;
      var major, short := head / 32, head % 32;
      if major == 7 {
        r := match short
          case 20 => Ok(Bool(false))
          case 21 => Ok(Bool(true))
          case 22 => Ok(Null)
          case _ => Err(Unsupported);
        return;
      }
      var argument := ReadArgument(short);
      if argument.Err? {
        return Err(argument.error);
      }
      r := Body(major, argument.value, depth, old(position));
    }

    /** What follows a head. */
    method Body(major: nat, value: nat, depth: nat, ghost start: nat) returns (r: Result<Value, Error>)
      requires Valid() && depth <= MAX_DEPTH && start < |data| && major == data[start] / 32 != 7
      requires Argument(data, start + 1, data[start] % 32) == Ok((value, position))
      modifies this
      ensures Valid() && Follows(DecodeItem(utf8, data, start, depth), r)
      decreases MAX_DEPTH - depth, 2
    {
      if major == 0 {
        return Ok(Int(value));
      }
      if major == 1 {
        return Ok(Int(-1 - value));
      }
      if value > MAX_LENGTH {
        return Err(Oversized);
      }
      if major == 2 || major == 3 {
        var end := position + value;
        if end > |data| {
          return Err(Truncated);
        }
        var bytes := data[position..end];
        position := end;
        if major == 2 {
          return Ok(Blob(bytes));
        }
        return if utf8(bytes) then Ok(Text(bytes)) else Err(BadText);
      }
      if major == 4 {
        var items := Items(depth + 1, value);
        return if items.Ok? then Ok(List(items.value)) else Err(items.error);
      }
      if major == 5 {
        var entries := Entries(depth + 1, value);
        return if entries.Ok? then Ok(Dict(entries.value)) else Err(entries.error);
      }
      r := Err(Unsupported);
    }

    /** A list: one item after the other. */
    method Items(depth: nat, count: nat) returns (r: Result<seq<Value>, Error>)
      requires Valid() && depth <= MAX_DEPTH + 1
      modifies this
      ensures Valid() && Follows(DecodeItems(utf8, data, old(position), depth, count, []), r)
      decreases MAX_DEPTH + 1 - depth, 1
    {
      var items: seq<Value> := [];
      for i := 0 to count
        invariant Valid()
        invariant DecodeItems(utf8, data, position, depth, count - i, items)
          == DecodeItems(utf8, data, old(position), depth, count, [])
      {
        var item := Item(depth);
        if item.Err? {
          return Err(item.error);
        }
        items := items + [item.value];
      }
      r := Ok(items);
    }

    /** A dictionary: keys and values in turn, later ones replacing earlier. */
    method Entries(depth: nat, count: nat) returns (r: Result<seq<Entry>, Error>)
      requires Valid() && depth <= MAX_DEPTH + 1
      modifies this
      ensures Valid() && Follows(DecodeEntries(utf8, data, old(position), depth, count, []), r)
      decreases MAX_DEPTH + 1 - depth, 1
    {
      var result: seq<Entry> := [];
      for i := 0 to count
        invariant Valid()
        invariant DecodeEntries(utf8, data, position, depth, count - i, result)
          == DecodeEntries(utf8, data, old(position), depth, count, [])
      {
        var key := Item(depth);
        if key.Err? {
          return Err(key.error);
        }
        var value := Item(depth);
        if value.Err? {
          return Err(value.error);
        }
        if !Hashable(key.value) {
          return Err(BadKey);
        }
        result := Store(result, key.value, value.value);
      }
      r := Ok(result);
    }
  }

  /** Decode a state slot. */
  method DecodeState(utf8: Utf8Check, data: seq<Byte>) returns (r: Result<Value, Error>)
    ensures r == DecodeSlot(utf8, data)
  {
    if |data| != SLOT_SIZE {
      return Err(WrongSize);
    }
    var decoder := new Decoder(utf8, data);
    r := decoder.Item(0);
    if r.Ok? && !r.value.Dict? {
      r := Err(NotAMap);
    }
  }
}
