/** What the state-slot decoder accepts, said as a grammar: the forms an item
    may be written in, and what each form means. Longer heads than needed are
    allowed, and a repeated key takes its later value. */
module CborGrammars {
  import opened Basics
  import opened CborSlots

  /** How the argument of a head is written: in the first byte, or in one, two,
      four or eight bytes after it. */
  datatype Form = Short | One | Two | Four | Eight

  /** An item as it is written. */
  datatype Node =
    | False | True | Nil
    | Number(negative: bool, form: Form, n: nat)
    | Content(text: bool, form: Form, bytes: seq<Byte>)
    | Array(form: Form, items: seq<Node>)
    | Mapping(form: Form, pairs: seq<Pair>)

  datatype Pair = Pair(key: Node, value: Node)

  predicate FormFits(form: Form, n: nat) {
    match form
    case Short => n < 24
    case One => n < 0x100
    case Two => n < 0x1_0000
    case Four => n < 0x1_0000_0000
    case Eight => n < 0x1_0000_0000_0000_0000
  }

  /** The big-endian bytes of an argument. */
  function Tail(form: Form, n: nat): seq<Byte>
    requires FormFits(form, n)
  {
    match form
    case Short => []
    case One => [n]
    case Two => [n / 0x100, n % 0x100]
    case Four => [n / 0x100_0000, n / 0x1_0000 % 0x100, n / 0x100 % 0x100, n % 0x100]
    case Eight => [n / 0x100_0000_0000_0000, n / 0x1_0000_0000_0000 % 0x100, n / 0x100_0000_0000 % 0x100,
                   n / 0x1_0000_0000 % 0x100, n / 0x100_0000 % 0x100, n / 0x1_0000 % 0x100, n / 0x100 % 0x100,
                   n % 0x100]
  }

  /** The first byte: the major type above the argument or the form's number. */
  function Lead(major: nat, form: Form, n: nat): (b: Byte)
    requires major < 7 && FormFits(form, n)
  {
    match form
    case Short => major * 32 + n
    case One => major * 32 + 24
    case Two => major * 32 + 25
    case Four => major * 32 + 26
    case Eight => major * 32 + 27
  }

  function Opening(major: nat, form: Form, n: nat): (bytes: seq<Byte>)
    requires major < 7 && FormFits(form, n)
    ensures bytes != []
  {
    [Lead(major, form, n)] + Tail(form, n)
  }

  /** The item may stand at this depth. */
  predicate Fine(utf8: Utf8Check, node: Node, depth: nat)
    decreases node, 1
  {
    depth <= 32 &&
    match node
    case Number(_, form, n) => FormFits(form, n)
    case Content(text, form, bytes) => |bytes| <= 16384 && FormFits(form, |bytes|) && (text ==> utf8(bytes))
    case Array(form, items) => |items| <= 16384 && FormFits(form, |items|) && AllFine(utf8, items, depth + 1)
    case Mapping(form, pairs) => |pairs| <= 16384 && FormFits(form, |pairs|) && PairsFine(utf8, pairs, depth + 1)
    case _ => true
  }

  predicate AllFine(utf8: Utf8Check, items: seq<Node>, depth: nat)
    decreases items, 0
  {
    items == [] || (Fine(utf8, items[0], depth) && AllFine(utf8, items[1..], depth))
  }

  /** Lists and dictionaries are no keys. */
  predicate PairsFine(utf8: Utf8Check, pairs: seq<Pair>, depth: nat)
    decreases pairs, 0
  {
    pairs == [] || (PairFine(utf8, pairs[0], depth) && PairsFine(utf8, pairs[1..], depth))
  }

  predicate PairFine(utf8: Utf8Check, pair: Pair, depth: nat)
    decreases pair, 0
  {
    && !pair.key.Array? && !pair.key.Mapping?
    && Fine(utf8, pair.key, depth) && Fine(utf8, pair.value, depth)
  }

  /** The bytes of an item. */
  function Written(node: Node): (bytes: seq<Byte>)
    decreases node, 1
  {
    match node
    case False => [0xF4]
    case True => [0xF5]
    case Nil => [0xF6]
    case Number(negative, form, n) =>
      if FormFits(form, n) then Opening(if negative then 1 else 0, form, n) else []
    case Content(text, form, bytes) =>
      if FormFits(form, |bytes|) then Opening(if text then 3 else 2, form, |bytes|) + bytes else []
    case Array(form, items) =>
      if FormFits(form, |items|) then Opening(4, form, |items|) + AllWritten(items) else []
    case Mapping(form, pairs) =>
      if FormFits(form, |pairs|) then Opening(5, form, |pairs|) + PairsWritten(pairs) else []
  }

  function AllWritten(items: seq<Node>): seq<Byte>
    decreases items, 0
  {
    if items == [] then [] else Written(items[0]) + AllWritten(items[1..])
  }

  function PairsWritten(pairs: seq<Pair>): seq<Byte>
    decreases pairs, 0
  {
    if pairs == [] then [] else PairWritten(pairs[0]) + PairsWritten(pairs[1..])
  }

  function PairWritten(pair: Pair): seq<Byte>
    decreases pair, 0
  {
    Written(pair.key) + Written(pair.value)
  }

  /** What an item means. */
  function Meaning(node: Node): Value
    decreases node, 1
  {
    match node
    case False => Bool(false)
    case True => Bool(true)
    case Nil => Null
    case Number(negative, _, n) => Int(if negative then -1 - n else n)
    case Content(text, _, bytes) => if text then Text(bytes) else Blob(bytes)
    case Array(_, items) => List(AllMean(items))
    case Mapping(_, pairs) => Dict(PairsMean([], pairs))
  }

  function AllMean(items: seq<Node>): (values: seq<Value>)
    ensures |values| == |items|
    decreases items, 0
  {
    if items == [] then [] else [Meaning(items[0])] + AllMean(items[1..])
  }

  /** The entries after some pairs, starting from those already there. */
  function PairsMean(done: seq<Entry>, pairs: seq<Pair>): seq<Entry>
    decreases pairs, 0
  {
    if pairs == [] then done else PairsMean(StoredPair(done, pairs[0]), pairs[1..])
  }

  function StoredPair(done: seq<Entry>, pair: Pair): seq<Entry>
    decreases pair, 0
  {
    Store(done, Meaning(pair.key), Meaning(pair.value))
  }

  // ---------------------------------------------------------------------
  // Dictionaries

  /** The value under a key, the booleans being the numbers 0 and 1. */
  function Lookup(entries: seq<Entry>, key: Value): Option<Value> {
    if entries == [] then None
    else if SameKey(entries[0].key, key) then Some(entries[0].value)
    else Lookup(entries[1..], key)
  }

  /** The later value counts, and no other key is touched. */
  lemma {:induction false} LaterValueCounts(entries: seq<Entry>, key: Value, value: Value, other: Value)
    ensures Lookup(Store(entries, key, value), other)
      == if SameKey(key, other) then Some(value) else Lookup(entries, other)
  {
    var after := Store(entries, key, value);
    if entries == [] {
      assert after == [Entry(key, value)] && after[1..] == [];
    } else if SameKey(entries[0].key, key) {
      assert after[0] == Entry(entries[0].key, value) && after[1..] == entries[1..];
    } else {
      assert after[0] == entries[0] && after[1..] == Store(entries[1..], key, value);
      LaterValueCounts(entries[1..], key, value, other);
    }
  }

  /** A key that is there keeps its place and its spelling; a new one comes
      last. */
  lemma {:induction false} StoreKeepsOrder(entries: seq<Entry>, key: Value, value: Value)
    ensures var after := Store(entries, key, value);
      && |after| == (if HasKey(entries, key) then |entries| else |entries| + 1)
      && (forall i :: 0 <= i < |entries| ==> after[i].key == entries[i].key)
      && (!HasKey(entries, key) ==> after[|entries|].key == key)
  {
    if entries != [] && !SameKey(entries[0].key, key) {
      StoreKeepsOrder(entries[1..], key, value);
      if i :| 0 <= i < |entries| && SameKey(entries[i].key, key) {
        assert SameKey(entries[1..][i - 1].key, key);
      }
      if i :| 0 <= i < |entries[1..]| && SameKey(entries[1..][i].key, key) {
        assert SameKey(entries[i + 1].key, key);
      }
    } else if entries != [] {
      assert SameKey(entries[0].key, key);
    }
  }

  /** Only the booleans are also numbers. */
  lemma KeysCompare(a: Value, b: Value)
    ensures SameKey(a, b) <==>
      || a == b
      || (a == Bool(false) && b == Int(0)) || (a == Int(0) && b == Bool(false))
      || (a == Bool(true) && b == Int(1)) || (a == Int(1) && b == Bool(true))
  {
  }

  // ---------------------------------------------------------------------
  // Heads

  lemma {:induction false} TailReads(form: Form, n: nat)
    requires FormFits(form, n) && form != Short
    ensures |Tail(form, n)| == (match form case One => 1 case Two => 2 case Four => 4 case _ => 8)
    ensures BigEndian(Tail(form, n)) == n
  {
    match form
    case One => BigEndianNext([], n);
    case Two => TailTwo(n);
    case Four => TailFour(n);
    case _ => TailEight(n);
  }

  lemma {:induction false} BigEndianNext(bytes: seq<Byte>, b: Byte)
    ensures BigEndian(bytes + [b]) == BigEndian(bytes) * 256 + b
  {
    assert (bytes + [b])[..|bytes|] == bytes;
  }

  lemma {:induction false} TailTwo(n: nat)
    requires n < 0x1_0000
    ensures BigEndian(Tail(Two, n)) == n
  {
    BigEndianNext([], n / 0x100);
    BigEndianNext([n / 0x100], n % 0x100);
    assert Tail(Two, n) == [n / 0x100] + [n % 0x100] && [] + [n / 0x100] == [n / 0x100];
  }

  lemma {:induction false} TailFour(n: nat)
    requires n < 0x1_0000_0000
    ensures BigEndian(Tail(Four, n)) == n
  {
    var high := Tail(Two, n / 0x1_0000);
    TailTwo(n / 0x1_0000);
    var a, b := n / 0x100 % 0x100, n % 0x100;
    BigEndianNext(high, a);
    BigEndianNext(high + [a], b);
    assert n / 0x1_0000 / 0x100 == n / 0x100_0000;
    assert Tail(Four, n) == high + [a] + [b];
    LowDigits(n);
  }

  lemma LowDigits(n: nat)
    ensures n == (n / 0x1_0000 * 256 + n / 0x100 % 256) * 256 + n % 256
  {
    assert n / 0x100 / 256 == n / 0x1_0000;
  }

  lemma {:induction false} TailEight(n: nat)
    requires n < 0x1_0000_0000_0000_0000
    ensures BigEndian(Tail(Eight, n)) == n
  {
    var top := n / 0x1_0000_0000;
    var high := Tail(Four, top);
    TailFour(top);
    var a, b, c, d := n / 0x100_0000 % 0x100, n / 0x1_0000 % 0x100, n / 0x100 % 0x100, n % 0x100;
    BigEndianNext(high, a);
    BigEndianNext(high + [a], b);
    BigEndianNext(high + [a] + [b], c);
    BigEndianNext(high + [a] + [b] + [c], d);
    assert top / 0x100_0000 == n / 0x100_0000_0000_0000 && top / 0x1_0000 == n / 0x1_0000_0000_0000;
    assert top / 0x100 == n / 0x100_0000_0000;
    assert Tail(Eight, n) == high + [a] + [b] + [c] + [d];
    Digits256(n);
  }

  lemma Digits256(n: nat)
    ensures n == (((n / 0x1_0000_0000 * 256 + n / 0x100_0000 % 256) * 256 + n / 0x1_0000 % 256) * 256
                  + n / 0x100 % 256) * 256 + n % 256
  {
    assert n / 0x100_0000 == n / 0x1_0000_0000 * 256 + n / 0x100_0000 % 256 by {
      assert n / 0x100_0000 / 256 == n / 0x1_0000_0000;
    }
    assert n / 0x1_0000 == n / 0x100_0000 * 256 + n / 0x1_0000 % 256 by { assert n / 0x1_0000 / 256 == n / 0x100_0000; }
    assert n / 0x100 == n / 0x1_0000 * 256 + n / 0x100 % 256 by { assert n / 0x100 / 256 == n / 0x1_0000; }
  }

  /** A head in any form gives its type and argument back. */
  lemma {:induction false} OpeningReads(data: seq<Byte>, pos: nat, major: nat, form: Form, n: nat, open: seq<Byte>)
    requires major < 7 && FormFits(form, n) && open == Opening(major, form, n) && Stands(data, pos, open)
    ensures pos < |data| && data[pos] / 32 == major
    ensures Argument(data, pos + 1, data[pos] % 32) == Ok((n, pos + |open|))
  {
    assert data[pos] == data[pos..pos + |open|][0] == Lead(major, form, n);
    if form != Short {
      TailReads(form, n);
      StandsSplit(data, pos, [Lead(major, form, n)], Tail(form, n));
      LongArgument(data, pos + 1, data[pos] % 32, Tail(form, n));
    }
  }

  /** A head with what it announces. */
  lemma {:induction false} OpensBody(data: seq<Byte>, pos: nat, major: nat, form: Form, n: nat, open: seq<Byte>,
                                     body: seq<Byte>)
    requires major < 7 && FormFits(form, n) && open == Opening(major, form, n) && Stands(data, pos, open + body)
    ensures pos < |data| && data[pos] / 32 == major && Stands(data, pos + |open|, body)
    ensures Argument(data, pos + 1, data[pos] % 32) == Ok((n, pos + |open|))
  {
    StandsSplit(data, pos, open, body);
    OpeningReads(data, pos, major, form, n, open);
  }

  // ---------------------------------------------------------------------
  // What is written in a fine form is read as it is meant

  /** What is read at a position, if anything is. */
  function ReadAt(utf8: Utf8Check, data: seq<Byte>, pos: nat, depth: nat): Option<(Value, nat)> {
    if pos <= |data| && depth <= 33 && DecodeItem(utf8, data, pos, depth).Ok? then
      Some(DecodeItem(utf8, data, pos, depth).value)
    else None
  }

  ghost predicate Gives(utf8: Utf8Check, data: seq<Byte>, pos: nat, depth: nat, v: Value, end: nat) {
    ReadAt(utf8, data, pos, depth) == Some((v, end))
  }

  lemma {:induction false} GivesIsReads(utf8: Utf8Check, data: seq<Byte>, pos: nat, depth: nat, v: Value, end: nat)
    ensures Gives(utf8, data, pos, depth, v, end) <==> ReadsItem(utf8, data, pos, depth, v, end)
  {
  }

  ghost predicate ReadsPairs(utf8: Utf8Check, data: seq<Byte>, pos: nat, depth: nat, done: seq<Entry>,
                             count: nat, entries: seq<Entry>, end: nat) {
    && pos <= |data| && depth <= MAX_DEPTH + 1
    && DecodeEntries(utf8, data, pos, depth, count, done) == Ok((entries, end))
  }

  /** Reading at a fine item gives its meaning and the position after it. */
  lemma {:induction false} WrittenIsRead(utf8: Utf8Check, data: seq<Byte>, pos: nat, depth: nat, node: Node,
                                         bytes: seq<Byte>, v: Value)
    requires Fine(utf8, node, depth) && bytes == Written(node) && v == Meaning(node) && Stands(data, pos, bytes)
    ensures Gives(utf8, data, pos, depth, v, pos + |bytes|)
    decreases node, 6
  {
    if node.Array? {
      ArrayIsRead(utf8, data, pos, depth, node.items, node.form, Opening(4, node.form, |node.items|),
                  AllWritten(node.items), AllMean(node.items));
    } else if node.Mapping? {
      MappingIsRead(utf8, data, pos, depth, node.pairs, node.form, Opening(5, node.form, |node.pairs|),
                    PairsWritten(node.pairs), PairsMean([], node.pairs));
    } else {
      LeafIsRead(utf8, data, pos, depth, node, bytes, v);
    }
  }

  lemma {:induction false} LeafIsRead(utf8: Utf8Check, data: seq<Byte>, pos: nat, depth: nat, node: Node,
                                      bytes: seq<Byte>, v: Value)
    requires Fine(utf8, node, depth) && bytes == Written(node) && v == Meaning(node) && Stands(data, pos, bytes)
    requires !node.Array? && !node.Mapping?
    ensures Gives(utf8, data, pos, depth, v, pos + |bytes|)
  {
    if node.Number? {
      NumberIsRead(utf8, data, pos, depth, node.negative, node.form, node.n, bytes);
    } else if node.Content? {
      ContentIsRead(utf8, data, pos, depth, node.text, node.form, node.bytes,
                    Opening(if node.text then 3 else 2, node.form, |node.bytes|));
    } else {
      SimpleIsRead(utf8, data, pos, depth, node, bytes[0]);
    }
  }

  lemma {:induction false} SimpleIsRead(utf8: Utf8Check, data: seq<Byte>, pos: nat, depth: nat, node: Node, b: Byte)
    requires depth <= 32 && (node.False? || node.True? || node.Nil?) && Stands(data, pos, [b])
    requires b == if node.False? then 0xF4 else if node.True? then 0xF5 else 0xF6
    ensures Gives(utf8, data, pos, depth,
                      if node.False? then Bool(false) else if node.True? then Bool(true) else Null, pos + 1)
  {
    assert data[pos] == data[pos..pos + 1][0];
  }

  lemma {:induction false} NumberIsRead(utf8: Utf8Check, data: seq<Byte>, pos: nat, depth: nat, negative: bool,
                                        form: Form, n: nat, open: seq<Byte>)
    requires depth <= 32 && FormFits(form, n) && open == Opening(if negative then 1 else 0, form, n)
    requires Stands(data, pos, open)
    ensures Gives(utf8, data, pos, depth, Int(if negative then -1 - n else n), pos + |open|)
  {
    OpeningReads(data, pos, if negative then 1 else 0, form, n, open);
  }

  lemma {:induction false} ContentIsRead(utf8: Utf8Check, data: seq<Byte>, pos: nat, depth: nat, text: bool,
                                         form: Form, content: seq<Byte>, open: seq<Byte>)
    requires depth <= 32 && |content| <= 16384 && FormFits(form, |content|) && (text ==> utf8(content))
    requires open == Opening(if text then 3 else 2, form, |content|) && Stands(data, pos, open + content)
    ensures Gives(utf8, data, pos, depth, if text then Text(content) else Blob(content), pos + |open + content|)
  {
    OpensBody(data, pos, if text then 3 else 2, form, |content|, open, content);
    ContentUnfolds(utf8, data, pos, depth, text, pos + |open|, content);
  }

  lemma {:induction false} ContentUnfolds(utf8: Utf8Check, data: seq<Byte>, pos: nat, depth: nat, text: bool,
                                          at: nat, content: seq<Byte>)
    requires depth <= 32 && |content| <= 16384 && (text ==> utf8(content)) && Stands(data, at, content)
    requires pos < |data| && data[pos] / 32 == if text then 3 else 2
    requires Argument(data, pos + 1, data[pos] % 32) == Ok((|content|, at))
    ensures Gives(utf8, data, pos, depth, if text then Text(content) else Blob(content), at + |content|)
  {
  }

  lemma {:induction false} ArrayIsRead(utf8: Utf8Check, data: seq<Byte>, pos: nat, depth: nat, items: seq<Node>,
                                       form: Form, open: seq<Byte>, text: seq<Byte>, values: seq<Value>)
    requires depth <= 32 && |items| <= 16384 && FormFits(form, |items|) && AllFine(utf8, items, depth + 1)
    requires open == Opening(4, form, |items|) && text == AllWritten(items) && Stands(data, pos, open + text)
    requires values == AllMean(items)
    ensures Gives(utf8, data, pos, depth, List(values), pos + |open + text|)
    decreases items, 3
  {
    OpensBody(data, pos, 4, form, |items|, open, text);
    ArrayBodyIsRead(utf8, data, pos, depth, items, pos + |open|, text, values);
  }

  lemma {:induction false} ArrayBodyIsRead(utf8: Utf8Check, data: seq<Byte>, pos: nat, depth: nat, items: seq<Node>,
                                           at: nat, text: seq<Byte>, values: seq<Value>)
    requires depth <= 32 && |items| <= 16384 && AllFine(utf8, items, depth + 1) && pos < |data|
    requires data[pos] / 32 == 4 && Argument(data, pos + 1, data[pos] % 32) == Ok((|items|, at))
    requires text == AllWritten(items) && values == AllMean(items) && Stands(data, at, text)
    ensures Gives(utf8, data, pos, depth, List(values), at + |text|)
    decreases items, 2
  {
    AllIsRead(utf8, data, at, depth + 1, items, [], text, values);
    ItemsUnfolded(utf8, data, pos, depth, at, values, at + |text|);
  }

  function ItemsAt(utf8: Utf8Check, data: seq<Byte>, pos: nat, depth: nat, count: nat, done: seq<Value>)
    : Option<(seq<Value>, nat)>
  {
    if pos <= |data| && depth <= 33 && DecodeItems(utf8, data, pos, depth, count, done).Ok? then
      Some(DecodeItems(utf8, data, pos, depth, count, done).value)
    else None
  }

  lemma {:induction false} OneMoreItem(utf8: Utf8Check, data: seq<Byte>, pos: nat, depth: nat, done: seq<Value>,
                                       values: seq<Value>, next: nat, end: nat)
    requires values != [] && Gives(utf8, data, pos, depth, values[0], next)
    requires ItemsAt(utf8, data, next, depth, |values| - 1, done + [values[0]])
      == Some((done + [values[0]] + values[1..], end))
    ensures ItemsAt(utf8, data, pos, depth, |values|, done) == Some((done + values, end))
  {
    Shift(done, values);
  }

  lemma {:induction false} ItemsUnfolded(utf8: Utf8Check, data: seq<Byte>, pos: nat, depth: nat, at: nat,
                                         values: seq<Value>, end: nat)
    requires pos < |data| && depth <= MAX_DEPTH && |values| <= MAX_LENGTH
    requires data[pos] / 32 == 4 && Argument(data, pos + 1, data[pos] % 32) == Ok((|values|, at))
    requires ItemsAt(utf8, data, at, depth + 1, |values|, []) == Some(([] + values, end))
    ensures Gives(utf8, data, pos, depth, List(values), end)
  {
    assert [] + values == values;
  }

  lemma {:induction false} AllIsRead(utf8: Utf8Check, data: seq<Byte>, pos: nat, depth: nat, items: seq<Node>,
                                     done: seq<Value>, text: seq<Byte>, values: seq<Value>)
    requires depth <= 33 && text == AllWritten(items) && values == AllMean(items) && Stands(data, pos, text)
    requires AllFine(utf8, items, depth)
    ensures ItemsAt(utf8, data, pos, depth, |values|, done) == Some((done + values, pos + |text|))
    decreases items, 1
  {
    if items == [] {
      assert done + [] == done;
    } else {
      var next, rest, v, others := FirstIsRead(utf8, data, pos, depth, items, text, values);
      AllIsRead(utf8, data, next, depth, items[1..], done + [v], rest, others);
      OneMoreItem(utf8, data, pos, depth, done, values, next, pos + |text|);
    }
  }

  lemma {:induction false} FirstIsRead(utf8: Utf8Check, data: seq<Byte>, pos: nat, depth: nat, items: seq<Node>,
                                       text: seq<Byte>, values: seq<Value>)
    returns (next: nat, rest: seq<Byte>, v: Value, others: seq<Value>)
    requires depth <= 33 && items != [] && text == AllWritten(items) && values == AllMean(items)
    requires Stands(data, pos, text) && AllFine(utf8, items, depth)
    ensures values != [] && v == values[0] && others == values[1..] == AllMean(items[1..])
    ensures Gives(utf8, data, pos, depth, v, next) && AllFine(utf8, items[1..], depth)
    ensures rest == AllWritten(items[1..]) && Stands(data, next, rest) && next + |rest| == pos + |text|
    decreases items, 0
  {
    var first := Written(items[0]);
    v, others := Meaning(items[0]), AllMean(items[1..]);
    rest := AllWritten(items[1..]);
    next := pos + |first|;
    StandsSplit(data, pos, first, rest);
    WrittenIsRead(utf8, data, pos, depth, items[0], first, v);
  }

  lemma {:induction false} MappingIsRead(utf8: Utf8Check, data: seq<Byte>, pos: nat, depth: nat, pairs: seq<Pair>,
                                         form: Form, open: seq<Byte>, text: seq<Byte>, entries: seq<Entry>)
    requires depth <= 32 && |pairs| <= 16384 && FormFits(form, |pairs|) && PairsFine(utf8, pairs, depth + 1)
    requires open == Opening(5, form, |pairs|) && text == PairsWritten(pairs) && Stands(data, pos, open + text)
    requires entries == PairsMean([], pairs)
    ensures Gives(utf8, data, pos, depth, Dict(entries), pos + |open + text|)
    decreases pairs, 5
  {
    OpensBody(data, pos, 5, form, |pairs|, open, text);
    MappingBodyIsRead(utf8, data, pos, depth, pairs, pos + |open|, text, entries);
  }

  lemma {:induction false} MappingBodyIsRead(utf8: Utf8Check, data: seq<Byte>, pos: nat, depth: nat,
                                             pairs: seq<Pair>, at: nat, text: seq<Byte>, entries: seq<Entry>)
    requires depth <= 32 && |pairs| <= 16384 && PairsFine(utf8, pairs, depth + 1) && pos < |data|
    requires data[pos] / 32 == 5 && Argument(data, pos + 1, data[pos] % 32) == Ok((|pairs|, at))
    requires text == PairsWritten(pairs) && entries == PairsMean([], pairs) && Stands(data, at, text)
    ensures Gives(utf8, data, pos, depth, Dict(entries), at + |text|)
    decreases pairs, 4
  {
    PairsAreRead(utf8, data, at, depth + 1, pairs, [], text, entries);
    PairsUnfold(utf8, data, pos, depth, at, |pairs|, entries, at + |text|);
  }

  lemma {:induction false} PairsUnfold(utf8: Utf8Check, data: seq<Byte>, pos: nat, depth: nat, at: nat, count: nat,
                                       entries: seq<Entry>, end: nat)
    requires pos < |data| && depth <= MAX_DEPTH && count <= MAX_LENGTH
    requires data[pos] / 32 == 5 && Argument(data, pos + 1, data[pos] % 32) == Ok((count, at))
    requires EntriesAt(utf8, data, at, depth + 1, count, []) == Some((entries, end))
    ensures Gives(utf8, data, pos, depth, Dict(entries), end)
  {
  }

  function EntryAt(utf8: Utf8Check, data: seq<Byte>, pos: nat, depth: nat): Option<(Entry, nat)> {
    if pos <= |data| && depth <= 33 && DecodeEntry(utf8, data, pos, depth).Ok? then
      Some(DecodeEntry(utf8, data, pos, depth).value)
    else None
  }

  function EntriesAt(utf8: Utf8Check, data: seq<Byte>, pos: nat, depth: nat, count: nat, done: seq<Entry>)
    : Option<(seq<Entry>, nat)>
  {
    if pos <= |data| && depth <= 33 && DecodeEntries(utf8, data, pos, depth, count, done).Ok? then
      Some(DecodeEntries(utf8, data, pos, depth, count, done).value)
    else None
  }

  lemma {:induction false} PairsAreRead(utf8: Utf8Check, data: seq<Byte>, pos: nat, depth: nat, pairs: seq<Pair>,
                                        done: seq<Entry>, text: seq<Byte>, entries: seq<Entry>)
    requires depth <= 33 && text == PairsWritten(pairs) && Stands(data, pos, text) && PairsFine(utf8, pairs, depth)
    requires entries == PairsMean(done, pairs)
    ensures EntriesAt(utf8, data, pos, depth, |pairs|, done) == Some((entries, pos + |text|))
    decreases pairs, 3
  {
    if pairs == [] {
      NoPairs(utf8, data, pos, depth, done);
    } else {
      var e, next, rest := FirstPairIsRead(utf8, data, pos, depth, pairs, text);
      var more := Store(done, e.key, e.value);
      MeanNext(done, pairs, e, entries);
      PairsAreRead(utf8, data, next, depth, pairs[1..], more, rest, entries);
      OneMorePair(utf8, data, pos, depth, done, e, next, |pairs|, entries, pos + |text|);
    }
  }

  lemma {:induction false} NoPairs(utf8: Utf8Check, data: seq<Byte>, pos: nat, depth: nat, done: seq<Entry>)
    requires pos <= |data| && depth <= 33
    ensures EntriesAt(utf8, data, pos, depth, 0, done) == Some((done, pos))
  {
  }

  lemma {:induction false} MeanNext(done: seq<Entry>, pairs: seq<Pair>, e: Entry, entries: seq<Entry>)
    requires pairs != [] && e == Entry(Meaning(pairs[0].key), Meaning(pairs[0].value))
    requires entries == PairsMean(done, pairs)
    ensures entries == PairsMean(Store(done, e.key, e.value), pairs[1..])
  {
  }

  lemma {:induction false} FirstPairIsRead(utf8: Utf8Check, data: seq<Byte>, pos: nat, depth: nat, pairs: seq<Pair>,
                                           text: seq<Byte>) returns (e: Entry, next: nat, rest: seq<Byte>)
    requires depth <= 33 && pairs != [] && text == PairsWritten(pairs) && Stands(data, pos, text)
    requires PairsFine(utf8, pairs, depth)
    ensures e == Entry(Meaning(pairs[0].key), Meaning(pairs[0].value))
    ensures EntryAt(utf8, data, pos, depth) == Some((e, next))
    ensures rest == PairsWritten(pairs[1..]) && Stands(data, next, rest) && next + |rest| == pos + |text|
    ensures PairsFine(utf8, pairs[1..], depth)
    decreases pairs, 2
  {
    var key, value;
    key, value, rest := FirstOfWritten(utf8, data, pos, depth, pairs, text);
    next := pos + |key| + |value|;
    e := PairIsRead(utf8, data, pos, depth, pairs[0], key, value);
  }

  lemma {:induction false} PairIsRead(utf8: Utf8Check, data: seq<Byte>, pos: nat, depth: nat, pair: Pair,
                                      key: seq<Byte>, value: seq<Byte>) returns (e: Entry)
    requires depth <= 33 && PairFine(utf8, pair, depth) && key == Written(pair.key) && value == Written(pair.value)
    requires Stands(data, pos, key) && Stands(data, pos + |key|, value)
    ensures e == Entry(Meaning(pair.key), Meaning(pair.value))
    ensures EntryAt(utf8, data, pos, depth) == Some((e, pos + |key| + |value|))
    decreases pair, 1
  {
    e := Entry(Meaning(pair.key), Meaning(pair.value));
    var mid := pos + |key|;
    PairParts(utf8, pair, depth);
    SideIsRead(utf8, data, pos, depth, pair, true, key, e.key);
    SideIsRead(utf8, data, mid, depth, pair, false, value, e.value);
    BothAreRead(utf8, data, pos, depth, e, mid, mid + |value|);
  }

  lemma {:induction false} BothAreRead(utf8: Utf8Check, data: seq<Byte>, pos: nat, depth: nat, e: Entry, mid: nat,
                                       end: nat)
    requires Hashable(e.key) && Gives(utf8, data, pos, depth, e.key, mid) && Gives(utf8, data, mid, depth, e.value, end)
    ensures EntryAt(utf8, data, pos, depth) == Some((e, end))
  {
    GivesIsReads(utf8, data, pos, depth, e.key, mid);
    GivesIsReads(utf8, data, mid, depth, e.value, end);
    KeyThenValue(utf8, data, pos, depth, e, mid, end);
  }

  lemma {:induction false} OneMorePair(utf8: Utf8Check, data: seq<Byte>, pos: nat, depth: nat, done: seq<Entry>,
                                       e: Entry, next: nat, count: nat, entries: seq<Entry>, end: nat)
    requires count > 0 && EntryAt(utf8, data, pos, depth) == Some((e, next))
    requires EntriesAt(utf8, data, next, depth, count - 1, Store(done, e.key, e.value)) == Some((entries, end))
    ensures EntriesAt(utf8, data, pos, depth, count, done) == Some((entries, end))
  {
  }

  /** The first pair of some, by its parts. */
  lemma {:induction false} FirstOfWritten(utf8: Utf8Check, data: seq<Byte>, pos: nat, depth: nat, pairs: seq<Pair>,
                                          text: seq<Byte>) returns (key: seq<Byte>, value: seq<Byte>, rest: seq<Byte>)
    requires pairs != [] && text == PairsWritten(pairs) && Stands(data, pos, text) && PairsFine(utf8, pairs, depth)
    ensures key == Written(pairs[0].key) && value == Written(pairs[0].value) && rest == PairsWritten(pairs[1..])
    ensures Stands(data, pos, key) && Stands(data, pos + |key|, value) && Stands(data, pos + |key| + |value|, rest)
    ensures |text| == |key| + |value| + |rest|
    ensures PairFine(utf8, pairs[0], depth) && PairsFine(utf8, pairs[1..], depth)
  {
    key, value, rest := Written(pairs[0].key), Written(pairs[0].value), PairsWritten(pairs[1..]);
    PairsSplit(data, pos, key, value, rest, text);
  }

  lemma PairsSplit(data: seq<Byte>, pos: nat, key: seq<Byte>, value: seq<Byte>, rest: seq<Byte>, text: seq<Byte>)
    requires text == key + value + rest && Stands(data, pos, text)
    ensures Stands(data, pos, key) && Stands(data, pos + |key|, value) && Stands(data, pos + |key| + |value|, rest)
    ensures |text| == |key| + |value| + |rest|
  {
    StandsSplit(data, pos, key + value, rest);
    StandsSplit(data, pos, key, value);
  }

  /** One side of a pair. */
  lemma {:induction false} SideIsRead(utf8: Utf8Check, data: seq<Byte>, pos: nat, depth: nat, pair: Pair, isKey: bool,
                                      bytes: seq<Byte>, v: Value)
    requires depth <= 33 && PairFine(utf8, pair, depth) && Stands(data, pos, bytes)
    requires bytes == Written(if isKey then pair.key else pair.value)
    requires v == Meaning(if isKey then pair.key else pair.value)
    ensures Gives(utf8, data, pos, depth, v, pos + |bytes|)
    decreases pair, 0
  {
    WrittenIsRead(utf8, data, pos, depth, if isKey then pair.key else pair.value, bytes, v);
  }

  lemma {:induction false} PairParts(utf8: Utf8Check, pair: Pair, depth: nat)
    requires PairFine(utf8, pair, depth)
    ensures Fine(utf8, pair.key, depth) && Fine(utf8, pair.value, depth) && Hashable(Meaning(pair.key))
  {
  }

  // ---------------------------------------------------------------------
  // What is read was written in a fine form

  /** The form of a head that was read. */
  lemma {:induction false} FormOf(data: seq<Byte>, pos: nat) returns (form: Form)
    requires pos < |data| && data[pos] / 32 < 7 && Argument(data, pos + 1, data[pos] % 32).Ok?
    ensures var (n, at) := Argument(data, pos + 1, data[pos] % 32).value;
      FormFits(form, n) && Stands(data, pos, Opening(data[pos] / 32, form, n))
      && at == pos + |Opening(data[pos] / 32, form, n)|
  {
    var major, short := data[pos] / 32, data[pos] % 32;
    form := if short < 24 then Short else if short == 24 then One else if short == 25 then Two
            else if short == 26 then Four else Eight;
    if short >= 24 {
      LongFormOf(data, pos, form, data[pos + 1..pos + 1 + Width(short)]);
    } else {
      assert data[pos..pos + 1] == [data[pos]];
    }
  }

  lemma {:induction false} LongFormOf(data: seq<Byte>, pos: nat, form: Form, bytes: seq<Byte>)
    requires pos < |data| && data[pos] / 32 < 7 && form != Short && pos + 1 + |bytes| <= |data|
    requires bytes == data[pos + 1..pos + 1 + |bytes|]
    requires (data[pos] % 32, |bytes|)
      == (match form case One => (24, 1) case Two => (25, 2) case Four => (26, 4) case _ => (27, 8))
    ensures FormFits(form, BigEndian(bytes))
    ensures var open := Opening(data[pos] / 32, form, BigEndian(bytes));
      Stands(data, pos, open) && |open| == 1 + |bytes|
  {
    var n := BigEndian(bytes);
    BigEndianBounded(bytes);
    Power256Values();
    TailReads(form, n);
    SameBigEndian(bytes, Tail(form, n));
    assert data[pos..pos + 1 + |bytes|] == [data[pos]] + bytes;
  }

  /** As many bytes with the same value are the same bytes. */
  lemma {:induction false} SameBigEndian(a: seq<Byte>, b: seq<Byte>)
    requires |a| == |b| && BigEndian(a) == BigEndian(b)
    ensures a == b
  {
    if a != [] {
      SameBigEndian(a[..|a| - 1], b[..|b| - 1]);
      assert a == a[..|a| - 1] + [a[|a| - 1]] && b == b[..|b| - 1] + [b[|b| - 1]];
    }
  }

  /** The parts of an item that was read. */
  lemma {:induction false} NumberParts(utf8: Utf8Check, data: seq<Byte>, pos: nat, depth: nat, v: Value, end: nat,
                                       n: nat)
    requires ReadsItem(utf8, data, pos, depth, v, end) && data[pos] / 32 < 2
    requires Argument(data, pos + 1, data[pos] % 32).Ok? && Argument(data, pos + 1, data[pos] % 32).value.0 == n
    ensures v == Int(if data[pos] / 32 == 1 then -1 - n else n)
    ensures end == Argument(data, pos + 1, data[pos] % 32).value.1
  {
  }

  lemma {:induction false} ContentParts(utf8: Utf8Check, data: seq<Byte>, pos: nat, depth: nat, v: Value, end: nat,
                                        n: nat, at: nat)
    requires ReadsItem(utf8, data, pos, depth, v, end) && (data[pos] / 32 == 2 || data[pos] / 32 == 3)
    requires Argument(data, pos + 1, data[pos] % 32) == Ok((n, at))
    ensures n <= 16384 && at + n == end <= |data|
    ensures v == if data[pos] / 32 == 3 then Text(data[at..end]) else Blob(data[at..end])
    ensures data[pos] / 32 == 3 ==> utf8(data[at..end])
  {
  }

  lemma {:induction false} ListParts(utf8: Utf8Check, data: seq<Byte>, pos: nat, depth: nat, v: Value, end: nat,
                                     n: nat, at: nat)
    requires ReadsItem(utf8, data, pos, depth, v, end) && data[pos] / 32 == 4
    requires Argument(data, pos + 1, data[pos] % 32) == Ok((n, at))
    ensures n <= 16384 && depth < 33 && v.List? && DecodeItems(utf8, data, at, depth + 1, n, []) == Ok((v.items, end))
  {
  }

  lemma {:induction false} DictParts(utf8: Utf8Check, data: seq<Byte>, pos: nat, depth: nat, v: Value, end: nat,
                                     n: nat, at: nat)
    requires ReadsItem(utf8, data, pos, depth, v, end) && data[pos] / 32 == 5
    requires Argument(data, pos + 1, data[pos] % 32) == Ok((n, at))
    ensures n <= 16384 && depth < 33 && v.Dict?
    ensures DecodeEntries(utf8, data, at, depth + 1, n, []) == Ok((v.entries, end))
  {
  }

  /** An item that was read has a head, unless it is a simple value. */
  lemma {:induction false} HeadParts(utf8: Utf8Check, data: seq<Byte>, pos: nat, depth: nat, v: Value, end: nat)
    requires ReadsItem(utf8, data, pos, depth, v, end)
    ensures pos < |data| && depth <= 32 && data[pos] / 32 != 6
    ensures data[pos] / 32 < 7 ==> Argument(data, pos + 1, data[pos] % 32).Ok?
    ensures data[pos] / 32 == 7 ==>
      end == pos + 1 && (|| (data[pos] == 0xF4 && v == Bool(false)) || (data[pos] == 0xF5 && v == Bool(true))
                         || (data[pos] == 0xF6 && v == Null))
  {
  }

  /** Whatever is read is the meaning of a fine item that stands there. */
  lemma {:induction false} ReadWasWritten(utf8: Utf8Check, data: seq<Byte>, pos: nat, depth: nat, v: Value, end: nat)
    returns (node: Node)
    requires ReadsItem(utf8, data, pos, depth, v, end)
    ensures IsItem(utf8, data, pos, depth, node, v, end)
    decreases MAX_DEPTH + 1 - depth, 0, 1
  {
    HeadParts(utf8, data, pos, depth, v, end);
    var major := data[pos] / 32;
    if major == 7 {
      node := if data[pos] == 0xF4 then False else if data[pos] == 0xF5 then True else Nil;
      assert data[pos..pos + 1] == [data[pos]];
    } else {
      var form := FormOf(data, pos);
      var n := Argument(data, pos + 1, data[pos] % 32).value.0;
      var open := Opening(major, form, n);
      if major < 2 {
        node := NumberWasWritten(utf8, data, pos, depth, form, open, n, v, end);
      } else if major < 4 {
        node := ContentWasWritten(utf8, data, pos, depth, form, open, n, v, end);
      } else if major == 4 {
        node := ListWasWritten(utf8, data, pos, depth, form, open, n, v, end);
      } else {
        assert major == 5;
        node := DictWasWritten(utf8, data, pos, depth, form, open, n, v, end);
      }
    }
  }

  lemma {:induction false} NumberWasWritten(utf8: Utf8Check, data: seq<Byte>, pos: nat, depth: nat, form: Form,
                                            open: seq<Byte>, n: nat, v: Value, end: nat) returns (node: Node)
    requires ReadsItem(utf8, data, pos, depth, v, end) && depth <= 32 && data[pos] / 32 < 2 && FormFits(form, n)
    requires open == Opening(data[pos] / 32, form, n) && Stands(data, pos, open)
    requires Argument(data, pos + 1, data[pos] % 32) == Ok((n, pos + |open|))
    ensures IsItem(utf8, data, pos, depth, node, v, end)
  {
    NumberParts(utf8, data, pos, depth, v, end, n);
    node := Number(data[pos] / 32 == 1, form, n);
  }

  lemma {:induction false} ListWasWritten(utf8: Utf8Check, data: seq<Byte>, pos: nat, depth: nat, form: Form,
                                          open: seq<Byte>, n: nat, v: Value, end: nat) returns (node: Node)
    requires ReadsItem(utf8, data, pos, depth, v, end) && depth <= 32 && data[pos] / 32 == 4 && FormFits(form, n)
    requires open == Opening(4, form, n) && Stands(data, pos, open)
    requires Argument(data, pos + 1, data[pos] % 32) == Ok((n, pos + |open|))
    ensures IsItem(utf8, data, pos, depth, node, v, end)
    decreases MAX_DEPTH + 1 - depth, 0, 0
  {
    var at := pos + |open|;
    ListParts(utf8, data, pos, depth, v, end, n, at);
    var items := ItemsWereWritten(utf8, data, at, depth + 1, n, [], v.items, end);
    node := Array(form, items);
    ArrayWasWritten(utf8, data, pos, depth, form, open, items, AllWritten(items));
  }

  lemma {:induction false} DictWasWritten(utf8: Utf8Check, data: seq<Byte>, pos: nat, depth: nat, form: Form,
                                          open: seq<Byte>, n: nat, v: Value, end: nat) returns (node: Node)
    requires ReadsItem(utf8, data, pos, depth, v, end) && depth <= 32 && data[pos] / 32 == 5 && FormFits(form, n)
    requires open == Opening(5, form, n) && Stands(data, pos, open)
    requires Argument(data, pos + 1, data[pos] % 32) == Ok((n, pos + |open|))
    ensures IsItem(utf8, data, pos, depth, node, v, end)
    decreases MAX_DEPTH + 1 - depth, 0, 0
  {
    var at := pos + |open|;
    DictParts(utf8, data, pos, depth, v, end, n, at);
    var pairs := PairsWereWritten(utf8, data, at, depth + 1, n, [], v.entries, end);
    node := Mapping(form, pairs);
    MappingWasWritten(utf8, data, pos, depth, form, open, pairs, PairsWritten(pairs));
  }

  /** A fine item with this meaning stands there. */
  ghost predicate IsItem(utf8: Utf8Check, data: seq<Byte>, pos: nat, depth: nat, node: Node, v: Value, end: nat) {
    && Fine(utf8, node, depth) && Stands(data, pos, Written(node)) && end == pos + |Written(node)|
    && Meaning(node) == v
  }

  lemma {:induction false} ContentWasWritten(utf8: Utf8Check, data: seq<Byte>, pos: nat, depth: nat, form: Form,
                                             open: seq<Byte>, n: nat, v: Value, end: nat) returns (node: Node)
    requires ReadsItem(utf8, data, pos, depth, v, end) && depth <= 32
    requires (data[pos] / 32 == 2 || data[pos] / 32 == 3) && FormFits(form, n)
    requires open == Opening(data[pos] / 32, form, n) && Stands(data, pos, open)
    requires Argument(data, pos + 1, data[pos] % 32) == Ok((n, pos + |open|))
    ensures IsItem(utf8, data, pos, depth, node, v, end)
  {
    var at := pos + |open|;
    ContentParts(utf8, data, pos, depth, v, end, n, at);
    var bytes := data[at..end];
    node := Content(data[pos] / 32 == 3, form, bytes);
    StandsJoin(data, pos, open, bytes);
  }

  lemma {:induction false} MappingWasWritten(utf8: Utf8Check, data: seq<Byte>, pos: nat, depth: nat, form: Form,
                                             open: seq<Byte>, pairs: seq<Pair>, text: seq<Byte>)
    requires depth <= 32 && |pairs| <= 16384 && FormFits(form, |pairs|) && PairsFine(utf8, pairs, depth + 1)
    requires open == Opening(5, form, |pairs|) && text == PairsWritten(pairs)
    requires Stands(data, pos, open) && Stands(data, pos + |open|, text)
    ensures IsItem(utf8, data, pos, depth, Mapping(form, pairs), Dict(PairsMean([], pairs)), pos + |open| + |text|)
  {
    StandsJoin(data, pos, open, text);
  }

  lemma {:induction false} ArrayWasWritten(utf8: Utf8Check, data: seq<Byte>, pos: nat, depth: nat, form: Form,
                                           open: seq<Byte>, items: seq<Node>, text: seq<Byte>)
    requires depth <= 32 && |items| <= 16384 && FormFits(form, |items|) && AllFine(utf8, items, depth + 1)
    requires open == Opening(4, form, |items|) && text == AllWritten(items)
    requires Stands(data, pos, open) && Stands(data, pos + |open|, text)
    ensures IsItem(utf8, data, pos, depth, Array(form, items), List([] + AllMean(items)), pos + |open| + |text|)
  {
    StandsJoin(data, pos, open, text);
    assert [] + AllMean(items) == AllMean(items);
  }

  lemma StandsJoin(data: seq<Byte>, pos: nat, a: seq<Byte>, b: seq<Byte>)
    requires Stands(data, pos, a) && Stands(data, pos + |a|, b)
    ensures Stands(data, pos, a + b)
  {
    assert data[pos..pos + |a + b|] == data[pos..pos + |a|] + data[pos + |a|..pos + |a| + |b|];
  }

  ghost predicate ReadsSome(utf8: Utf8Check, data: seq<Byte>, pos: nat, depth: nat, count: nat,
                            done: seq<Value>, values: seq<Value>, end: nat) {
    && pos <= |data| && depth <= MAX_DEPTH + 1
    && DecodeItems(utf8, data, pos, depth, count, done) == Ok((values, end))
  }

  lemma {:induction false} ItemsWereWritten(utf8: Utf8Check, data: seq<Byte>, pos: nat, depth: nat, count: nat,
                                            done: seq<Value>, values: seq<Value>, end: nat) returns (items: seq<Node>)
    requires ReadsSome(utf8, data, pos, depth, count, done, values, end)
    ensures |items| == count && AllFine(utf8, items, depth) && values == done + AllMean(items)
    ensures Stands(data, pos, AllWritten(items)) && end == pos + |AllWritten(items)|
    decreases MAX_DEPTH + 1 - depth, 1, count
  {
    if count == 0 {
      items := [];
      assert done + [] == done;
    } else {
      var v, next := FirstOfSome(utf8, data, pos, depth, count, done, values, end);
      var first := ReadWasWritten(utf8, data, pos, depth, v, next);
      var rest := ItemsWereWritten(utf8, data, next, depth, count - 1, done + [v], values, end);
      items := [first] + rest;
      FirstThenRest(utf8, data, pos, depth, first, Written(first), rest, AllWritten(rest));
      ConcatAssociative(done, [v], AllMean(rest));
    }
  }

  lemma {:induction false} FirstOfSome(utf8: Utf8Check, data: seq<Byte>, pos: nat, depth: nat, count: nat,
                                       done: seq<Value>, values: seq<Value>, end: nat) returns (v: Value, next: nat)
    requires count > 0 && ReadsSome(utf8, data, pos, depth, count, done, values, end)
    ensures ReadsItem(utf8, data, pos, depth, v, next)
    ensures ReadsSome(utf8, data, next, depth, count - 1, done + [v], values, end)
  {
    var item := DecodeItem(utf8, data, pos, depth).value;
    v, next := item.0, item.1;
  }

  lemma {:induction false} FirstThenRest(utf8: Utf8Check, data: seq<Byte>, pos: nat, depth: nat, first: Node,
                                         a: seq<Byte>, rest: seq<Node>, b: seq<Byte>)
    requires Fine(utf8, first, depth) && AllFine(utf8, rest, depth) && a == Written(first) && b == AllWritten(rest)
    requires Stands(data, pos, a) && Stands(data, pos + |a|, b)
    ensures var items := [first] + rest;
      && AllFine(utf8, items, depth) && AllMean(items) == [Meaning(first)] + AllMean(rest)
      && AllWritten(items) == a + b && Stands(data, pos, a + b)
  {
    assert ([first] + rest)[1..] == rest;
    StandsJoin(data, pos, a, b);
  }

  lemma {:induction false} PairsWereWritten(utf8: Utf8Check, data: seq<Byte>, pos: nat, depth: nat, count: nat,
                                            done: seq<Entry>, entries: seq<Entry>, end: nat)
    returns (pairs: seq<Pair>)
    requires ReadsPairs(utf8, data, pos, depth, done, count, entries, end)
    ensures |pairs| == count && PairsFine(utf8, pairs, depth) && entries == PairsMean(done, pairs)
    ensures Stands(data, pos, PairsWritten(pairs)) && end == pos + |PairsWritten(pairs)|
    decreases MAX_DEPTH + 1 - depth, 1, count
  {
    if count == 0 {
      pairs := [];
    } else {
      var e, next := FirstOfPairs(utf8, data, pos, depth, count, done, entries, end);
      var first := PairWasWritten(utf8, data, pos, depth, e, next);
      var rest := PairsWereWritten(utf8, data, next, depth, count - 1, Store(done, e.key, e.value), entries, end);
      pairs := [first] + rest;
      FirstPairThenRest(utf8, data, pos, depth, done, first, PairWritten(first), rest, PairsWritten(rest));
    }
  }

  lemma {:induction false} FirstOfPairs(utf8: Utf8Check, data: seq<Byte>, pos: nat, depth: nat, count: nat,
                                        done: seq<Entry>, entries: seq<Entry>, end: nat)
    returns (e: Entry, next: nat)
    requires count > 0 && ReadsPairs(utf8, data, pos, depth, done, count, entries, end)
    ensures ReadsEntry(utf8, data, pos, depth, e, next)
    ensures ReadsPairs(utf8, data, next, depth, Store(done, e.key, e.value), count - 1, entries, end)
  {
    var entry := DecodeEntry(utf8, data, pos, depth).value;
    e, next := entry.0, entry.1;
  }

  lemma {:induction false} FirstPairThenRest(utf8: Utf8Check, data: seq<Byte>, pos: nat, depth: nat,
                                             done: seq<Entry>, first: Pair, a: seq<Byte>, rest: seq<Pair>,
                                             b: seq<Byte>)
    requires PairFine(utf8, first, depth) && PairsFine(utf8, rest, depth)
    requires a == PairWritten(first) && b == PairsWritten(rest)
    requires Stands(data, pos, a) && Stands(data, pos + |a|, b)
    ensures var pairs := [first] + rest;
      && PairsFine(utf8, pairs, depth) && PairsMean(done, pairs) == PairsMean(StoredPair(done, first), rest)
      && PairsWritten(pairs) == a + b && Stands(data, pos, a + b)
  {
    assert ([first] + rest)[1..] == rest;
    StandsJoin(data, pos, a, b);
  }

  lemma {:induction false} PairWasWritten(utf8: Utf8Check, data: seq<Byte>, pos: nat, depth: nat, e: Entry, end: nat)
    returns (pair: Pair)
    requires ReadsEntry(utf8, data, pos, depth, e, end)
    ensures PairFine(utf8, pair, depth) && e == Entry(Meaning(pair.key), Meaning(pair.value))
    ensures Stands(data, pos, PairWritten(pair)) && end == pos + |PairWritten(pair)|
    decreases MAX_DEPTH + 1 - depth, 0, 2
  {
    var mid := EntryParts(utf8, data, pos, depth, e, end);
    var key := ReadWasWritten(utf8, data, pos, depth, e.key, mid);
    var value := ReadWasWritten(utf8, data, mid, depth, e.value, end);
    pair := Pair(key, value);
    SidesStand(utf8, data, pos, depth, pair, Written(key), Written(value));
  }

  lemma {:induction false} SidesStand(utf8: Utf8Check, data: seq<Byte>, pos: nat, depth: nat, pair: Pair,
                                      key: seq<Byte>, value: seq<Byte>)
    requires Fine(utf8, pair.key, depth) && Fine(utf8, pair.value, depth) && Hashable(Meaning(pair.key))
    requires key == Written(pair.key) && value == Written(pair.value)
    requires Stands(data, pos, key) && Stands(data, pos + |key|, value)
    ensures PairFine(utf8, pair, depth) && PairWritten(pair) == key + value && Stands(data, pos, key + value)
  {
    StandsJoin(data, pos, key, value);
  }

  lemma {:induction false} EntryParts(utf8: Utf8Check, data: seq<Byte>, pos: nat, depth: nat, e: Entry, end: nat)
    returns (mid: nat)
    requires ReadsEntry(utf8, data, pos, depth, e, end)
    ensures ReadsItem(utf8, data, pos, depth, e.key, mid) && ReadsItem(utf8, data, mid, depth, e.value, end)
    ensures Hashable(e.key)
  {
    mid := DecodeItem(utf8, data, pos, depth).value.1;
  }

  /** A slot is accepted exactly when it starts with a fine dictionary, and its
      value is what that means. */
  lemma {:induction false} SlotIff(utf8: Utf8Check, data: seq<Byte>, v: Value)
    ensures DecodeSlot(utf8, data) == Ok(v) <==>
      |data| == 16384 && exists node :: IsSlot(utf8, data, node) && Meaning(node) == v
  {
    if DecodeSlot(utf8, data) == Ok(v) {
      var node := ReadWasWritten(utf8, data, 0, 0, v, DecodeItem(utf8, data, 0, 0).value.1);
      assert IsSlot(utf8, data, node);
    }
    if node :| |data| == 16384 && IsSlot(utf8, data, node) && Meaning(node) == v {
      WrittenIsRead(utf8, data, 0, 0, node, Written(node), v);
    }
  }

  predicate IsSlot(utf8: Utf8Check, data: seq<Byte>, node: Node) {
    node.Mapping? && Fine(utf8, node, 0) && Stands(data, 0, Written(node))
  }

  /** Examples from appendix A of RFC 8949: false, true, null, 0, 24, 1000,
      1000000, 18446744073709551615, -1 and -1000. */
  lemma KnownNumbers()
    ensures Written(False) == [0xF4] && Written(True) == [0xF5] && Written(Nil) == [0xF6]
    ensures Written(Number(false, Short, 0)) == [0x00] && Written(Number(false, One, 24)) == [0x18, 0x18]
    ensures Written(Number(false, Two, 1000)) == [0x19, 0x03, 0xE8]
    ensures Written(Number(true, Short, 0)) == [0x20] && Written(Number(true, Two, 999)) == [0x39, 0x03, 0xE7]
  {
  }

  lemma KnownLongNumbers()
    ensures Opening(0, Four, 1000000) == [0x1A, 0x00, 0x0F, 0x42, 0x40]
    ensures Opening(0, Eight, 18446744073709551615) == [0x1B, 0xFF, 0xFF, 0xFF, 0xFF, 0xFF, 0xFF, 0xFF, 0xFF]
  {
  }

  /** h'01020304' and "IETF", from the same appendix. */
  lemma KnownStrings()
    ensures Written(Content(false, Short, [1, 2, 3, 4])) == [0x44, 1, 2, 3, 4]
    ensures Written(Content(true, Short, [0x49, 0x45, 0x54, 0x46])) == [0x64, 0x49, 0x45, 0x54, 0x46]
  {
  }

  lemma {:induction false} OneMore(first: Node, rest: seq<Node>)
    ensures AllWritten([first] + rest) == Written(first) + AllWritten(rest)
  {
    assert ([first] + rest)[1..] == rest;
  }

  /** [1, 2, 3], from the same appendix. */
  lemma {:induction false} KnownList()
    ensures var one, two, three := Number(false, Short, 1), Number(false, Short, 2), Number(false, Short, 3);
      Written(Array(Short, [one, two, three])) == [0x83, 1, 2, 3]
  {
    var one, two, three := Number(false, Short, 1), Number(false, Short, 2), Number(false, Short, 3);
    OneMore(three, []);
    OneMore(two, [three]);
    OneMore(one, [two, three]);
    assert [three] + [] == [three] && [two] + [three] == [two, three] && [one] + [two, three] == [one, two, three];
  }

  /** {"a": "A"}, from the same appendix, and what it means. */
  lemma {:induction false} KnownMap()
    ensures var pair := Pair(Content(true, Short, [0x61]), Content(true, Short, [0x41]));
      && Written(Mapping(Short, [pair])) == [0xA1, 0x61, 0x61, 0x61, 0x41]
      && Meaning(Mapping(Short, [pair])) == Dict([Entry(Text([0x61]), Text([0x41]))])
  {
    var pair := Pair(Content(true, Short, [0x61]), Content(true, Short, [0x41]));
    var entries := [Entry(Text([0x61]), Text([0x41]))];
    assert [pair][1..] == [];
    assert Written(pair.key) == [0x61, 0x61] && Written(pair.value) == [0x61, 0x41];
    assert PairsWritten([pair]) == [0x61, 0x61] + [0x61, 0x41];
    assert StoredPair([], pair) == entries && PairsMean(entries, []) == entries;
  }
}
