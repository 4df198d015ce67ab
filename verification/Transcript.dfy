/** Rendering an untrusted transcript into bounded, printable journal entries
    (nmbl-host-tools/src/log_import.rs). */
module Transcript {
  import opened Basics
  import opened Numerals
  import opened Lines
  import opened Utf8Units

  const BACKSLASH := 92

  // ---------------------------------------------------------------------
  // Bytes of text

  /** The length of text in bytes. */
  function Size(text: seq<Scalar>): nat {
    if text == [] then 0 else |Utf8(text[0])| + Size(text[1..])
  }

  lemma {:induction false} SizeConcat(a: seq<Scalar>, b: seq<Scalar>)
    ensures Size(a + b) == Size(a) + Size(b)
  {
    if a == [] {
      assert a + b == b;
    } else {
      assert (a + b)[1..] == a[1..] + b;
      SizeConcat(a[1..], b);
    }
  }

  lemma {:induction false} AsciiSize(text: seq<Scalar>)
    requires forall i :: 0 <= i < |text| ==> text[i] < 0x80
    ensures Size(text) == |text|
  {
    if text != [] {
      AsciiSize(text[1..]);
    }
  }

  // ---------------------------------------------------------------------
  // Escaping

  predicate MustEscape(c: int) {
    c != 9
    && (c < 0x20 || 0x7F <= c < 0xA0
        || 0x200B <= c <= 0x200F || 0x2028 <= c <= 0x202E || 0x2060 <= c <= 0x2069 || c == 0xFEFF)
  }

  predicate Printable(text: seq<Scalar>) {
    forall i :: 0 <= i < |text| ==> !MustEscape(text[i])
  }

  /** "\xhh" for one byte. */
  function HexEscape(b: Byte): seq<Scalar> {
    [BACKSLASH, 120, HexDigit(b / 16), HexDigit(b % 16)]
  }

  /** "\u{h..h}" for one character. */
  function UnicodeEscape(c: Scalar): seq<Scalar> {
    [BACKSLASH, 117, 123] + Hex(c) + [125]
  }

  function Piece(u: Unit): (text: seq<Scalar>)
    ensures text != []
  {
    if u.Raw? then HexEscape(u.b)
    else if u.c == BACKSLASH then [BACKSLASH, BACKSLASH]
    else if MustEscape(u.c) then (if u.c < 0x80 then HexEscape(u.c) else UnicodeEscape(u.c))
    else [u.c]
  }

  function Pieces(units: seq<Unit>): seq<Scalar> {
    if units == [] then [] else Piece(units[0]) + Pieces(units[1..])
  }

  lemma {:induction false} PiecesConcat(a: seq<Unit>, b: seq<Unit>)
    ensures Pieces(a + b) == Pieces(a) + Pieces(b)
  {
    if a == [] {
      assert a + b == b;
    } else {
      assert (a + b)[1..] == a[1..] + b;
      PiecesConcat(a[1..], b);
    }
  }

  lemma {:induction false} PiecesSnoc(units: seq<Unit>, u: Unit)
    ensures Pieces(units + [u]) == Pieces(units) + Piece(u)
    ensures Size(Pieces(units + [u])) == Size(Pieces(units)) + Size(Piece(u))
    ensures RawBytes(units + [u]) == RawBytes(units) + UnitBytes(u)
  {
    PiecesConcat(units, [u]);
    RawBytesConcat(units, [u]);
    SizeConcat(Pieces(units), Piece(u));
    assert [u][1..] == [];
  }

  /** How many units an escaper with this budget renders: as many as fit. */
  ghost predicate Fits(units: seq<Unit>, budget: nat, k: nat) {
    && k <= |units|
    && Size(Pieces(units[..k])) <= budget
    && (k < |units| ==> Size(Pieces(units[..k + 1])) > budget)
  }

  /** How many units fit. */
  ghost function Fitting(units: seq<Unit>, budget: nat): (k: nat)
    ensures Fits(units, budget, k)
  {
    FittingUpTo(units, budget, |units|)
  }

  ghost function FittingUpTo(units: seq<Unit>, budget: nat, k: nat): (r: nat)
    requires k <= |units| && (k < |units| ==> Size(Pieces(units[..k + 1])) > budget)
    ensures Fits(units, budget, r)
  {
    if Size(Pieces(units[..k])) <= budget then k else FittingUpTo(units, budget, k - 1)
  }

  /** The text and the number of raw bytes it covers: the longest prefix of
      whole units that fits the budget. */
  method Escape(units: seq<Unit>, budget: nat) returns (out: seq<Scalar>, consumed: nat)
    ensures out == Pieces(units[..Fitting(units, budget)])
    ensures consumed == |RawBytes(units[..Fitting(units, budget)])|
  {
    out, consumed := [], 0;
    for i := 0 to |units|
      invariant out == Pieces(units[..i]) && Size(out) <= budget
      invariant consumed == |RawBytes(units[..i])|
    {
      var piece := Piece(units[i]);
      assert units[..i + 1] == units[..i] + [units[i]];
      PiecesSnoc(units[..i], units[i]);
      if Size(out) + Size(piece) > budget {
        FittingIs(units, budget, i);
        return;
      }
      out, consumed := out + piece, consumed + |UnitBytes(units[i])|;
    }
    FittingIs(units, budget, |units|);
  }

  lemma FittingIs(units: seq<Unit>, budget: nat, k: nat)
    requires Fits(units, budget, k)
    ensures Fitting(units, budget) == k
  {
    FitsIsUnique(units, budget, k, Fitting(units, budget));
  }

  /** One more unit takes some room and covers some bytes. */
  lemma PiecesGrowOnce(units: seq<Unit>, j: nat)
    requires j < |units|
    ensures Size(Pieces(units[..j + 1])) == Size(Pieces(units[..j])) + Size(Piece(units[j]))
    ensures |RawBytes(units[..j + 1])| == |RawBytes(units[..j])| + |UnitBytes(units[j])|
  {
    assert units[..j + 1] == units[..j] + [units[j]];
    PiecesSnoc(units[..j], units[j]);
  }

  /** A longer prefix takes no less room and more raw bytes. */
  lemma PiecesGrow(units: seq<Unit>, i: nat, j: nat)
    requires i <= j <= |units|
    ensures Size(Pieces(units[..i])) <= Size(Pieces(units[..j]))
    ensures |RawBytes(units[..i])| + (j - i) <= |RawBytes(units[..j])|
  {
    assert units[..j] == units[..i] + units[i..j];
    MoreUnits(units[..i], units[i..j]);
  }

  lemma {:induction false} MoreUnits(a: seq<Unit>, b: seq<Unit>)
    ensures Size(Pieces(a)) <= Size(Pieces(a + b)) && |RawBytes(a)| + |b| <= |RawBytes(a + b)|
  {
    PiecesConcat(a, b);
    SizeConcat(Pieces(a), Pieces(b));
    RawBytesConcat(a, b);
    EveryUnitHasBytes(b);
  }

  lemma {:induction false} EveryUnitHasBytes(units: seq<Unit>)
    ensures |units| <= |RawBytes(units)|
  {
    if units != [] {
      EveryUnitHasBytes(units[1..]);
    }
  }

  /** Only one prefix is the longest that fits. */
  lemma FitsIsUnique(units: seq<Unit>, budget: nat, k: nat, l: nat)
    requires Fits(units, budget, k) && Fits(units, budget, l)
    ensures k == l
  {
    if k < l {
      PiecesGrow(units, k + 1, l);
    }
    if l < k {
      PiecesGrow(units, l + 1, k);
    }
  }

  lemma PiecesOfAll(units: seq<Unit>)
    ensures units[..|units|] == units
  {
  }

  // ---------------------------------------------------------------------
  // Reading an escaped text back

  /** The position of the first closing brace, or the end. */
  function BraceAt(text: seq<Scalar>): (n: nat)
    ensures n <= |text|
    ensures n < |text| ==> text[n] == 125
    ensures forall i :: 0 <= i < n ==> text[i] != 125
  {
    if text == [] || text[0] == 125 then 0 else 1 + BraceAt(text[1..])
  }

  predicate AllHex(text: seq<int>) {
    forall i :: 0 <= i < |text| ==> HexDigitValue(text[i]).Some?
  }

  /** The bytes an escaped text stands for, or None when it is not one. */
  function Unescape(text: seq<Scalar>): Option<seq<Byte>>
    decreases |text|
  {
    if text == [] then Some([])
    else if text[0] != BACKSLASH then Prepend(Utf8(text[0]), Unescape(text[1..]))
    else if |text| < 2 then None
    else if text[1] == BACKSLASH then Prepend([BACKSLASH], Unescape(text[2..]))
    else if text[1] == 120 then
      if |text| < 4 || HexDigitValue(text[2]).None? || HexDigitValue(text[3]).None? then None
      else Prepend([HexDigitValue(text[2]).value * 16 + HexDigitValue(text[3]).value], Unescape(text[4..]))
    else if text[1] == 117 && |text| >= 3 && text[2] == 123 then
      var n := BraceAt(text[3..]);
      if 3 + n >= |text| || !AllHex(text[3..3 + n]) then None
      else
        var code := HexValue(text[3..3 + n]);
        if code < 0xD800 || 0xE000 <= code < 0x110000 then Prepend(Utf8(code), Unescape(text[4 + n..])) else None
    else None
  }

  function Prepend(head: seq<Byte>, tail: Option<seq<Byte>>): Option<seq<Byte>> {
    if tail.None? then None else Some(head + tail.value)
  }

  /** Reading back takes one rendered unit off the front at a time. */
  lemma {:induction false} UnescapePiece(u: Unit, rest: seq<Scalar>)
    ensures Unescape(Piece(u) + rest) == Prepend(UnitBytes(u), Unescape(rest))
  {
    var text := Piece(u) + rest;
    if u.Char? && u.c != BACKSLASH && MustEscape(u.c) && u.c >= 0x80 {
      UnescapeUnicode(u.c, rest);
    } else if u.Char? && u.c != BACKSLASH && !MustEscape(u.c) {
      assert text[1..] == rest;
    } else if u.Char? && u.c == BACKSLASH {
      assert text[2..] == rest;
    } else {
      assert text[4..] == rest;
    }
  }

  lemma {:induction false} UnescapeUnicode(c: Scalar, rest: seq<Scalar>)
    ensures Unescape(UnicodeEscape(c) + rest) == Prepend(Utf8(c), Unescape(rest))
  {
    var text := UnicodeEscape(c) + rest;
    var hex := Hex(c);
    assert text[3..] == hex + [125] + rest;
    BraceAfterHex(hex, rest);
    assert text[3..3 + |hex|] == hex;
    HexRoundTrip(c);
    assert text[4 + |hex|..] == rest;
    UnescapeBraced(text, |hex|);
  }

  lemma {:induction false} UnescapeBraced(text: seq<Scalar>, n: nat)
    requires |text| > 3 + n && text[..3] == [BACKSLASH, 117, 123]
    requires BraceAt(text[3..]) == n && AllHex(text[3..3 + n])
    requires var code := HexValue(text[3..3 + n]); code < 0xD800 || 0xE000 <= code < 0x110000
    ensures Unescape(text) == Prepend(Utf8(HexValue(text[3..3 + n])), Unescape(text[4 + n..]))
  {
    assert text[0] == text[..3][0] && text[1] == text[..3][1] && text[2] == text[..3][2];
  }

  lemma {:induction false} BraceAfterHex(hex: seq<Scalar>, rest: seq<Scalar>)
    requires AllHex(hex)
    ensures BraceAt(hex + [125] + rest) == |hex|
  {
    var text := hex + [125] + rest;
    if hex == [] {
      assert text[0] == 125;
    } else {
      assert text[0] == hex[0] && text[0] != 125;
      assert text[1..] == hex[1..] + [125] + rest;
      BraceAfterHex(hex[1..], rest);
    }
  }

  /** Escaping is reversible: the text of any units reads back as exactly the
      raw bytes they were split from. */
  lemma {:induction false} EscapeRoundTrip(units: seq<Unit>)
    ensures Unescape(Pieces(units)) == Some(RawBytes(units))
  {
    if units != [] {
      EscapeRoundTrip(units[1..]);
      UnescapePiece(units[0], Pieces(units[1..]));
    }
  }

  /** Two lines with the same escaped text have the same bytes. */
  lemma {:induction false} EscapeIsInjective(a: seq<Unit>, b: seq<Unit>)
    requires Pieces(a) == Pieces(b)
    ensures RawBytes(a) == RawBytes(b)
  {
    EscapeRoundTrip(a);
    EscapeRoundTrip(b);
  }

  lemma {:induction false} PiecesPrintable(units: seq<Unit>)
    ensures Printable(Pieces(units))
  {
    if units != [] {
      PiecesPrintable(units[1..]);
      PiecePrintable(units[0]);
    }
  }

  lemma PiecePrintable(u: Unit)
    ensures Printable(Piece(u))
  {
    if u.Char? && u.c != BACKSLASH && MustEscape(u.c) && u.c >= 0x80 {
      var hex := Hex(u.c);
      assert forall i :: 0 <= i < |hex| ==> !MustEscape(hex[i]);
    }
  }

  // ---------------------------------------------------------------------
  // What may stand in an entry

  /** Neither a control character, other than a tab, nor one that could reorder,
      hide or break the text of an entry. */
  predicate Harmless(c: int) {
    && (c >= 0x20 || c == 9) && !(0x7F <= c <= 0x9F)
    && !(0x200B <= c <= 0x200F) && !(0x2028 <= c <= 0x202E) && !(0x2060 <= c <= 0x2069) && c != 0xFEFF
  }

  // ---------------------------------------------------------------------
  // Rendering one line

  /** " [+N bytes truncated]" */
  function LineMarker(rest: nat): (text: seq<Scalar>)
    ensures |text| == 20 + |Decimal(rest)|
  {
    [32, 91, 43] + Decimal(rest) + Ascii(" bytes truncated]")
  }

  lemma {:induction false} MarkerSize(rest: nat)
    ensures Size(LineMarker(rest)) == 20 + |Decimal(rest)|
    ensures Printable(LineMarker(rest))
  {
    var text := LineMarker(rest);
    assert forall i :: 0 <= i < |text| ==> 0x20 <= text[i] < 0x7F;
    AsciiSize(text);
  }

  function Monus(a: nat, b: nat): nat {
    if a >= b then a - b else 0
  }

  /** The length of a truncation marker. */
  function MarkerLength(rest: nat): (n: nat)
    ensures n == Size(LineMarker(rest))
  {
    MarkerSize(rest);
    20 + |Decimal(rest)|
  }

  lemma MarkerLengthMonotone(m: nat, n: nat)
    requires m <= n
    ensures MarkerLength(m) <= MarkerLength(n)
  {
    DecimalLengthMonotone(m, n);
    MarkerSize(m);
    MarkerSize(n);
  }

  /** A part that fits beside the marker of the whole stays within the bound
      with the marker of the rest, and only when that marker fits at all. */
  lemma SumBounded(head: nat, rest: nat, whole: nat, max: nat)
    requires head <= Monus(max, whole) && rest <= whole && (head == 0 ==> rest == whole)
    ensures head + rest <= max <==> whole <= max
  {
  }

  /** The entry of a line of which k units are kept. */
  ghost function Entry(units: seq<Unit>, k: nat): seq<Scalar>
    requires k <= |units|
  {
    if k == |units| then Pieces(units)
    else Pieces(units[..k]) + LineMarker(|RawBytes(units)| - KeptBytes(units, k))
  }

  /** The raw bytes the first k units cover. */
  ghost function KeptBytes(units: seq<Unit>, k: nat): (n: nat)
    requires k <= |units|
    ensures n <= |RawBytes(units)|
    ensures k < |units| ==> n < |RawBytes(units)|
  {
    PiecesGrow(units, k, |units|);
    assert units[..|units|] == units;
    |RawBytes(units[..k])|
  }

  /** Which units of a line an entry of at most `max` bytes keeps: all of them
      when they fit, otherwise as many as fit beside the longest marker. */
  ghost predicate Keeps(units: seq<Unit>, max: nat, k: nat) {
    if Size(Pieces(units)) <= max then k == |units|
    else Fits(units, Monus(max, MarkerLength(|RawBytes(units)|)), k)
  }

  /** `out` is the entry of these units under this bound. */
  ghost predicate IsEntry(units: seq<Unit>, max: nat, out: seq<Scalar>) {
    exists k :: 0 <= k <= |units| && Keeps(units, max, k) && out == Entry(units, k)
  }

  /** Render one raw line as a single entry. */
  method RenderLine(units: seq<Unit>, max: nat) returns (out: seq<Scalar>)
    ensures IsEntry(units, max, out)
    ensures forall i :: 0 <= i < |out| ==> Harmless(out[i])
  {
    out := RenderUnits(units, max);
    EntryIsHarmless(units, max, out);
  }

  method RenderUnits(units: seq<Unit>, max: nat) returns (out: seq<Scalar>)
    ensures IsEntry(units, max, out)
  {
    var consumed;
    out, consumed := Escape(units, max);
    FitsAllOrNot(units, max, Fitting(units, max));
    if consumed == |RawBytes(units)| {
      assert Keeps(units, max, |units|) && out == Entry(units, |units|);
      return;
    }
    var budget := Monus(max, MarkerLength(|RawBytes(units)|));
    out, consumed := Escape(units, budget);
    ghost var k := Fitting(units, budget);
    FitsAllOrNot(units, budget, k);
    out := out + LineMarker(|RawBytes(units)| - consumed);
    assert Keeps(units, max, k) && out == Entry(units, k);
  }

  /** Covering every byte, keeping every unit and fitting whole are the same. */
  lemma {:induction false} FitsAllOrNot(units: seq<Unit>, budget: nat, k: nat)
    requires Fits(units, budget, k)
    ensures KeptBytes(units, k) == |RawBytes(units)| <==> k == |units|
    ensures k == |units| <==> Size(Pieces(units)) <= budget
    ensures k == |units| ==> units[..k] == units
  {
    PiecesOfAll(units);
    if k < |units| {
      PiecesGrow(units, k + 1, |units|);
    }
  }

  /** An entry stays within its bound exactly when the line fits or the bound
      has room for the marker of the whole line. */
  lemma {:induction false} EntryBounded(units: seq<Unit>, max: nat, k: nat)
    requires Keeps(units, max, k) && k <= |units|
    ensures Size(Entry(units, k)) <= max <==>
      Size(Pieces(units)) <= max || MarkerLength(|RawBytes(units)|) <= max
  {
    if Size(Pieces(units)) > max {
      TruncatedBounded(units, max, k);
    }
  }

  lemma {:induction false} TruncatedBounded(units: seq<Unit>, max: nat, k: nat)
    requires Size(Pieces(units)) > max && k <= |units|
    requires Fits(units, Monus(max, MarkerLength(|RawBytes(units)|)), k)
    ensures Size(Entry(units, k)) <= max <==> MarkerLength(|RawBytes(units)|) <= max
  {
    FitsAllOrNot(units, Monus(max, MarkerLength(|RawBytes(units)|)), k);
    var head, rest, whole := TruncatedSize(units, k);
    SumBounded(head, rest, whole, max);
  }

  /** The sizes a truncated entry is made of. */
  lemma TruncatedSize(units: seq<Unit>, k: nat) returns (head: nat, rest: nat, whole: nat)
    requires k < |units|
    ensures Size(Entry(units, k)) == head + rest && head == Size(Pieces(units[..k]))
    ensures rest <= whole == MarkerLength(|RawBytes(units)|) && (head == 0 ==> rest == whole)
  {
    var kept, all := KeptBytes(units, k), |RawBytes(units)|;
    EmptyPieces(units[..k]);
    SizeConcat(Pieces(units[..k]), LineMarker(all - kept));
    MarkerLengthMonotone(all - kept, all);
    head, rest, whole := Size(Pieces(units[..k])), MarkerLength(all - kept), MarkerLength(all);
  }

  lemma {:induction false} EmptyPieces(units: seq<Unit>)
    ensures Size(Pieces(units)) == 0 <==> units == []
  {
    if units != [] {
      SizeConcat(Piece(units[0]), Pieces(units[1..]));
    }
  }

  const MAX_TOTAL := 2 * 1024 * 1024
  const MAX_LINE := 4096

  /** With the production limits every entry fits its bound: no line of a
      bounded transcript has a marker that does not. */
  lemma {:induction false} ProductionEntryFits(units: seq<Unit>, k: nat)
    requires |RawBytes(units)| <= MAX_TOTAL && Keeps(units, MAX_LINE, k) && k <= |units|
    ensures Size(Entry(units, k)) <= MAX_LINE
  {
    EntryBounded(units, MAX_LINE, k);
    ProductionMarker(|RawBytes(units)|);
  }

  /** No line of a bounded transcript has a longer marker. */
  lemma ProductionMarker(whole: nat)
    requires whole <= MAX_TOTAL
    ensures MarkerLength(whole) <= 27
  {
    MarkerLengthMonotone(whole, 9999999);
    assert |Decimal(9999)| == 4;
    assert |Decimal(9999999)| == 7;
    MarkerSize(9999999);
  }

  /** No entry contains a character that must be escaped. */
  lemma EntryPrintable(units: seq<Unit>, k: nat)
    requires k <= |units|
    ensures Printable(Entry(units, k))
    ensures NEWLINE !in Entry(units, k)
  {
    PiecesPrintable(units);
    PiecesPrintable(units[..k]);
    MarkerSize(|RawBytes(units)| - KeptBytes(units, k));
  }

  /** Every character of an entry is harmless. */
  lemma EntryIsHarmless(units: seq<Unit>, max: nat, out: seq<Scalar>)
    requires IsEntry(units, max, out)
    ensures forall i :: 0 <= i < |out| ==> Harmless(out[i])
  {
    var k :| 0 <= k <= |units| && Keeps(units, max, k) && out == Entry(units, k);
    EntryPrintable(units, k);
    assert Printable(out);
  }

  /** The number a truncation marker states. */
  function MarkerCount(marker: seq<Scalar>): Option<nat> {
    var tail := Ascii(" bytes truncated]");
    if |marker| < 20 || marker[..3] != [32, 91, 43] || marker[|marker| - 17..] != tail then None
    else
      var digits := marker[3..|marker| - 17];
      if forall i :: 0 <= i < |digits| ==> IsDigit(digits[i]) then Some(DecimalValue(digits)) else None
  }

  lemma MarkerRoundTrip(rest: nat)
    ensures MarkerCount(LineMarker(rest)) == Some(rest)
  {
    var marker := LineMarker(rest);
    assert marker[3..|marker| - 17] == Decimal(rest);
    assert marker[|marker| - 17..] == Ascii(" bytes truncated]");
    assert marker[..3] == [32, 91, 43];
    DecimalRoundTrip(rest);
  }

  /** What an entry tells: a whole line reads back as its bytes; of a truncated
      one, the text before the marker reads back as exactly the kept bytes, and
      the marker states how many bytes are left out. */
  lemma {:induction false} EntryReadsBack(units: seq<Unit>, k: nat)
    requires k <= |units|
    ensures k == |units| ==> Unescape(Entry(units, k)) == Some(RawBytes(units))
    ensures k < |units| ==>
      var head, marker := Pieces(units[..k]), LineMarker(|RawBytes(units)| - KeptBytes(units, k));
      && Entry(units, k) == head + marker
      && Unescape(head) == Some(RawBytes(units)[..KeptBytes(units, k)])
      && MarkerCount(marker) == Some(|RawBytes(units)| - KeptBytes(units, k))
  {
    EscapeRoundTrip(units);
    if k < |units| {
      TruncatedReadsBack(units, k);
    }
  }

  lemma {:induction false} TruncatedReadsBack(units: seq<Unit>, k: nat)
    requires k < |units|
    ensures Unescape(Pieces(units[..k])) == Some(RawBytes(units)[..KeptBytes(units, k)])
    ensures var missing := |RawBytes(units)| - KeptBytes(units, k);
      MarkerCount(LineMarker(missing)) == Some(missing)
  {
    MarkerRoundTrip(|RawBytes(units)| - KeptBytes(units, k));
    PrefixReadsBack(units, k);
  }

  lemma {:induction false} PrefixReadsBack(units: seq<Unit>, k: nat)
    requires k <= |units|
    ensures Unescape(Pieces(units[..k])) == Some(RawBytes(units)[..KeptBytes(units, k)])
  {
    EscapeRoundTrip(units[..k]);
    KeptBytesArePrefix(units, k);
  }

  lemma {:induction false} KeptBytesArePrefix(units: seq<Unit>, k: nat)
    requires k <= |units|
    ensures RawBytes(units)[..KeptBytes(units, k)] == RawBytes(units[..k])
  {
    var kept, rest := units[..k], units[k..];
    assert units == kept + rest;
    RawBytesConcat(kept, rest);
  }

  // ---------------------------------------------------------------------
  // When an entry determines its line

  /** The text ends in a truncation marker. */
  ghost predicate EndsInMarker(text: seq<Scalar>) {
    exists head, rest :: IsMarked(text, head, rest)
  }

  predicate IsMarked(text: seq<Scalar>, head: seq<Scalar>, rest: nat) {
    text == head + LineMarker(rest)
  }

  /** A text ends in at most one marker. */
  lemma MarkerIsUnique(a: seq<Scalar>, m: nat, b: seq<Scalar>, n: nat)
    requires a + LineMarker(m) == b + LineMarker(n)
    ensures a == b && m == n
  {
    if |LineMarker(m)| < |LineMarker(n)| {
      MarkersAlign(a, m, b, n);
    } else if |LineMarker(n)| < |LineMarker(m)| {
      MarkersAlign(b, n, a, m);
    } else {
      assert (a + LineMarker(m))[..|a|] == a && (b + LineMarker(n))[..|b|] == b;
      assert (a + LineMarker(m))[|a|..] == LineMarker(m) && (b + LineMarker(n))[|b|..] == LineMarker(n);
      MarkerRoundTrip(m);
      MarkerRoundTrip(n);
    }
  }

  /** A shorter marker cannot start inside a longer one: it starts with a blank,
      and the longer one has no blank there. */
  lemma MarkersAlign(a: seq<Scalar>, m: nat, b: seq<Scalar>, n: nat)
    requires |LineMarker(m)| < |LineMarker(n)|
    ensures a + LineMarker(m) != b + LineMarker(n)
  {
    var x, y := a + LineMarker(m), b + LineMarker(n);
    if |x| == |y| {
      var d := |a| - |b|;
      assert x[|a|] == LineMarker(m)[0] == 32;
      assert y[|a|] == LineMarker(n)[d];
      assert LineMarker(n)[1] == 91 && LineMarker(n)[2] == 43;
      assert d >= 3 ==> LineMarker(n)[d] == Decimal(n)[d - 3];
    }
  }

  /** The bytes a truncated entry leaves out. */
  ghost function Missing(units: seq<Unit>, k: nat): nat
    requires k <= |units|
  {
    |RawBytes(units)| - KeptBytes(units, k)
  }

  lemma TruncatedIsMarked(units: seq<Unit>, k: nat)
    requires k < |units|
    ensures IsMarked(Entry(units, k), Pieces(units[..k]), Missing(units, k))
    ensures EndsInMarker(Entry(units, k))
  {
    assert IsMarked(Entry(units, k), Pieces(units[..k]), Missing(units, k));
  }

  lemma {:induction false} SameTruncatedEntry(u: seq<Unit>, k: nat, v: seq<Unit>, l: nat)
    requires k < |u| && l < |v| && Entry(u, k) == Entry(v, l)
    requires IsMarked(Entry(u, k), Pieces(u[..k]), Missing(u, k))
    requires IsMarked(Entry(v, l), Pieces(v[..l]), Missing(v, l))
    ensures RawBytes(u)[..KeptBytes(u, k)] == RawBytes(v)[..KeptBytes(v, l)]
    ensures Missing(u, k) == Missing(v, l)
  {
    SameMarked(Entry(u, k), Pieces(u[..k]), Missing(u, k), Pieces(v[..l]), Missing(v, l));
    PrefixReadsBack(u, k);
    PrefixReadsBack(v, l);
  }

  lemma SameMarked(text: seq<Scalar>, a: seq<Scalar>, m: nat, b: seq<Scalar>, n: nat)
    requires IsMarked(text, a, m) && IsMarked(text, b, n)
    ensures a == b && m == n
  {
    MarkerIsUnique(a, m, b, n);
  }

  /** Two lines with the same entry. Whole ones are equal; truncated ones have
      the same kept bytes and miss equally many; and a whole and a truncated
      one can only meet in a text that ends in a marker. */
  lemma {:induction false} SameEntry(u: seq<Unit>, k: nat, v: seq<Unit>, l: nat)
    requires k <= |u| && l <= |v| && Entry(u, k) == Entry(v, l)
    ensures k == |u| && l == |v| ==> RawBytes(u) == RawBytes(v)
    ensures k < |u| && l < |v| ==>
      RawBytes(u)[..KeptBytes(u, k)] == RawBytes(v)[..KeptBytes(v, l)] && Missing(u, k) == Missing(v, l)
    ensures k < |u| || l < |v| ==> EndsInMarker(Entry(u, k))
  {
    if k < |u| {
      TruncatedIsMarked(u, k);
      if l < |v| {
        TruncatedIsMarked(v, l);
        SameTruncatedEntry(u, k, v, l);
      }
    } else if l < |v| {
      TruncatedIsMarked(v, l);
    } else {
      EscapeIsInjective(u, v);
    }
  }

  /** An entry that does not end in a marker determines its line. */
  lemma {:induction false} UnmarkedEntryDeterminesItsLine(u: seq<Unit>, k: nat, v: seq<Unit>, l: nat)
    requires k <= |u| && l <= |v| && Entry(u, k) == Entry(v, l) && !EndsInMarker(Entry(u, k))
    ensures k == |u| && l == |v| && RawBytes(u) == RawBytes(v)
  {
    SameEntry(u, k, v, l);
  }

  lemma {:induction false} PlainPieces(text: seq<Scalar>)
    requires forall i :: 0 <= i < |text| ==> text[i] != BACKSLASH && !MustEscape(text[i])
    ensures Pieces(Chars(text)) == text
  {
    if text != [] {
      PlainPieces(text[1..]);
      assert Chars(text)[1..] == Chars(text[1..]);
    }
  }

  /** A marker is plain ASCII text that stands for itself. */
  lemma MarkerIsPlain(rest: nat)
    ensures AsciiText(LineMarker(rest)) && Pieces(Chars(LineMarker(rest))) == LineMarker(rest)
  {
    var marker := LineMarker(rest);
    MarkerSize(rest);
    assert forall i :: 0 <= i < |marker| ==> 0x20 <= marker[i] < 0x7F;
    assert forall i :: 3 <= i < 3 + |Decimal(rest)| ==> marker[i] == Decimal(rest)[i - 3];
    assert BACKSLASH !in Ascii(" bytes truncated]");
    PlainText(marker);
  }

  lemma PlainText(text: seq<Scalar>)
    requires forall i :: 0 <= i < |text| ==> 0x20 <= text[i] < 0x7F && text[i] != BACKSLASH
    ensures AsciiText(text) && Pieces(Chars(text)) == text
  {
    PlainPieces(text);
  }

  /** The text is the entry of this line, of which k units are kept. */
  ghost predicate Renders(line: seq<Byte>, max: nat, k: nat, out: seq<Scalar>) {
    var units := SplitUnits(line);
    k <= |units| && Keeps(units, max, k) && out == Entry(units, k)
  }

  /** The text is the entry of this line. */
  ghost predicate RendersTo(line: seq<Byte>, max: nat, out: seq<Scalar>) {
    exists k :: Renders(line, max, k, out)
  }

  ghost predicate Truncates(line: seq<Byte>, max: nat, k: nat, out: seq<Scalar>) {
    Renders(line, max, k, out) && k < |SplitUnits(line)|
  }

  /** The kept part of a truncated line, continued by the text of its marker. */
  ghost function Lookalike(units: seq<Unit>, k: nat): seq<Unit>
    requires k <= |units|
  {
    units[..k] + Chars(LineMarker(Missing(units, k)))
  }

  lemma {:induction false} LookalikeReadsTheSame(units: seq<Unit>, k: nat)
    requires k < |units| && Canonical(units)
    ensures Canonical(Lookalike(units, k)) && Pieces(Lookalike(units, k)) == Entry(units, k)
  {
    var marker := LineMarker(Missing(units, k));
    MarkerIsPlain(Missing(units, k));
    CanonicalBeforeAscii(units, k, marker);
    PiecesBeforePlain(units[..k], marker);
    EntryOfTruncated(units, k, units[..k], marker);
  }

  lemma {:induction false} EntryOfTruncated(units: seq<Unit>, k: nat, kept: seq<Unit>, marker: seq<Scalar>)
    requires k < |units| && kept == units[..k] && marker == LineMarker(Missing(units, k))
    ensures Entry(units, k) == Pieces(kept) + marker
  {
  }

  lemma {:induction false} PiecesBeforePlain(head: seq<Unit>, text: seq<Scalar>)
    requires Pieces(Chars(text)) == text
    ensures Pieces(head + Chars(text)) == Pieces(head) + text
  {
    PiecesConcat(head, Chars(text));
  }

  /** A truncated entry within its bound never determines its line: another
      line, the kept bytes followed by the text of the marker, has the same
      entry whole. */
  lemma TruncatedEntryIsAmbiguous(line: seq<Byte>, max: nat, k: nat, out: seq<Scalar>) returns (other: seq<Byte>)
    requires Truncates(line, max, k, out) && Size(out) <= max
    ensures other == RawBytes(SplitUnits(line)[..k]) + LineMarker(Missing(SplitUnits(line), k))
    ensures other != line && Renders(other, max, |SplitUnits(other)|, out)
  {
    var units := SplitUnits(line);
    SplitUnitsSplit(line);
    LookalikeReadsTheSame(units, k);
    MarkerIsPlain(Missing(units, k));
    CutBytes(units, k, LineMarker(Missing(units, k)));
    other := RawBytes(Lookalike(units, k));
    SplitUnitsIsTheSplit(Lookalike(units, k));
    assert Size(Pieces(units)) > max;
  }

  /** The text could be read as a truncated line. */
  ghost predicate TruncatedEntry(max: nat, out: seq<Scalar>) {
    exists line, k :: Truncates(line, max, k, out)
  }

  /** Only one line has this entry. */
  ghost predicate Determined(max: nat, out: seq<Scalar>) {
    forall a, b :: RendersTo(a, max, out) && RendersTo(b, max, out) ==> a == b
  }

  /** An entry within its bound determines its line exactly when it is not the
      entry of a truncated line. */
  lemma {:induction false} DeterminedIffNotTruncated(line: seq<Byte>, max: nat, out: seq<Scalar>)
    requires RendersTo(line, max, out) && Size(out) <= max
    ensures Determined(max, out) <==> !TruncatedEntry(max, out)
  {
    if TruncatedEntry(max, out) {
      var cut, k :| Truncates(cut, max, k, out);
      var other := TruncatedEntryIsAmbiguous(cut, max, k, out);
      assert RendersTo(cut, max, out) && RendersTo(other, max, out);
    } else {
      forall a, b | RendersTo(a, max, out) && RendersTo(b, max, out) ensures a == b {
        WholeEntriesDetermine(a, b, max, out);
      }
    }
  }

  lemma WholeEntriesDetermine(a: seq<Byte>, b: seq<Byte>, max: nat, out: seq<Scalar>)
    requires RendersTo(a, max, out) && RendersTo(b, max, out) && !TruncatedEntry(max, out)
    ensures a == b
  {
    var k :| Renders(a, max, k, out);
    var l :| Renders(b, max, l, out);
    assert !Truncates(a, max, k, out) && !Truncates(b, max, l, out);
    SplitUnitsSplit(a);
    SplitUnitsSplit(b);
    EscapeIsInjective(SplitUnits(a), SplitUnits(b));
  }

  /** No unit takes more than eight bytes of text. */
  lemma PieceIsShort(u: Unit)
    ensures Size(Piece(u)) <= 8
  {
    if u.Char? && MustEscape(u.c) && u.c >= 0x80 {
      HexIsShort(u.c);
      var text := UnicodeEscape(u.c);
      assert forall i :: 0 <= i < |text| ==> text[i] < 0x80;
      AsciiSize(text);
    } else if u.Raw? || MustEscape(u.c) || u.c == BACKSLASH {
      AsciiSize(Piece(u));
    } else {
      assert Piece(u)[1..] == [];
    }
  }

  lemma {:induction false} HexIsShort(n: nat)
    requires n < 0x10000
    ensures |Hex(n)| <= 4
  {
    assert |Hex(n / 4096)| == 1;
    assert n / 16 / 16 / 16 == n / 4096;
    assert |Hex(n / 256)| <= 2 && |Hex(n / 16)| <= 3;
  }

  /** A truncated entry comes close to its bound: a shorter text is whole. */
  lemma {:induction false} TruncatedEntryIsLong(units: seq<Unit>, max: nat, k: nat)
    requires k < |units| && Keeps(units, max, k)
    ensures Size(Entry(units, k)) + MarkerLength(|RawBytes(units)|) > max + 13
  {
    PiecesGrowOnce(units, k);
    PieceIsShort(units[k]);
    SizeConcat(Pieces(units[..k]), LineMarker(Missing(units, k)));
    MarkerSize(Missing(units, k));
  }

  /** With the production limits an entry of at most 4082 bytes determines its
      line. */
  lemma {:induction false} ShortEntryDeterminesItsLine(a: seq<Byte>, b: seq<Byte>, out: seq<Scalar>)
    requires |a| <= MAX_TOTAL && |b| <= MAX_TOTAL && Size(out) <= MAX_LINE - 14
    requires RendersTo(a, MAX_LINE, out) && RendersTo(b, MAX_LINE, out)
    ensures a == b && Unescape(out) == Some(a)
  {
    ShortEntryIsWhole(a, out);
    ShortEntryIsWhole(b, out);
  }

  lemma {:induction false} ShortEntryIsWhole(line: seq<Byte>, out: seq<Scalar>)
    requires |line| <= MAX_TOTAL && Size(out) <= MAX_LINE - 14 && RendersTo(line, MAX_LINE, out)
    ensures Unescape(out) == Some(line)
  {
    var k :| Renders(line, MAX_LINE, k, out);
    SplitUnitsSplit(line);
    ShortKeepsAll(SplitUnits(line), k, line, out);
  }

  lemma {:induction false} ShortKeepsAll(units: seq<Unit>, k: nat, line: seq<Byte>, out: seq<Scalar>)
    requires k <= |units| && Keeps(units, MAX_LINE, k) && out == Entry(units, k)
    requires RawBytes(units) == line && |line| <= MAX_TOTAL && Size(out) <= MAX_LINE - 14
    ensures Unescape(out) == Some(line)
  {
    if k < |units| {
      ProductionMarker(|line|);
      TruncatedEntryIsLong(units, MAX_LINE, k);
    } else {
      EscapeRoundTrip(units);
    }
  }

  // ---------------------------------------------------------------------
  // The bounded tail

  /** Where a tail of at most `max` bytes of an oversized source starts: at the
      first line start that leaves it short enough, or, when there is none,
      with exactly the last `max` bytes. */
  predicate TailStart(src: seq<Byte>, max: nat, start: nat)
    requires |src| > max
  {
    var lead := |src| - max - 1;
    if exists p :: lead <= p < |src| && src[p] == NEWLINE
    then lead < start <= |src| && src[start - 1] == NEWLINE
         && forall p :: lead <= p < start - 1 ==> src[p] != NEWLINE
    else start == |src| - max
  }

  /** A newline stands just before this place. */
  predicate AfterNewline(src: seq<Byte>, p: nat) {
    0 < p <= |src| && src[p - 1] == 10
  }

  /** The start of the longest tail of at most `max` bytes that begins after a
      newline; and of the last `max` bytes when there is no such tail. */
  ghost predicate LongestTail(src: seq<Byte>, max: nat, start: nat) {
    && start <= |src| <= start + max
    && (forall p: nat :: AfterNewline(src, p) && |src| <= p + max ==> AfterNewline(src, start) && start <= p)
    && (AfterNewline(src, start) || |src| == start + max)
  }

  lemma TailIsLongest(src: seq<Byte>, max: nat, start: nat)
    requires |src| > max && TailStart(src, max, start)
    ensures LongestTail(src, max, start)
  {
    forall p: nat | AfterNewline(src, p) && |src| <= p + max ensures AfterNewline(src, start) && start <= p {
      assert src[p - 1] == NEWLINE;
    }
  }

  /** Keep the newest bytes of a source from a line start on; no byte is lost
      uncounted. */
  method ReadBounded(src: seq<Byte>, max: nat) returns (dropped: nat, body: seq<Byte>)
    ensures dropped <= |src| && body == src[dropped..] && |body| <= max
    ensures |src| <= max ==> dropped == 0
    ensures |src| > max ==> TailStart(src, max, dropped) && LongestTail(src, max, dropped)
  {
    var start := Monus(Monus(|src|, max), 1);
    body := src[start..];
    dropped := start;
    if |src| > max {
      var nl := 0;
      while nl < |body| && body[nl] != NEWLINE
        invariant nl <= |body|
        invariant forall i :: 0 <= i < nl ==> body[i] != NEWLINE
      {
        nl := nl + 1;
      }
      assert forall p :: start <= p < start + |body| ==> src[p] == body[p - start];
      var cut := if nl < |body| then nl + 1 else 1;
      cut := if cut <= |body| then cut else |body|;
      body := body[cut..];
      dropped := dropped + cut;
      TailIsLongest(src, max, dropped);
    }
  }

  // ---------------------------------------------------------------------
  // A whole transcript

  /** Plain ASCII text. */
  predicate Plain(text: seq<int>) {
    forall i :: 0 <= i < |text| ==> 0x20 <= text[i] < 0x7F
  }

  function Title(): (text: seq<Byte>)
    ensures Plain(text)
  {
    Ascii("=== nmbl-init: ")
  }

  function EarlierText(): (text: seq<Byte>)
    ensures Plain(text)
  {
    Title() + Ascii("log truncated, ") + Ascii("earlier ")
  }

  function LaterText(): (text: seq<Byte>)
    ensures Plain(text)
  {
    Title() + Ascii("log truncated, ") + Ascii("later ")
  }

  function Header(dropped: nat): (text: seq<Scalar>)
    ensures Printable(text)
  {
    EarlierText() + Decimal(dropped) + Ascii(" bytes dropped ===")
  }

  function Trailer(left: nat): (text: seq<Scalar>)
    ensures Printable(text)
  {
    LaterText() + Decimal(left) + Ascii(" lines dropped ===")
  }

  function NonEmpty(pieces: seq<seq<Byte>>): (lines: seq<seq<Byte>>)
    ensures |lines| <= |pieces|
  {
    if pieces == [] then []
    else if Last(pieces) == [] then NonEmpty(Init(pieces))
    else NonEmpty(Init(pieces)) + [Last(pieces)]
  }

  /** The splitter is a UTF-8 decoder. */
  ghost predicate Decodes(split: seq<Byte> -> seq<Unit>) {
    forall raw :: split(raw) == SplitUnits(raw)
  }

  /** The entry announcing dropped bytes, if there is one. */
  function HeaderEntries(dropped: nat): (out: seq<seq<Scalar>>)
    ensures |out| <= 1 && AllPrintable(out)
  {
    if dropped > 0 then [Header(dropped)] else []
  }

  /** The entry counting the lines left over, if there is one. */
  function TrailerEntries(left: nat): (out: seq<seq<Scalar>>)
    ensures |out| <= 1 && AllPrintable(out)
  {
    if left > 0 then [Trailer(left)] else []
  }

  /** The entries of the first lines, one each. */
  ghost predicate IsRendering(lines: seq<seq<Byte>>, maxLine: nat, maxLines: nat,
                              split: seq<Byte> -> seq<Unit>, rendered: seq<seq<Scalar>>) {
    && |rendered| == (if |lines| <= maxLines then |lines| else maxLines)
    && forall i :: 0 <= i < |rendered| ==> IsEntry(split(lines[i]), maxLine, rendered[i])
  }

  /** The entries of a transcript: a header when bytes were dropped, one entry
      for each of the first lines, a trailer counting the lines left over. */
  ghost predicate IsImport(dropped: nat, body: seq<Byte>, maxLine: nat, maxLines: nat,
                           split: seq<Byte> -> seq<Unit>, out: seq<seq<Scalar>>) {
    var lines := NonEmpty(Split(body));
    exists rendered :: IsRendering(lines, maxLine, maxLines, split, rendered)
      && out == HeaderEntries(dropped) + rendered + TrailerEntries(Monus(|lines|, |rendered|))
  }

  /** Turn a bounded transcript into journal entries. */
  method Entries(dropped: nat, body: seq<Byte>, maxLine: nat, maxLines: nat, split: seq<Byte> -> seq<Unit>)
    returns (out: seq<seq<Scalar>>)
    ensures IsImport(dropped, body, maxLine, maxLines, split, out)
  {
    out := HeaderEntries(dropped);
    var rendered, left := RenderLines(Split(body), maxLine, maxLines, split);
    assert IsRendering(NonEmpty(Split(body)), maxLine, maxLines, split, rendered);
    out := out + rendered + TrailerEntries(left);
  }

  /** Render the first non-empty lines and count the others. */
  method RenderLines(pieces: seq<seq<Byte>>, maxLine: nat, maxLines: nat, split: seq<Byte> -> seq<Unit>)
    returns (out: seq<seq<Scalar>>, left: nat)
    ensures |out| + left == |NonEmpty(pieces)| && |out| <= maxLines && (left > 0 ==> |out| == maxLines)
    ensures forall j :: 0 <= j < |out| ==> IsEntry(split(NonEmpty(pieces)[j]), maxLine, out[j])
  {
    out, left := [], 0;
    for i := 0 to |pieces|
      invariant |out| + left == |NonEmpty(pieces[..i])| && |out| <= maxLines && (left > 0 ==> |out| == maxLines)
      invariant forall j :: 0 <= j < |out| ==> IsEntry(split(NonEmpty(pieces[..i])[j]), maxLine, out[j])
    {
      assert Init(pieces[..i + 1]) == pieces[..i];
      if pieces[i] != [] {
        if |out| < maxLines {
          var entry := RenderLine(split(pieces[i]), maxLine);
          out := out + [entry];
        } else {
          left := left + 1;
        }
      }
    }
    assert pieces[..|pieces|] == pieces;
  }

  predicate AllPrintable(texts: seq<seq<Scalar>>) {
    forall i :: 0 <= i < |texts| ==> Printable(texts[i]) && NEWLINE !in texts[i]
  }

  lemma AllPrintableConcat(a: seq<seq<Scalar>>, b: seq<seq<Scalar>>, c: seq<seq<Scalar>>)
    requires AllPrintable(a) && AllPrintable(b) && AllPrintable(c)
    ensures AllPrintable(a + b + c)
  {
  }

  lemma RenderingIsPrintable(lines: seq<seq<Byte>>, maxLine: nat, maxLines: nat,
                             split: seq<Byte> -> seq<Unit>, rendered: seq<seq<Scalar>>)
    requires IsRendering(lines, maxLine, maxLines, split, rendered)
    ensures AllPrintable(rendered)
  {
    forall i | 0 <= i < |rendered| ensures Printable(rendered[i]) && NEWLINE !in rendered[i] {
      var units := split(lines[i]);
      assert IsEntry(units, maxLine, rendered[i]);
      var k :| 0 <= k <= |units| && rendered[i] == Entry(units, k);
      EntryPrintable(units, k);
    }
  }

  /** Every entry of an import is printable, so none spans lines, and there are
      at most two more of them than the line limit. */
  lemma ImportIsPrintable(dropped: nat, body: seq<Byte>, maxLine: nat, maxLines: nat,
                          split: seq<Byte> -> seq<Unit>, out: seq<seq<Scalar>>)
    requires IsImport(dropped, body, maxLine, maxLines, split, out)
    ensures AllPrintable(out) && |out| <= maxLines + 2
  {
    var lines := NonEmpty(Split(body));
    var rendered :| IsRendering(lines, maxLine, maxLines, split, rendered)
      && out == HeaderEntries(dropped) + rendered + TrailerEntries(Monus(|lines|, |rendered|));
    RenderingIsPrintable(lines, maxLine, maxLines, split, rendered);
    AllPrintableConcat(HeaderEntries(dropped), rendered, TrailerEntries(Monus(|lines|, |rendered|)));
  }

  /** When nothing is dropped and every line fits, the entries read back as
      exactly the non-empty lines of the transcript, in order. */
  lemma {:induction false} ImportReadsBack(body: seq<Byte>, maxLine: nat, maxLines: nat,
                                           split: seq<Byte> -> seq<Unit>, out: seq<seq<Scalar>>)
    requires Decodes(split) && IsImport(0, body, maxLine, maxLines, split, out)
    requires |NonEmpty(Split(body))| <= maxLines
    requires AllFit(NonEmpty(Split(body)), maxLine)
    ensures |out| == |NonEmpty(Split(body))|
    ensures forall i :: 0 <= i < |out| ==> Unescape(out[i]) == Some(NonEmpty(Split(body))[i])
  {
    WholeImport(NonEmpty(Split(body)), body, maxLine, maxLines, split, out);
  }

  /** Every line fits its entry whole. */
  ghost predicate AllFit(lines: seq<seq<Byte>>, maxLine: nat) {
    forall i :: 0 <= i < |lines| ==> Size(Pieces(SplitUnits(lines[i]))) <= maxLine
  }

  lemma {:induction false} WholeImport(lines: seq<seq<Byte>>, body: seq<Byte>, maxLine: nat, maxLines: nat,
                                       split: seq<Byte> -> seq<Unit>, out: seq<seq<Scalar>>)
    requires lines == NonEmpty(Split(body)) && |lines| <= maxLines
    requires Decodes(split) && IsImport(0, body, maxLine, maxLines, split, out) && AllFit(lines, maxLine)
    ensures |out| == |lines| && forall i :: 0 <= i < |out| ==> Unescape(out[i]) == Some(lines[i])
  {
    OnlyRenderings(lines, body, maxLine, maxLines, split, out);
    RenderingReadsBack(lines, maxLine, maxLines, split, out);
  }

  /** Without dropped bytes and left-over lines there are only the lines. */
  lemma {:induction false} OnlyRenderings(lines: seq<seq<Byte>>, body: seq<Byte>, maxLine: nat, maxLines: nat,
                                          split: seq<Byte> -> seq<Unit>, out: seq<seq<Scalar>>)
    requires lines == NonEmpty(Split(body)) && |lines| <= maxLines && IsImport(0, body, maxLine, maxLines, split, out)
    ensures IsRendering(lines, maxLine, maxLines, split, out)
  {
    var rendered :| IsRendering(lines, maxLine, maxLines, split, rendered)
      && out == HeaderEntries(0) + rendered + TrailerEntries(Monus(|lines|, |rendered|));
    OnlyThat(rendered, Monus(|lines|, |rendered|));
  }

  lemma OnlyThat(rendered: seq<seq<Scalar>>, left: nat)
    requires left == 0
    ensures HeaderEntries(0) + rendered + TrailerEntries(left) == rendered
  {
    assert HeaderEntries(0) == [] && TrailerEntries(left) == [];
  }

  lemma RenderingReadsBack(lines: seq<seq<Byte>>, maxLine: nat, maxLines: nat, split: seq<Byte> -> seq<Unit>,
                           out: seq<seq<Scalar>>)
    requires Decodes(split) && AllFit(lines, maxLine) && |lines| <= maxLines
    requires IsRendering(lines, maxLine, maxLines, split, out)
    ensures |out| == |lines| && forall i :: 0 <= i < |out| ==> Unescape(out[i]) == Some(lines[i])
  {
    forall i | 0 <= i < |out| ensures Unescape(out[i]) == Some(lines[i]) {
      assert IsEntry(split(lines[i]), maxLine, out[i]) && split(lines[i]) == SplitUnits(lines[i]);
      WholeEntryReadsBack(lines[i], maxLine, out[i]);
    }
  }

  lemma {:induction false} WholeEntryReadsBack(line: seq<Byte>, maxLine: nat, out: seq<Scalar>)
    requires IsEntry(SplitUnits(line), maxLine, out) && Size(Pieces(SplitUnits(line))) <= maxLine
    ensures Unescape(out) == Some(line)
  {
    SplitUnitsSplit(line);
    EscapeRoundTrip(SplitUnits(line));
  }

  // ---------------------------------------------------------------------
  // The journal datagram

  /** The UTF-8 encoding of text. */
  function TextBytes(text: seq<Scalar>): seq<Byte> {
    if text == [] then [] else Utf8(text[0]) + TextBytes(text[1..])
  }

  function IdentifierField(): (field: seq<Byte>)
    ensures Plain(field)
  {
    Ascii("SYSLOG_") + Ascii("IDENTIFIER=") + Ascii("nmbl-init")
  }

  function PriorityField(): (field: seq<Byte>)
    ensures Plain(field)
  {
    Ascii("PRIORITY=6")
  }

  function MessageField(message: seq<Scalar>): seq<Byte> {
    Ascii("MESSAGE=") + TextBytes(message)
  }

  function Datagram(message: seq<Scalar>): seq<Byte> {
    IdentifierField() + [NEWLINE] + PriorityField() + [NEWLINE] + MessageField(message) + [NEWLINE]
  }

  lemma {:induction false} TextBytesHaveNoNewline(text: seq<Scalar>)
    requires NEWLINE !in text
    ensures NEWLINE !in TextBytes(text)
  {
    if text != [] {
      TextBytesHaveNoNewline(text[1..]);
      assert text[0] != NEWLINE;
    }
  }

  lemma {:induction false} ThreeFields(a: seq<Byte>, b: seq<Byte>, c: seq<Byte>)
    requires NEWLINE !in a && NEWLINE !in b && NEWLINE !in c
    ensures Split(a + [NEWLINE] + b + [NEWLINE] + c + [NEWLINE]) == [a, b, c, []]
  {
    SplitFirst(c, []);
    SplitFirst(b, c + [NEWLINE] + []);
    SplitFirst(a, b + [NEWLINE] + (c + [NEWLINE] + []));
    assert a + [NEWLINE] + b + [NEWLINE] + c + [NEWLINE] == a + [NEWLINE] + (b + [NEWLINE] + (c + [NEWLINE] + []));
  }

  /** A printable message cannot add a field: the datagram is exactly the
      three fields, whatever the transcript contained. */
  lemma DatagramHasThreeFields(message: seq<Scalar>)
    requires NEWLINE !in message
    ensures Split(Datagram(message)) == [IdentifierField(), PriorityField(), MessageField(message), []]
  {
    TextBytesHaveNoNewline(message);
    ThreeFields(IdentifierField(), PriorityField(), MessageField(message));
  }
}
