/** What entries look like, with every character written out. */
module TranscriptTexts {
  import opened Basics
  import opened Numerals
  import opened Lines
  import opened Utf8Units
  import opened Transcript

  /** Every character of an import is harmless. */
  lemma ImportIsHarmless(dropped: nat, body: seq<Byte>, maxLine: nat, maxLines: nat,
                         split: seq<Byte> -> seq<Unit>, out: seq<seq<Scalar>>)
    requires IsImport(dropped, body, maxLine, maxLines, split, out)
    ensures forall n, i :: 0 <= n < |out| && 0 <= i < |out[n]| ==> Harmless(out[n][i])
  {
    ImportIsPrintable(dropped, body, maxLine, maxLines, split, out);
    forall n, i | 0 <= n < |out| && 0 <= i < |out[n]| ensures Harmless(out[n][i]) {
      assert Printable(out[n]);
    }
  }

  // ---------------------------------------------------------------------
  // What becomes of each character and stray byte

  predicate HexChar(c: int) {
    48 <= c <= 57 || 97 <= c <= 102
  }

  function HexCharValue(c: int): int
    requires HexChar(c)
  {
    if c <= 57 then c - 48 else c - 87
  }

  /** Two lower-case hexadecimal digits. */
  predicate TwoDigits(text: seq<int>, value: int) {
    |text| == 2 && HexChar(text[0]) && HexChar(text[1]) && HexCharValue(text[0]) * 16 + HexCharValue(text[1]) == value
  }

  /** Lower-case hexadecimal digits without leading zeros. */
  predicate Digits(text: seq<int>, value: int) {
    && text != [] && HexChar(text[|text| - 1])
    && if |text| == 1 then HexCharValue(text[0]) == value
       else text[0] != 48 && value >= 16 && HexCharValue(text[|text| - 1]) == value % 16
            && Digits(text[..|text| - 1], value / 16)
  }

  lemma {:induction false} HexIsDigits(n: nat)
    ensures Digits(Hex(n), n) && (n > 0 ==> Hex(n)[0] != 48)
  {
    if n >= 16 {
      HexIsDigits(n / 16);
      assert Hex(n)[..|Hex(n)| - 1] == Hex(n / 16);
    }
  }

  /** "\xhh" */
  predicate ByteEscape(text: seq<int>, value: int) {
    |text| == 4 && text[..2] == [92, 120] && TwoDigits(text[2..], value)
  }

  /** "\u{h..h}" */
  predicate BracedEscape(text: seq<int>, value: int) {
    |text| > 4 && text[..3] == [92, 117, 123] && text[|text| - 1] == 125 && Digits(text[3..|text| - 1], value)
  }

  /** A stray byte is escaped with two digits; a backslash is doubled; a
      harmful character is escaped with two digits below 0x80 and in braces from
      there on; and every other character stands for itself. */
  lemma {:induction false} PieceForms(u: Unit)
    ensures
      if u.Raw? then ByteEscape(Piece(u), u.b)
      else if u.c == 92 then Piece(u) == [92, 92]
      else if Harmless(u.c) then Piece(u) == [u.c]
      else if u.c < 0x80 then ByteEscape(Piece(u), u.c)
      else BracedEscape(Piece(u), u.c)
  {
    if u.Raw? {
      ByteForm(u.b);
    } else if u.c != 92 && !Harmless(u.c) {
      if u.c < 0x80 { ByteForm(u.c); } else { BracedForm(u.c); }
    }
  }

  lemma ByteForm(b: Byte)
    ensures ByteEscape(HexEscape(b), b)
  {
  }

  lemma {:induction false} BracedForm(c: Scalar)
    ensures BracedEscape(UnicodeEscape(c), c)
  {
    HexIsDigits(c);
    assert UnicodeEscape(c)[3..|UnicodeEscape(c)| - 1] == Hex(c);
  }

  // ---------------------------------------------------------------------
  // Lines that need no escape

  /** The UTF-8 text of harmless characters without a backslash. */
  predicate Clean(text: seq<Scalar>) {
    forall i :: 0 <= i < |text| ==> Harmless(text[i]) && text[i] != 92
  }

  lemma {:induction false} CharsAreCanonical(text: seq<Scalar>)
    ensures Canonical(Chars(text)) && RawBytes(Chars(text)) == TextBytes(text)
  {
    if text != [] {
      assert Chars(text)[1..] == Chars(text[1..]);
      CharsAreCanonical(text[1..]);
    }
  }

  lemma {:induction false} CleanPieces(text: seq<Scalar>)
    requires Clean(text)
    ensures Pieces(Chars(text)) == text
  {
    if text != [] {
      assert Chars(text)[1..] == Chars(text[1..]);
      CleanPieces(text[1..]);
      PieceForms(Char(text[0]));
    }
  }

  /** Such a line is its own entry, if it fits. */
  lemma {:induction false} CleanLineIsItself(text: seq<Scalar>, max: nat, out: seq<Scalar>)
    requires Clean(text) && |TextBytes(text)| <= max
    requires IsEntry(SplitUnits(TextBytes(text)), max, out)
    ensures out == text
  {
    CharsAreCanonical(text);
    SplitUnitsIsTheSplit(Chars(text));
    CleanPieces(text);
    TextBytesSize(text);
  }

  lemma {:induction false} TextBytesSize(text: seq<Scalar>)
    ensures |TextBytes(text)| == Size(text)
  {
    if text != [] {
      TextBytesSize(text[1..]);
    }
  }

  // ---------------------------------------------------------------------
  // Fixed texts

  /** The encoding of one character of each length, from section 7 of RFC 3629,
      and of the right-to-left override. */
  lemma KnownEncodings()
    ensures Utf8(0x41) == [0x41] && Utf8(0x391) == [0xCE, 0x91] && Utf8(0x202E) == [0xE2, 0x80, 0xAE]
    ensures Utf8(0x2262) == [0xE2, 0x89, 0xA2] && Utf8(0x233B4) == [0xF0, 0xA3, 0x8E, 0xB4]
  {
  }

  /** " [+12 bytes truncated]" */
  lemma {:induction false} MarkerText(rest: nat)
    ensures LineMarker(rest) == Ascii(" [+") + Decimal(rest) + Ascii(" bytes truncated]")
  {
    assert Ascii(" [+") == [32, 91, 43];
  }

  /** Decimal numerals have no leading zero and are to the base ten. */
  lemma {:induction false} DecimalForm(n: nat)
    ensures n > 0 ==> Decimal(n)[0] != 48
    ensures Last(Decimal(n)) == 48 + n % 10
    ensures n >= 10 ==> Init(Decimal(n)) == Decimal(n / 10)
  {
    if n >= 10 {
      DecimalForm(n / 10);
    }
  }

  /** "=== nmbl-init: log truncated, earlier 12 bytes dropped ===" */
  function EarlierDropped(bytes: nat): seq<Scalar> {
    Ascii("=== nmbl-init: log truncated, earlier ") + Decimal(bytes) + Ascii(" bytes dropped ===")
  }

  /** "=== nmbl-init: log truncated, later 12 lines dropped ===" */
  function LaterDropped(lines: nat): seq<Scalar> {
    Ascii("=== nmbl-init: log truncated, later ") + Decimal(lines) + Ascii(" lines dropped ===")
  }

  lemma {:induction false} HeaderText(dropped: nat)
    ensures Header(dropped) == EarlierDropped(dropped)
  {
    EarlierWords();
  }

  lemma {:induction false} TrailerText(left: nat)
    ensures Trailer(left) == LaterDropped(left)
  {
    LaterWords();
  }

  lemma AsciiConcat(a: string, b: string)
    ensures Ascii(a + b) == Ascii(a) + Ascii(b)
  {
  }

  lemma EarlierWords()
    ensures EarlierText() == Ascii("=== nmbl-init: log truncated, earlier ")
  {
    AsciiConcat("=== nmbl-init: ", "log truncated, ");
    AsciiConcat("=== nmbl-init: " + "log truncated, ", "earlier ");
    assert "=== nmbl-init: " + "log truncated, " + "earlier " == "=== nmbl-init: log truncated, earlier ";
  }

  lemma LaterWords()
    ensures LaterText() == Ascii("=== nmbl-init: log truncated, later ")
  {
    AsciiConcat("=== nmbl-init: ", "log truncated, ");
    AsciiConcat("=== nmbl-init: " + "log truncated, ", "later ");
    assert "=== nmbl-init: " + "log truncated, " + "later " == "=== nmbl-init: log truncated, later ";
  }

  /** The entries of some lines, counted: first the header, if bytes were
      dropped; then one entry for each line there is room for, in order; then
      the trailer, if lines are left over. */
  ghost predicate Parts(dropped: nat, header: seq<Scalar>, lines: seq<seq<Byte>>, maxLine: nat, maxLines: nat,
                        split: seq<Byte> -> seq<Unit>, trailer: seq<Scalar>, out: seq<seq<Scalar>>) {
    var first, shown := if dropped > 0 then 1 else 0, if |lines| <= maxLines then |lines| else maxLines;
    && |out| == first + shown + (if |lines| > maxLines then 1 else 0)
    && (dropped > 0 ==> out[0] == header)
    && IsRendering(lines, maxLine, shown, split, out[first..first + shown])
    && (|lines| > maxLines ==> out[|out| - 1] == trailer)
  }

  /** The header tells the bytes dropped, and the trailer the lines. */
  lemma {:induction false} ImportParts(dropped: nat, body: seq<Byte>, maxLine: nat, maxLines: nat,
                                       split: seq<Byte> -> seq<Unit>, out: seq<seq<Scalar>>)
    requires IsImport(dropped, body, maxLine, maxLines, split, out)
    ensures var lines := NonEmpty(Split(body));
      Parts(dropped, EarlierDropped(dropped), lines, maxLine, maxLines, split,
            LaterDropped(Monus(|lines|, maxLines)), out)
  {
    var lines := NonEmpty(Split(body));
    var rendered :| IsRendering(lines, maxLine, maxLines, split, rendered)
      && out == HeaderEntries(dropped) + rendered + TrailerEntries(Monus(|lines|, |rendered|));
    HeaderText(dropped);
    TrailerText(Monus(|lines|, maxLines));
    TheseParts(dropped, HeaderEntries(dropped), EarlierDropped(dropped), lines, maxLine, maxLines, split, rendered,
               TrailerEntries(Monus(|lines|, |rendered|)), LaterDropped(Monus(|lines|, maxLines)), out);
  }

  lemma {:induction false} TheseParts(dropped: nat, before: seq<seq<Scalar>>, header: seq<Scalar>,
                                      lines: seq<seq<Byte>>,
                                      maxLine: nat, maxLines: nat, split: seq<Byte> -> seq<Unit>,
                                      rendered: seq<seq<Scalar>>, after: seq<seq<Scalar>>, trailer: seq<Scalar>,
                                      out: seq<seq<Scalar>>)
    requires IsRendering(lines, maxLine, maxLines, split, rendered) && out == before + rendered + after
    requires before == if dropped > 0 then [header] else []
    requires after == if |lines| > maxLines then [trailer] else []
    ensures Parts(dropped, header, lines, maxLine, maxLines, split, trailer, out)
  {
    assert out[|before|..|before| + |rendered|] == rendered;
  }

  lemma {:induction false} DatagramFields(message: seq<Scalar>)
    requires 10 !in message
    ensures Split(Datagram(message))
      == [Ascii("SYSLOG_IDENTIFIER=nmbl-init"), Ascii("PRIORITY=6"), Ascii("MESSAGE=") + TextBytes(message), []]
  {
    DatagramHasThreeFields(message);
    assert IdentifierField() == Ascii("SYSLOG_IDENTIFIER=nmbl-init");
  }

  // ---------------------------------------------------------------------
  // Which lines have entries

  /** Every piece that is not empty is kept, in order, and no other. */
  lemma {:induction false} NonEmptyKeeps(a: seq<seq<Byte>>, b: seq<seq<Byte>>)
    ensures NonEmpty(a + b) == NonEmpty(a) + NonEmpty(b)
    ensures forall piece :: NonEmpty([piece]) == if piece == [] then [] else [piece]
  {
    forall piece: seq<Byte> ensures NonEmpty([piece]) == if piece == [] then [] else [piece] {
      assert Init([piece]) == [] && Last([piece]) == piece;
    }
    if b == [] {
      assert a + b == a;
    } else {
      NonEmptyKeeps(a, Init(b));
      assert Init(a + b) == a + Init(b) && Last(a + b) == Last(b);
      if Last(b) != [] {
        assert NonEmpty(a) + NonEmpty(Init(b)) + [Last(b)] == NonEmpty(a) + (NonEmpty(Init(b)) + [Last(b)]);
      }
    }
  }
}
