/** Which streams are accepted, said without the reader: nineteen lines of the
    right form, then as many bytes as they announce, and nothing more. */
module BundleAcceptances {
  import opened Basics
  import opened Lines
  import opened Numerals
  import opened BundleStreams

  /** Lower-case hexadecimal digits, 128 of them. */
  predicate IdLine(line: seq<Byte>) {
    |line| == 128 && forall i :: 0 <= i < 128 ==> 48 <= line[i] <= 57 || 97 <= line[i] <= 102
  }

  /** A size of at most 64 GiB. */
  predicate SizeLine(line: seq<Byte>) {
    line != [] && (forall i :: 0 <= i < |line| ==> 48 <= line[i] <= 57) && DecimalValue(line) <= 68719476736
  }

  function SizeIn(line: seq<Byte>): nat
    requires SizeLine(line)
  {
    DecimalValue(line)
  }

  /** The lines 2 to 4 and 6 to 17 are sizes, 1 and 5 are ids, and 18 is the
      reboot flag. */
  predicate FieldsOk(lines: seq<seq<Byte>>) {
    && |lines| == 19 && IdLine(lines[1]) && IdLine(lines[5]) && (lines[18] == [48] || lines[18] == [49])
    && SizeLine(lines[2]) && SizeLine(lines[3]) && SizeLine(lines[4])
    && forall k :: 6 <= k < 18 ==> SizeLine(lines[k])
  }

  /** Image, configuration, kernel, initrd and rescue image come with their
      signatures; the network and tools images with theirs or not at all. */
  predicate PayloadsComplete(lines: seq<seq<Byte>>)
    requires FieldsOk(lines)
  {
    && SizeIn(lines[2]) > 0 && SizeIn(lines[3]) > 0 && (forall k :: 6 <= k < 14 ==> SizeIn(lines[k]) > 0)
    && (SizeIn(lines[14]) > 0 <==> SizeIn(lines[15]) > 0) && (SizeIn(lines[16]) > 0 <==> SizeIn(lines[17]) > 0)
  }

  /** The header the lines tell. */
  function Told(lines: seq<seq<Byte>>): Header
    requires FieldsOk(lines)
  {
    Header(lines[1], lines[5],
           [SizeIn(lines[2]), SizeIn(lines[3]), SizeIn(lines[4]), SizeIn(lines[6]), SizeIn(lines[7]),
            SizeIn(lines[8]), SizeIn(lines[9]), SizeIn(lines[10]), SizeIn(lines[11]), SizeIn(lines[12]),
            SizeIn(lines[13]), SizeIn(lines[14]), SizeIn(lines[15]), SizeIn(lines[16]), SizeIn(lines[17])],
           lines[18] == [49])
  }

  lemma {:induction false} SizesOk(line: seq<Byte>)
    ensures SizeOf(line).Ok? <==> SizeLine(line)
    ensures SizeLine(line) ==> SizeOf(line).value == SizeIn(line)
  {
    if line != [] && SizeOf(line) == Err(BadSize) {
      var i :| 0 <= i < |line| && !IsDigit(line[i]);
    }
  }

  lemma {:induction false} IdsOk(line: seq<Byte>)
    ensures ValidId(line) <==> IdLine(line)
  {
  }

  lemma {:induction false} SizesParse(lines: seq<seq<Byte>>, count: nat)
    requires |lines| == LINES && count <= SIZES
    ensures ParseSizes(lines, count).Ok? <==> forall i :: 0 <= i < count ==> SizeOf(lines[LineOfSize(i)]).Ok?
  {
    if count > 0 {
      SizesParse(lines, count - 1);
    }
  }

  /** The field checks accept exactly the right lines, and read what they say. */
  lemma {:induction false} ParsedIff(lines: seq<seq<Byte>>)
    requires |lines| == LINES
    ensures ParseFields(lines).Ok? <==> FieldsOk(lines) && PayloadsComplete(lines)
    ensures FieldsOk(lines) && PayloadsComplete(lines) ==> ParseFields(lines) == Ok(Told(lines))
  {
    IdsOk(lines[1]);
    IdsOk(lines[5]);
    SizesParse(lines, SIZES);
    forall k | 0 <= k < LINES
      ensures SizeOf(lines[k]).Ok? <==> SizeLine(lines[k])
      ensures SizeLine(lines[k]) ==> SizeOf(lines[k]).value == SizeIn(lines[k])
    {
      SizesOk(lines[k]);
    }
    AllSizeLines(lines);
    if FieldsOk(lines) {
      var sizes := ParseSizes(lines, SIZES).value;
      forall i | 0 <= i < SIZES ensures sizes[i] == Told(lines).sizes[i] {
        assert sizes[i] == SizeOf(lines[LineOfSize(i)]).value;
      }
      assert sizes == Told(lines).sizes;
      SizesComplete(lines, sizes);
    }
  }

  lemma AllSizeLines(lines: seq<seq<Byte>>)
    requires |lines| == LINES
    ensures (forall i :: 0 <= i < SIZES ==> SizeLine(lines[LineOfSize(i)]))
      <==> SizeLine(lines[2]) && SizeLine(lines[3]) && SizeLine(lines[4])
           && forall k :: 6 <= k < 18 ==> SizeLine(lines[k])
  {
    if forall i :: 0 <= i < SIZES ==> SizeLine(lines[LineOfSize(i)]) {
      assert SizeLine(lines[LineOfSize(0)]) && SizeLine(lines[LineOfSize(1)]) && SizeLine(lines[LineOfSize(2)]);
      forall k | 6 <= k < 18 ensures SizeLine(lines[k]) {
        assert SizeLine(lines[LineOfSize(k - 3)]);
      }
    }
  }

  lemma SizesComplete(lines: seq<seq<Byte>>, sizes: seq<nat>)
    requires FieldsOk(lines) && sizes == Told(lines).sizes
    ensures RequiredPresent(sizes) && Paired(sizes[11], sizes[12]) && Paired(sizes[13], sizes[14])
      <==> PayloadsComplete(lines)
  {
    assert sizes[3] == SizeIn(lines[6]) && sizes[4] == SizeIn(lines[7]) && sizes[5] == SizeIn(lines[8])
      && sizes[6] == SizeIn(lines[9]) && sizes[7] == SizeIn(lines[10]) && sizes[8] == SizeIn(lines[11])
      && sizes[9] == SizeIn(lines[12]) && sizes[10] == SizeIn(lines[13]);
  }

  // ---------------------------------------------------------------------
  // Whole streams

  /** Nineteen readable lines that say a complete header. */
  predicate GoodLines(utf8: Utf8Check, lines: seq<seq<Byte>>) {
    && FieldsOk(lines) && PayloadsComplete(lines) && lines[0] == Ascii("NMBL-EROFS-BUNDLE-4")
    && forall k :: 0 <= k < 19 ==> 10 !in lines[k] && |lines[k]| <= 256 && utf8(lines[k])
  }

  /** The lines, and behind them as many bytes as they announce. */
  predicate Fills(utf8: Utf8Check, input: seq<Byte>, lines: seq<seq<Byte>>) {
    && GoodLines(utf8, lines) && Stands(input, 0, Unlines(lines))
    && |input| == |Unlines(lines)| + Total(Told(lines).sizes, 15)
  }

  lemma {:induction false} LinesArePlain(utf8: Utf8Check, input: seq<Byte>, pos: nat, lines: seq<seq<Byte>>, end: nat)
    requires ReadsLines(utf8, input, pos, lines, end)
    ensures AllPlain(utf8, lines)
  {
    if lines != [] {
      var mid := LastLine(utf8, input, pos, lines, end);
      LinesArePlain(utf8, input, pos, Init(lines), mid);
      LineIsRead(utf8, input, mid);
      assert forall k :: 0 <= k < |lines| - 1 ==> lines[k] == Init(lines)[k];
    }
  }

  /** The header that was read, and its lines. */
  lemma {:induction false} HeaderHasGoodLines(utf8: Utf8Check, input: seq<Byte>) returns (lines: seq<seq<Byte>>)
    requires ReadHeader(utf8, input).Ok?
    ensures GoodLines(utf8, lines) && Stands(input, 0, Unlines(lines))
    ensures ReadHeader(utf8, input) == Ok((Told(lines), |Unlines(lines)|))
  {
    var (first, mid) := ReadLines(utf8, input, 0, 16).value;
    var (rest, at) := ReadLines(utf8, input, mid, 3).value;
    lines := first + rest;
    LinesAreRead(utf8, input, 0, first, mid);
    LinesAreRead(utf8, input, mid, rest, at);
    LinesArePlain(utf8, input, 0, first, mid);
    LinesArePlain(utf8, input, mid, rest, at);
    TwoRunsOfLines(input, mid, at, first, rest);
    ParsedIff(lines);
    assert lines[0] == first[0] && input[..at] == input[0..at];
    forall k | 0 <= k < 19 ensures PlainLine(utf8, lines[k]) {
      assert lines[k] == if k < 16 then first[k] else rest[k - 16];
    }
  }

  /** Good lines are read as their header. */
  lemma {:induction false} GoodLinesAreRead(utf8: Utf8Check, input: seq<Byte>, lines: seq<seq<Byte>>)
    requires GoodLines(utf8, lines) && Stands(input, 0, Unlines(lines))
    ensures ReadHeader(utf8, input) == Ok((Told(lines), |Unlines(lines)|))
  {
    var first, rest := lines[..16], lines[16..];
    assert first + rest == lines;
    var a, b := Unlines(first), Unlines(rest);
    UnlinesConcat(first, rest);
    assert forall k :: 0 <= k < 19 ==> PlainLine(utf8, lines[k]);
    StandsSplit(input, 0, a, b);
    OneRunReadsBack(utf8, input, 0, first, a, |a|);
    OneRunReadsBack(utf8, input, |a|, rest, b, |a| + |b|);
    MagicsDiffer();
    ParsedIff(lines);
  }

  /** How many bytes the first members take. */
  ghost function SizesUpTo(announced: seq<(File, nat)>, k: nat): nat
    requires k <= |announced|
  {
    if k == 0 then 0 else SizesUpTo(announced, k - 1) + announced[k - 1].1
  }

  /** The announced members can be read exactly when there are enough bytes. */
  lemma {:induction false} MembersFit(input: seq<Byte>, pos: nat, announced: seq<(File, nat)>, k: nat)
    requires pos <= |input| && k <= |announced|
    ensures ReadMembers(input, pos, announced, k).Ok? <==> pos + SizesUpTo(announced, k) <= |input|
    ensures ReadMembers(input, pos, announced, k).Ok? ==>
      ReadMembers(input, pos, announced, k).value.1 == pos + SizesUpTo(announced, k)
  {
    if k > 0 {
      MembersFit(input, pos, announced, k - 1);
    }
  }

  lemma {:induction false} AnnouncedTakes(h: Header, i: nat)
    requires ValidHeader(h) && i <= |Announced(h)|
    ensures SizesUpTo(Announced(h), i) == Total(h.sizes, PlaceOf(h, i))
  {
    SkipToPlace(h, i);
    if i > 0 {
      AnnouncedSizes(h, i - 1);
      AnnouncedTakes(h, i - 1);
    }
  }

  /** A stream is accepted exactly when it starts with good lines and goes on
      for as many bytes as they announce. */
  lemma {:induction false} AcceptedIff(utf8: Utf8Check, input: seq<Byte>)
    ensures Receive(utf8, input).Ok? <==> exists lines :: Fills(utf8, input, lines)
  {
    if ReadHeader(utf8, input).Ok? {
      var lines := HeaderHasGoodLines(utf8, input);
      HeaderThenBytes(utf8, input, lines);
    }
    if lines :| Fills(utf8, input, lines) {
      GoodLinesAreRead(utf8, input, lines);
      HeaderThenBytes(utf8, input, lines);
    }
  }

  /** And then its header is what the lines tell. */
  lemma {:induction false} AcceptedTells(utf8: Utf8Check, input: seq<Byte>, lines: seq<seq<Byte>>)
    requires Fills(utf8, input, lines)
    ensures Receive(utf8, input).Ok? && Receive(utf8, input).value.0 == Told(lines)
  {
    GoodLinesAreRead(utf8, input, lines);
    HeaderThenBytes(utf8, input, lines);
  }

  lemma {:induction false} HeaderThenBytes(utf8: Utf8Check, input: seq<Byte>, lines: seq<seq<Byte>>)
    requires GoodLines(utf8, lines) && Stands(input, 0, Unlines(lines))
    requires ReadHeader(utf8, input) == Ok((Told(lines), |Unlines(lines)|))
    ensures Receive(utf8, input).Ok? <==> Fills(utf8, input, lines)
    ensures Receive(utf8, input).Ok? ==> Receive(utf8, input).value.0 == Told(lines)
  {
    var h, at := Told(lines), |Unlines(lines)|;
    var announced := Announced(h);
    MembersFit(input, at, announced, |announced|);
    AnnouncedTakes(h, |announced|);
  }
}
