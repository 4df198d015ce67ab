/** Why a stream is refused: which error each fault gives, and what is left of
    an accepted stream that is cut short or goes on. */
module BundleFaults {
  import opened Basics
  import opened Lines
  import opened Numerals
  import opened BundleStreams
  import opened BundleAcceptances

  // ---------------------------------------------------------------------
  // Lines

  /** A line has at most 256 bytes before its newline; a longer one is refused
      as such, and one that ends without a newline as truncated. */
  lemma {:induction false} LineFault(utf8: Utf8Check, input: seq<Byte>, pos: nat, n: nat)
    requires pos <= |input|
    requires pos + n <= |input| && 10 !in input[pos..pos + n] && (pos + n < |input| ==> input[pos + n] == 10)
    ensures ReadLine(utf8, input, pos)
      == if n > 256 then Err(LineTooLong)
         else if pos + n == |input| then Err(TruncatedHeader)
         else if !utf8(input[pos..pos + n]) then Err(NotUtf8)
         else Ok((input[pos..pos + n], pos + n + 1))
  {
    var rest := input[pos..];
    assert rest[..n] == input[pos..pos + n];
    FirstNewlineIs(rest, n);
  }

  // ---------------------------------------------------------------------
  // Fields

  predicate Sized(lines: seq<seq<Byte>>, k: nat)
    requires |lines| == 19
  {
    2 <= k < 18 && k != 5
  }

  /** The first of the size lines that says no size. */
  predicate FirstBadSize(lines: seq<seq<Byte>>, k: nat)
    requires |lines| == 19
  {
    Sized(lines, k) && !SizeLine(lines[k]) && forall j :: 0 <= j < k && Sized(lines, j) ==> SizeLine(lines[j])
  }

  /** The checks in their order: the two ids, the sizes, the flag, and whether
      the payloads are complete. A size is out of range when it is digits. */
  lemma {:induction false} FieldFaults(lines: seq<seq<Byte>>)
    requires |lines| == 19
    ensures !IdLine(lines[1]) ==> ParseFields(lines) == Err(BadId)
    ensures IdLine(lines[1]) && !IdLine(lines[5]) ==> ParseFields(lines) == Err(BadConfigId)
    ensures IdLine(lines[1]) && IdLine(lines[5]) ==>
      forall k :: 0 <= k < 19 && FirstBadSize(lines, k) ==>
        ParseFields(lines)
        == Err(if lines[k] != [] && (forall i :: 0 <= i < |lines[k]| ==> 48 <= lines[k][i] <= 57) then TooLarge
               else BadSize)
    ensures (IdLine(lines[1]) && IdLine(lines[5]) && (forall k :: 0 <= k < 19 && Sized(lines, k) ==> SizeLine(lines[k]))
             && lines[18] != [48] && lines[18] != [49]) ==> ParseFields(lines) == Err(BadFlag)
  {
    IdsOk(lines[1]);
    IdsOk(lines[5]);
    forall k | 0 <= k < 19 && FirstBadSize(lines, k)
      ensures ParseSizes(lines, SIZES) == Err(SizeFault(lines[k])) && !SizeLine(lines[k])
    {
      FirstBadCounts(lines, k);
    }
    if forall k :: 0 <= k < 19 && Sized(lines, k) ==> SizeLine(lines[k]) {
      AllSizesParse(lines);
    }
  }

  function SizeFault(line: seq<Byte>): Error {
    if line != [] && forall i :: 0 <= i < |line| ==> 48 <= line[i] <= 57 then TooLarge else BadSize
  }

  lemma {:induction false} AllSizesParse(lines: seq<seq<Byte>>)
    requires |lines| == 19 && forall k :: 0 <= k < 19 && Sized(lines, k) ==> SizeLine(lines[k])
    ensures ParseSizes(lines, SIZES).Ok?
  {
    forall i | 0 <= i < SIZES ensures SizeOf(lines[LineOfSize(i)]).Ok? {
      assert Sized(lines, LineOfSize(i));
      SizesOk(lines[LineOfSize(i)]);
    }
    SizesParse(lines, SIZES);
  }

  lemma {:induction false} FirstBadCounts(lines: seq<seq<Byte>>, k: nat)
    requires |lines| == 19 && k < 19 && FirstBadSize(lines, k)
    ensures ParseSizes(lines, SIZES) == Err(SizeFault(lines[k]))
  {
    var i: nat := if k < 5 then k - 2 else k - 3;
    assert LineOfSize(i) == k;
    forall j | 0 <= j < i ensures SizeOf(lines[LineOfSize(j)]).Ok? {
      assert Sized(lines, LineOfSize(j));
      SizesOk(lines[LineOfSize(j)]);
    }
    SizesParse(lines, i);
    SizesOk(lines[k]);
    BadSizeIs(lines[k]);
    assert ParseSizes(lines, i + 1) == Err(SizeFault(lines[k]));
    SizesFailForGood(lines, i + 1, SIZES);
  }

  lemma {:induction false} BadSizeIs(line: seq<Byte>)
    requires SizeOf(line).Err?
    ensures SizeOf(line) == Err(SizeFault(line))
  {
  }

  /** Complete payloads are checked last: first the required ones, then the two
      optional pairs. */
  lemma {:induction false} PayloadFaults(lines: seq<seq<Byte>>)
    requires |lines| == 19 && FieldsOk(lines) && !PayloadsComplete(lines)
    ensures ParseFields(lines)
      == if SizeIn(lines[2]) == 0 || SizeIn(lines[3]) == 0 || exists k :: 6 <= k < 14 && SizeIn(lines[k]) == 0 then
           Err(EmptyPayload)
         else if (SizeIn(lines[14]) == 0) != (SizeIn(lines[15]) == 0) then Err(IncompleteNetwork)
         else Err(IncompleteTools)
  {
    IdsOk(lines[1]);
    IdsOk(lines[5]);
    SizesAreTold(lines);
    SizesComplete(lines, Told(lines).sizes);
    RequiredIff(lines, Told(lines).sizes);
  }

  lemma {:induction false} SizesAreTold(lines: seq<seq<Byte>>)
    requires |lines| == 19 && FieldsOk(lines)
    ensures ParseSizes(lines, SIZES) == Ok(Told(lines).sizes)
  {
    forall k | 0 <= k < 19 && Sized(lines, k) ensures SizeLine(lines[k]) && SizeOf(lines[k]) == Ok(SizeIn(lines[k])) {
      SizesOk(lines[k]);
    }
    AllSizesParse(lines);
    var sizes := ParseSizes(lines, SIZES).value;
    forall i | 0 <= i < SIZES ensures sizes[i] == Told(lines).sizes[i] {
      assert Sized(lines, LineOfSize(i)) && SizeOf(lines[LineOfSize(i)]) == Ok(sizes[i]);
    }
    assert |sizes| == 15 == |Told(lines).sizes|;
    assert sizes == Told(lines).sizes;
  }

  lemma RequiredIff(lines: seq<seq<Byte>>, sizes: seq<nat>)
    requires FieldsOk(lines) && sizes == Told(lines).sizes
    ensures !RequiredPresent(sizes) <==>
      SizeIn(lines[2]) == 0 || SizeIn(lines[3]) == 0 || exists k :: 6 <= k < 14 && SizeIn(lines[k]) == 0
  {
    assert forall k :: 6 <= k < 14 ==> sizes[k - 3] == SizeIn(lines[k]);
    if !RequiredPresent(sizes) && sizes[0] > 0 && sizes[1] > 0 {
      var i :| 3 <= i < 11 && sizes[i] == 0;
      assert SizeIn(lines[i + 3]) == 0;
    }
  }

  // ---------------------------------------------------------------------
  // The magic

  /** The first line is judged when sixteen lines were read: the version before
      has an error of its own. */
  lemma {:induction false} MagicFaults(utf8: Utf8Check, input: seq<Byte>, lines: seq<seq<Byte>>)
    requires |lines| == 16 && AllPlain(utf8, lines) && Stands(input, 0, Unlines(lines))
    ensures lines[0] == Ascii("NMBL-EROFS-BUNDLE-3") ==> Receive(utf8, input) == Err(OldSender)
    ensures lines[0] != Ascii("NMBL-EROFS-BUNDLE-3") && lines[0] != Ascii("NMBL-EROFS-BUNDLE-4") ==>
      Receive(utf8, input) == Err(BadMagic)
  {
    OneRunReadsBack(utf8, input, 0, lines, Unlines(lines), |Unlines(lines)|);
  }

  // ---------------------------------------------------------------------
  // Too few bytes, and too many

  /** The lines are good, and behind them there are fewer bytes than they
      announce, or more. */
  predicate Starts(utf8: Utf8Check, input: seq<Byte>, lines: seq<seq<Byte>>) {
    GoodLines(utf8, lines) && Stands(input, 0, Unlines(lines))
  }

  predicate Short(utf8: Utf8Check, input: seq<Byte>, lines: seq<seq<Byte>>) {
    Starts(utf8, input, lines) && |input| < |Unlines(lines)| + Total(Told(lines).sizes, 15)
  }

  predicate Long(utf8: Utf8Check, input: seq<Byte>, lines: seq<seq<Byte>>) {
    Starts(utf8, input, lines) && |input| > |Unlines(lines)| + Total(Told(lines).sizes, 15)
  }

  /** The errors of a header are none of those of the payloads. */
  predicate PayloadError(e: Error) {
    e.TruncatedPayload? || e.TrailingData?
  }

  lemma {:induction false} LineErrors(utf8: Utf8Check, input: seq<Byte>, pos: nat, count: nat)
    requires pos <= |input| && ReadLines(utf8, input, pos, count).Err?
    ensures !PayloadError(ReadLines(utf8, input, pos, count).error)
  {
    if count > 0 && ReadLines(utf8, input, pos, count - 1).Err? {
      LineErrors(utf8, input, pos, count - 1);
    }
  }

  lemma {:induction false} SizeErrors(lines: seq<seq<Byte>>, count: nat)
    requires |lines| == LINES && count <= SIZES && ParseSizes(lines, count).Err?
    ensures !PayloadError(ParseSizes(lines, count).error)
  {
    if count > 0 && ParseSizes(lines, count - 1).Err? {
      SizeErrors(lines, count - 1);
    }
  }

  lemma {:induction false} HeaderErrors(utf8: Utf8Check, input: seq<Byte>)
    requires ReadHeader(utf8, input).Err?
    ensures !PayloadError(ReadHeader(utf8, input).error)
  {
    var first := ReadLines(utf8, input, 0, 16);
    if first.Err? {
      LineErrors(utf8, input, 0, 16);
    } else {
      RestErrors(utf8, input, first.value.0, first.value.1);
    }
  }

  lemma {:induction false} RestErrors(utf8: Utf8Check, input: seq<Byte>, first: seq<seq<Byte>>, mid: nat)
    requires mid <= |input| && |first| == 16
    ensures var rest := ReadLines(utf8, input, mid, 3);
      if rest.Err? then !PayloadError(rest.error)
      else var header := ParseFields(first + rest.value.0); header.Err? ==> !PayloadError(header.error)
  {
    var rest := ReadLines(utf8, input, mid, 3);
    if rest.Err? {
      LineErrors(utf8, input, mid, 3);
    } else if ParseSizes(first + rest.value.0, SIZES).Err? {
      SizeErrors(first + rest.value.0, SIZES);
    }
  }

  /** What a stream with good lines is answered depends on its length alone. */
  lemma {:induction false} LengthDecides(utf8: Utf8Check, input: seq<Byte>, lines: seq<seq<Byte>>)
    requires Starts(utf8, input, lines)
    ensures var whole := |Unlines(lines)| + Total(Told(lines).sizes, 15);
      if |input| < whole then Receive(utf8, input) == Err(TruncatedPayload)
      else if |input| > whole then Receive(utf8, input) == Err(TrailingData)
      else Receive(utf8, input).Ok?
  {
    GoodLinesAreRead(utf8, input, lines);
    var h, at := Told(lines), |Unlines(lines)|;
    var announced := Announced(h);
    MembersFit(input, at, announced, |announced|);
    AnnouncedTakes(h, |announced|);
    MemberErrors(input, at, announced, |announced|);
  }

  lemma {:induction false} MemberErrors(input: seq<Byte>, pos: nat, announced: seq<(File, nat)>, k: nat)
    requires pos <= |input| && k <= |announced|
    ensures ReadMembers(input, pos, announced, k).Err? ==>
      ReadMembers(input, pos, announced, k) == Err(TruncatedPayload)
  {
    if k > 0 {
      MemberErrors(input, pos, announced, k - 1);
    }
  }

  /** A stream with a payload error has good lines. */
  lemma {:induction false} PayloadErrorHasLines(utf8: Utf8Check, input: seq<Byte>) returns (lines: seq<seq<Byte>>)
    requires Receive(utf8, input).Err? && PayloadError(Receive(utf8, input).error)
    ensures Starts(utf8, input, lines)
  {
    if ReadHeader(utf8, input).Err? {
      HeaderErrors(utf8, input);
    }
    lines := HeaderHasGoodLines(utf8, input);
  }

  /** The two errors of the payloads, exactly. */
  lemma {:induction false} PayloadErrorsIff(utf8: Utf8Check, input: seq<Byte>)
    ensures Receive(utf8, input) == Err(TruncatedPayload) <==> exists lines :: Short(utf8, input, lines)
    ensures Receive(utf8, input) == Err(TrailingData) <==> exists lines :: Long(utf8, input, lines)
  {
    if lines :| Short(utf8, input, lines) {
      LengthDecides(utf8, input, lines);
    }
    if lines :| Long(utf8, input, lines) {
      LengthDecides(utf8, input, lines);
    }
    if Receive(utf8, input).Err? && PayloadError(Receive(utf8, input).error) {
      var lines := PayloadErrorHasLines(utf8, input);
      LengthDecides(utf8, input, lines);
      assert Short(utf8, input, lines) || Long(utf8, input, lines);
    }
  }

  // ---------------------------------------------------------------------
  // Cut streams

  lemma {:induction false} CutLine(utf8: Utf8Check, input: seq<Byte>, pos: nat, line: seq<Byte>)
    requires PlainLine(utf8, line) && pos <= |input| && |input| - pos <= |line|
    requires input[pos..] == line[..|input| - pos]
    ensures ReadLine(utf8, input, pos) == Err(TruncatedHeader)
  {
    var rest := input[pos..];
    assert 10 !in line;
    FirstNewlineIs(rest, |rest|);
  }

  /** A cut falls into the first of two parts, or behind it. */
  lemma CutParts(input: seq<Byte>, pos: nat, text: seq<Byte>, before: seq<Byte>, last: seq<Byte>)
    requires text == before + last && pos <= |input| <= pos + |text| && input[pos..] == text[..|input| - pos]
    ensures if |input| - pos < |before| then input[pos..] == before[..|input| - pos]
            else Stands(input, pos, before) && input[pos + |before|..] == last[..|input| - pos - |before|]
  {
    if |input| - pos >= |before| {
      assert input[pos..pos + |before|] == input[pos..][..|before|] == before;
      assert input[pos + |before|..] == input[pos..][|before|..];
    }
  }

  /** Lines that are cut short are truncated. */
  lemma {:induction false} CutLines(utf8: Utf8Check, input: seq<Byte>, pos: nat, lines: seq<seq<Byte>>, text: seq<Byte>)
    requires AllPlain(utf8, lines) && text == Unlines(lines)
    requires pos <= |input| < pos + |text| && input[pos..] == text[..|input| - pos]
    ensures ReadLines(utf8, input, pos, |lines|) == Err(TruncatedHeader)
  {
    var front, line := Init(lines), Last(lines);
    var before := Unlines(front);
    AllPlainParts(utf8, lines);
    CutParts(input, pos, text, before, line + [NEWLINE]);
    if |input| - pos < |before| {
      CutLines(utf8, input, pos, front, before);
    } else {
      ReadsBackLines(utf8, input, pos, front, before);
      var at := pos + |before|;
      assert (line + [NEWLINE])[..|input| - at] == line[..|input| - at];
      CutLine(utf8, input, at, line);
    }
  }

  /** A header that is cut short is truncated. */
  lemma {:induction false} CutHeader(utf8: Utf8Check, input: seq<Byte>, lines: seq<seq<Byte>>, text: seq<Byte>)
    requires GoodLines(utf8, lines) && text == Unlines(lines) && |input| < |text| && input == text[..|input|]
    ensures ReadHeader(utf8, input) == Err(TruncatedHeader)
  {
    var first, rest := lines[..16], lines[16..];
    assert first + rest == lines;
    var a, b := Unlines(first), Unlines(rest);
    UnlinesConcat(first, rest);
    assert forall k :: 0 <= k < 19 ==> PlainLine(utf8, lines[k]);
    assert text == a + b && input[0..] == input;
    if |input| < |a| {
      CutLines(utf8, input, 0, first, a);
    } else {
      assert input[0..|a|] == a && input[|a|..] == b[..|input| - |a|];
      OneRunReadsBack(utf8, input, 0, first, a, |a|);
      CutLines(utf8, input, |a|, rest, b);
      MagicsDiffer();
    }
  }

  /** A strict prefix of an accepted stream is truncated, in its header or in a
      payload, and nothing else is ever said of it. */
  lemma {:induction false} CutStreamIsTruncated(utf8: Utf8Check, input: seq<Byte>, n: nat, lines: seq<seq<Byte>>)
    requires Fills(utf8, input, lines) && n < |input|
    ensures Receive(utf8, input[..n]) == Err(if n < |Unlines(lines)| then TruncatedHeader else TruncatedPayload)
  {
    var text := Unlines(lines);
    assert input[..|text|] == text;
    if n < |text| {
      assert input[..n] == text[..n];
      CutHeader(utf8, input[..n], lines, text);
    } else {
      assert input[..n][..|text|] == text;
      LengthDecides(utf8, input[..n], lines);
    }
  }

  lemma {:induction false} AcceptedPart(utf8: Utf8Check, input: seq<Byte>) returns (n: nat)
    requires Receive(utf8, input) == Err(TrailingData)
    ensures n < |input| && Receive(utf8, input[..n]).Ok?
  {
    var lines := PayloadErrorHasLines(utf8, input);
    LengthDecides(utf8, input, lines);
    var text := Unlines(lines);
    n := |text| + Total(Told(lines).sizes, 15);
    assert input[..n][..|text|] == input[..|text|];
    LengthDecides(utf8, input[..n], lines);
  }

  /** An accepted stream with more behind it has data after its end. */
  lemma {:induction false} LongerTrails(utf8: Utf8Check, input: seq<Byte>, n: nat, part: seq<Byte>, more: seq<Byte>)
    requires n < |input| && part == input[..n] && more == input[n..] && Receive(utf8, part).Ok?
    ensures Receive(utf8, input) == Err(TrailingData)
  {
    assert input == part + more;
    AcceptedStreamsArePrefixFree(utf8, part, more);
  }

  /** A stream has data after its end exactly when a strict prefix of it is
      accepted. */
  lemma {:induction false} TrailingIff(utf8: Utf8Check, input: seq<Byte>)
    ensures Receive(utf8, input) == Err(TrailingData) <==>
      exists n :: 0 <= n < |input| && Receive(utf8, input[..n]).Ok?
  {
    if Receive(utf8, input) == Err(TrailingData) {
      var n := AcceptedPart(utf8, input);
    }
    if n :| 0 <= n < |input| && Receive(utf8, input[..n]).Ok? {
      LongerTrails(utf8, input, n, input[..n], input[n..]);
    }
  }
}
