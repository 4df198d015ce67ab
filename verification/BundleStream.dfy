/** The framing of a streamed generation bundle (nmbl-host-tools/src/receive.rs):
    nineteen header lines, then the payloads whose lengths the header gave. */
module BundleStreams {
  import opened Basics
  import opened Lines
  import opened Numerals

  datatype Error =
    | LineTooLong | TruncatedHeader | NotUtf8 | OldSender | BadMagic | BadId | BadConfigId
    | BadSize | TooLarge | BadFlag | EmptyPayload | IncompleteNetwork | IncompleteTools
    | TruncatedPayload | TrailingData

  /** The header; the fifteen sizes stand in wire order. */
  datatype Header = Header(id: seq<Byte>, configId: seq<Byte>, sizes: seq<nat>, reboot: bool)

  /** The files of a bundle, by role. */
  datatype File =
    | Image | ImageSignature | System | Config | ConfigSignature | Kernel | KernelSignature
    | Initrd | InitrdSignature | Rescue | RescueSignature
    | Network | NetworkSignature | Tools | ToolsSignature

  datatype Member = Member(file: File, bytes: seq<Byte>)

  const MAX_PAYLOAD: nat := 64 * 0x4000_0000
  const MAX_LINE := 256
  const LINES := 19
  const SIZES := 15

  /** What reading at a position leaves: the value and the new position. */
  type Read<T> = Result<(T, nat), Error>

  function Magic(): seq<Byte> {
    Ascii("NMBL-EROFS-BUNDLE-4")
  }

  function PreviousMagic(): seq<Byte> {
    Ascii("NMBL-EROFS-BUNDLE-3")
  }

  // ---------------------------------------------------------------------
  // Lines

  /** One header line: at most MAX_LINE bytes before its newline. */
  function ReadLine(utf8: Utf8Check, input: seq<Byte>, pos: nat): (r: Read<seq<Byte>>)
    requires pos <= |input|
    ensures r.Ok? ==> pos < r.value.1 <= |input|
  {
    var rest := input[pos..];
    var n := IndexOf(rest, NEWLINE);
    if n < |rest| && n <= MAX_LINE then
      if utf8(rest[..n]) then Ok((rest[..n], pos + n + 1)) else Err(NotUtf8)
    else if |rest| > MAX_LINE then Err(LineTooLong)
    else Err(TruncatedHeader)
  }

  /** A line that was read stands at its place, with its newline. */
  lemma LineIsRead(utf8: Utf8Check, input: seq<Byte>, pos: nat)
    requires pos <= |input| && ReadLine(utf8, input, pos).Ok?
    ensures var (line, end) := ReadLine(utf8, input, pos).value;
      input[pos..end] == line + [NEWLINE] && NEWLINE !in line && |line| <= MAX_LINE
  {
    var rest := input[pos..];
    var n := IndexOf(rest, NEWLINE);
    assert input[pos..pos + n + 1] == rest[..n] + [NEWLINE];
  }

  /** Several lines with their newlines. */
  function Unlines(lines: seq<seq<Byte>>): seq<Byte> {
    if lines == [] then [] else Unlines(Init(lines)) + (Last(lines) + [NEWLINE])
  }

  /** The next `count` lines. */
  function ReadLines(utf8: Utf8Check, input: seq<Byte>, pos: nat, count: nat): (r: Read<seq<seq<Byte>>>)
    requires pos <= |input|
    ensures r.Ok? ==> pos <= r.value.1 <= |input| && |r.value.0| == count
  {
    if count == 0 then Ok(([], pos))
    else
      var before := ReadLines(utf8, input, pos, count - 1);
      if before.Err? then Err(before.error)
      else
        var line := ReadLine(utf8, input, before.value.1);
        if line.Err? then Err(line.error)
        else
          Ok((before.value.0 + [line.value.0], line.value.1))
  }

  /** The next lines are these, and they end there. */
  ghost predicate ReadsLines(utf8: Utf8Check, input: seq<Byte>, pos: nat, lines: seq<seq<Byte>>, end: nat) {
    pos <= |input| && ReadLines(utf8, input, pos, |lines|) == Ok((lines, end))
  }

  // ---------------------------------------------------------------------
  // Fields

  predicate ValidId(value: seq<Byte>) {
    |value| == 128 && forall i :: 0 <= i < |value| ==> HexDigitValue(value[i]).Some?
  }

  /** A payload size: digits only, at most MAX_PAYLOAD. */
  function SizeOf(value: seq<Byte>): (r: Result<nat, Error>)
    ensures r.Ok? ==> r.value <= MAX_PAYLOAD
  {
    if value == [] || exists i :: 0 <= i < |value| && !IsDigit(value[i]) then Err(BadSize)
    else if DecimalValue(value) > MAX_PAYLOAD then Err(TooLarge)
    else Ok(DecimalValue(value))
  }

  /** The line that holds size i; the config id stands between two of them. */
  function LineOfSize(i: nat): nat {
    if i < 3 then i + 2 else i + 3
  }

  /** The first `count` sizes of a header. */
  function ParseSizes(lines: seq<seq<Byte>>, count: nat): (r: Result<seq<nat>, Error>)
    requires |lines| == LINES && count <= SIZES
    ensures r.Ok? ==> |r.value| == count && forall i :: 0 <= i < count ==>
      SizeOf(lines[LineOfSize(i)]) == Ok(r.value[i]) && r.value[i] <= MAX_PAYLOAD
  {
    if count == 0 then Ok([])
    else
      var before := ParseSizes(lines, count - 1);
      if before.Err? then before
      else
        var size := SizeOf(lines[LineOfSize(count - 1)]);
        if size.Err? then Err(size.error) else Ok(before.value + [size.value])
  }

  /** The sizes that must not be zero: image, config, kernel, initrd and rescue
      with their signatures. */
  predicate RequiredPresent(sizes: seq<nat>)
    requires |sizes| == SIZES
  {
    sizes[0] > 0 && sizes[1] > 0 && forall i :: 3 <= i < 11 ==> sizes[i] > 0
  }

  predicate Paired(a: nat, b: nat) {
    a == 0 <==> b == 0
  }

  /** The checks on the nineteen lines, in the order they are made once the
      magic is known to be right. */
  function ParseFields(lines: seq<seq<Byte>>): (r: Result<Header, Error>)
    requires |lines| == LINES
    ensures r.Ok? ==> ValidHeader(r.value)
  {
    if !ValidId(lines[1]) then Err(BadId)
    else if !ValidId(lines[5]) then Err(BadConfigId)
    else
      var sizes := ParseSizes(lines, SIZES);
      if sizes.Err? then Err(sizes.error)
      else if lines[18] != [48] && lines[18] != [49] then Err(BadFlag)
      else if !RequiredPresent(sizes.value) then Err(EmptyPayload)
      else if !Paired(sizes.value[11], sizes.value[12]) then Err(IncompleteNetwork)
      else if !Paired(sizes.value[13], sizes.value[14]) then Err(IncompleteTools)
      else Ok(Header(lines[1], lines[5], sizes.value, lines[18] == [49]))
  }

  predicate ValidHeader(h: Header) {
    && ValidId(h.id) && ValidId(h.configId)
    && |h.sizes| == SIZES && (forall i :: 0 <= i < SIZES ==> h.sizes[i] <= MAX_PAYLOAD)
    && RequiredPresent(h.sizes) && Paired(h.sizes[11], h.sizes[12]) && Paired(h.sizes[13], h.sizes[14])
  }

  /** The header at the start of a stream. The magic is judged after sixteen
      lines, before the last three are read. */
  function ReadHeader(utf8: Utf8Check, input: seq<Byte>): (r: Read<Header>)
    ensures r.Ok? ==> r.value.1 <= |input| && ValidHeader(r.value.0)
  {
    var first := ReadLines(utf8, input, 0, 16);
    if first.Err? then Err(first.error)
    else if first.value.0[0] == PreviousMagic() then Err(OldSender)
    else if first.value.0[0] != Magic() then Err(BadMagic)
    else
      var rest := ReadLines(utf8, input, first.value.1, 3);
      if rest.Err? then Err(rest.error)
      else
        var header := ParseFields(first.value.0 + rest.value.0);
        if header.Err? then Err(header.error) else Ok((header.value, rest.value.1))
  }

  // ---------------------------------------------------------------------
  // Payloads

  /** The members a header announces, in stream order. */
  function Announced(h: Header): (members: seq<(File, nat)>)
    requires |h.sizes| == SIZES
  {
    [(Image, h.sizes[0]), (ImageSignature, h.sizes[1])]
    + (if h.sizes[2] > 0 then [(System, h.sizes[2])] else [])
    + [(Config, h.sizes[3]), (ConfigSignature, h.sizes[4]),
       (Kernel, h.sizes[5]), (KernelSignature, h.sizes[6]),
       (Initrd, h.sizes[7]), (InitrdSignature, h.sizes[8]),
       (Rescue, h.sizes[9]), (RescueSignature, h.sizes[10])]
    + (if h.sizes[11] > 0 then [(Network, h.sizes[11]), (NetworkSignature, h.sizes[12])] else [])
    + (if h.sizes[13] > 0 then [(Tools, h.sizes[13]), (ToolsSignature, h.sizes[14])] else [])
  }

  /** The members are the first of those announced. */
  predicate Matches(announced: seq<(File, nat)>, members: seq<Member>) {
    |members| <= |announced| && forall i :: 0 <= i < |members| ==>
      members[i].file == announced[i].0 && |members[i].bytes| == announced[i].1
  }

  /** The payloads of the first `count` announced members. */
  function ReadMembers(input: seq<Byte>, pos: nat, announced: seq<(File, nat)>, count: nat): (r: Read<seq<Member>>)
    requires pos <= |input| && count <= |announced|
    ensures r.Ok? ==> pos <= r.value.1 <= |input| && |r.value.0| == count
  {
    if count == 0 then Ok(([], pos))
    else
      var before := ReadMembers(input, pos, announced, count - 1);
      if before.Err? then Err(before.error)
      else
        var (members, at) := before.value;
        var (file, size) := announced[count - 1];
        if at + size > |input| then Err(TruncatedPayload)
        else
          Ok((members + [Member(file, input[at..at + size])], at + size))
  }

  /** The first announced payloads are these, and they end there. */
  ghost predicate ReadsMembers(input: seq<Byte>, pos: nat, announced: seq<(File, nat)>, members: seq<Member>,
                               end: nat) {
    && pos <= |input| && |members| <= |announced|
    && ReadMembers(input, pos, announced, |members|) == Ok((members, end))
  }

  /** The bytes of some members, one after the other. */
  function Contents(members: seq<Member>): seq<Byte> {
    if members == [] then [] else Contents(Init(members)) + Last(members).bytes
  }

  /** Header and members at the start of a stream, whatever follows. */
  function ReadBundle(utf8: Utf8Check, input: seq<Byte>): (r: Read<(Header, seq<Member>)>)
    ensures r.Ok? ==> r.value.1 <= |input|
  {
    var header := ReadHeader(utf8, input);
    if header.Err? then Err(header.error)
    else
      var announced := Announced(header.value.0);
      var members := ReadMembers(input, header.value.1, announced, |announced|);
      if members.Err? then Err(members.error)
      else Ok(((header.value.0, members.value.0), members.value.1))
  }

  /** A whole stream: nothing may follow the last member. */
  function Receive(utf8: Utf8Check, input: seq<Byte>): Result<(Header, seq<Member>), Error> {
    var bundle := ReadBundle(utf8, input);
    if bundle.Err? then Err(bundle.error)
    else if bundle.value.1 != |input| then Err(TrailingData)
    else Ok(bundle.value.0)
  }

  // ---------------------------------------------------------------------
  // No accepted stream is a prefix of another

  lemma {:induction false} FirstNewlineStays(s: seq<Byte>, more: seq<Byte>)
    requires IndexOf(s, NEWLINE) < |s|
    ensures IndexOf(s + more, NEWLINE) == IndexOf(s, NEWLINE)
  {
    if s[0] != NEWLINE {
      assert (s + more)[1..] == s[1..] + more;
      FirstNewlineStays(s[1..], more);
    }
  }

  lemma ReadLineStays(utf8: Utf8Check, input: seq<Byte>, pos: nat, more: seq<Byte>)
    requires pos <= |input| && ReadLine(utf8, input, pos).Ok?
    ensures ReadLine(utf8, input + more, pos) == ReadLine(utf8, input, pos)
  {
    var rest := input[pos..];
    assert (input + more)[pos..] == rest + more;
    FirstNewlineStays(rest, more);
    assert (rest + more)[..IndexOf(rest, NEWLINE)] == rest[..IndexOf(rest, NEWLINE)];
  }

  lemma {:induction false} ReadLinesStay(utf8: Utf8Check, input: seq<Byte>, pos: nat, count: nat, more: seq<Byte>)
    requires pos <= |input| && ReadLines(utf8, input, pos, count).Ok?
    ensures ReadLines(utf8, input + more, pos, count) == ReadLines(utf8, input, pos, count)
  {
    if count > 0 {
      ReadLinesStay(utf8, input, pos, count - 1, more);
      ReadLineStays(utf8, input, ReadLines(utf8, input, pos, count - 1).value.1, more);
    }
  }

  lemma ReadHeaderStays(utf8: Utf8Check, input: seq<Byte>, more: seq<Byte>)
    requires ReadHeader(utf8, input).Ok?
    ensures ReadHeader(utf8, input + more) == ReadHeader(utf8, input)
  {
    ReadLinesStay(utf8, input, 0, 16, more);
    ReadLinesStay(utf8, input, ReadLines(utf8, input, 0, 16).value.1, 3, more);
  }

  lemma {:induction false} ReadMembersStay(input: seq<Byte>, pos: nat, announced: seq<(File, nat)>, count: nat,
                                           more: seq<Byte>)
    requires pos <= |input| && count <= |announced| && ReadMembers(input, pos, announced, count).Ok?
    ensures ReadMembers(input + more, pos, announced, count) == ReadMembers(input, pos, announced, count)
  {
    if count > 0 {
      ReadMembersStay(input, pos, announced, count - 1, more);
      var at := ReadMembers(input, pos, announced, count - 1).value.1;
      assert (input + more)[at..at + announced[count - 1].1] == input[at..at + announced[count - 1].1];
    }
  }

  /** What was read does not change when more bytes follow. */
  lemma ReadBundleStays(utf8: Utf8Check, input: seq<Byte>, more: seq<Byte>)
    requires ReadBundle(utf8, input).Ok?
    ensures ReadBundle(utf8, input + more) == ReadBundle(utf8, input)
  {
    ReadHeaderStays(utf8, input, more);
    var (header, at) := ReadHeader(utf8, input).value;
    ReadMembersStay(input, at, Announced(header), |Announced(header)|, more);
  }

  /** Of two streams where one strictly extends the other, at most one is
      accepted: extensions of an accepted stream are rejected for their
      trailing data, and so its strict prefixes are rejected too. */
  lemma AcceptedStreamsArePrefixFree(utf8: Utf8Check, input: seq<Byte>, more: seq<Byte>)
    requires more != []
    ensures Receive(utf8, input).Ok? ==> Receive(utf8, input + more) == Err(TrailingData)
    ensures Receive(utf8, input + more).Ok? ==> Receive(utf8, input).Err?
  {
    if Receive(utf8, input).Ok? {
      ReadBundleStays(utf8, input, more);
    }
  }

  /** Nineteen lines that say this header. */
  ghost predicate Says(text: seq<Byte>, header: Header) {
    exists lines ::
      |lines| == LINES && lines[0] == Magic() && ParseFields(lines) == Ok(header) && text == Unlines(lines)
  }

  /** Every byte of an accepted stream is in a header line or a member: the
      stream is its nineteen lines followed by the announced payloads. */
  lemma AcceptedStreamIsItsParts(utf8: Utf8Check, input: seq<Byte>)
    requires Receive(utf8, input).Ok?
    ensures var (header, members) := Receive(utf8, input).value;
      && ValidHeader(header) && |members| == |Announced(header)| && Matches(Announced(header), members)
      && exists text :: Says(text, header) && input == text + Contents(members)
  {
    HeaderIsItsLines(utf8, input);
    MembersAreTheRest(utf8, input);
    TwoParts(input, ReadHeader(utf8, input).value.1, Receive(utf8, input).value);
  }

  lemma TwoParts(input: seq<Byte>, at: nat, bundle: (Header, seq<Member>))
    requires at <= |input| && Says(input[..at], bundle.0) && input[at..] == Contents(bundle.1)
    ensures exists text :: Says(text, bundle.0) && input == text + Contents(bundle.1)
  {
    assert input == input[..at] + input[at..];
  }

  /** What was read is what was announced, byte for byte. */
  lemma {:induction false} MembersAreRead(input: seq<Byte>, pos: nat, announced: seq<(File, nat)>,
                                          members: seq<Member>, end: nat)
    requires ReadsMembers(input, pos, announced, members, end)
    ensures pos <= end <= |input| && Matches(announced, members) && input[pos..end] == Contents(members)
  {
    if members != [] {
      var at := LastMember(input, pos, announced, members, end);
      MembersAreRead(input, pos, announced, Init(members), at);
      MoreIsRead(input, pos, at, announced, Init(members));
    }
  }

  /** The last member read, and where it starts. */
  lemma LastMember(input: seq<Byte>, pos: nat, announced: seq<(File, nat)>, members: seq<Member>, end: nat)
    returns (at: nat)
    requires members != [] && ReadsMembers(input, pos, announced, members, end)
    ensures ReadsMembers(input, pos, announced, Init(members), at)
    ensures pos <= at <= end <= |input| && end == at + announced[|members| - 1].1
    ensures members == Init(members) + [Member(announced[|members| - 1].0, input[at..end])]
  {
    var before := ReadMembers(input, pos, announced, |members| - 1).value;
    at := before.1;
    NextMember(input, pos, announced, before.0, at);
    assert Init(members) == before.0;
  }

  lemma MoreIsRead(input: seq<Byte>, pos: nat, at: nat, announced: seq<(File, nat)>, before: seq<Member>)
    requires |before| < |announced| && Matches(announced, before)
    requires pos <= at <= at + announced[|before|].1 <= |input| && input[pos..at] == Contents(before)
    ensures var (file, size) := announced[|before|];
      var members := before + [Member(file, input[at..at + size])];
      Matches(announced, members) && input[pos..at + size] == Contents(members)
  {
    var (file, size) := announced[|before|];
    ContentsSnoc(before, Member(file, input[at..at + size]));
    assert input[pos..at + size] == input[pos..at] + input[at..at + size];
  }

  lemma {:induction false} ContentsSnoc(before: seq<Member>, m: Member)
    ensures Contents(before + [m]) == Contents(before) + m.bytes
  {
    assert Init(before + [m]) == before;
  }

  lemma MembersAreTheRest(utf8: Utf8Check, input: seq<Byte>)
    requires Receive(utf8, input).Ok?
    ensures var (header, at) := ReadHeader(utf8, input).value;
      var members := Receive(utf8, input).value.1;
      && Receive(utf8, input).value.0 == header && |members| == |Announced(header)|
      && Matches(Announced(header), members) && input[at..] == Contents(members)
  {
    var (header, at) := ReadHeader(utf8, input).value;
    RestIsMembers(input, at, Announced(header), Receive(utf8, input).value.1);
  }

  lemma {:induction false} RestIsMembers(input: seq<Byte>, at: nat, announced: seq<(File, nat)>, members: seq<Member>)
    requires |members| == |announced| && ReadsMembers(input, at, announced, members, |input|)
    ensures Matches(announced, members) && |members| == |announced| && input[at..] == Contents(members)
  {
    assert input[at..] == input[at..|input|];
    MembersAreRead(input, at, announced, members, |input|);
  }

  lemma HeaderIsItsLines(utf8: Utf8Check, input: seq<Byte>)
    requires ReadHeader(utf8, input).Ok?
    ensures var (header, at) := ReadHeader(utf8, input).value; Says(input[..at], header)
  {
    var (first, mid) := ReadLines(utf8, input, 0, 16).value;
    var (rest, at) := ReadLines(utf8, input, mid, 3).value;
    LinesAreRead(utf8, input, 0, first, mid);
    LinesAreRead(utf8, input, mid, rest, at);
    TwoRunsOfLines(input, mid, at, first, rest);
    assert (first + rest)[0] == first[0];
  }

  lemma {:induction false} TwoRunsOfLines(input: seq<Byte>, mid: nat, at: nat, first: seq<seq<Byte>>,
                                          rest: seq<seq<Byte>>)
    requires mid <= at <= |input| && input[0..mid] == Unlines(first) && input[mid..at] == Unlines(rest)
    ensures input[..at] == Unlines(first + rest)
  {
    UnlinesConcat(first, rest);
    TwoRuns(input, mid, at);
  }

  lemma TwoRuns<T>(input: seq<T>, mid: nat, at: nat)
    requires mid <= at <= |input|
    ensures input[..at] == input[0..mid] + input[mid..at]
  {
  }

  /** What was read is the lines with their newlines. */
  lemma {:induction false} LinesAreRead(utf8: Utf8Check, input: seq<Byte>, pos: nat, lines: seq<seq<Byte>>, end: nat)
    requires ReadsLines(utf8, input, pos, lines, end)
    ensures pos <= end <= |input| && input[pos..end] == Unlines(lines)
  {
    if lines != [] {
      var mid := LastLine(utf8, input, pos, lines, end);
      LinesAreRead(utf8, input, pos, Init(lines), mid);
      LineIsRead(utf8, input, mid);
      UnlinesSnoc(Init(lines), Last(lines));
      assert input[pos..end] == input[pos..mid] + input[mid..end];
    }
  }

  /** The last line read, and where it starts. */
  lemma LastLine(utf8: Utf8Check, input: seq<Byte>, pos: nat, lines: seq<seq<Byte>>, end: nat) returns (mid: nat)
    requires lines != [] && ReadsLines(utf8, input, pos, lines, end)
    ensures ReadsLines(utf8, input, pos, Init(lines), mid) && pos <= mid <= end <= |input|
    ensures ReadLine(utf8, input, mid) == Ok((Last(lines), end))
    ensures lines == Init(lines) + [Last(lines)]
  {
    var before := ReadLines(utf8, input, pos, |lines| - 1).value;
    mid := before.1;
    assert Init(lines) == before.0;
  }

  lemma {:induction false} UnlinesSnoc(front: seq<seq<Byte>>, line: seq<Byte>)
    ensures Unlines(front + [line]) == Unlines(front) + (line + [NEWLINE])
  {
    assert Init(front + [line]) == front;
  }

  lemma {:induction false} UnlinesConcat(a: seq<seq<Byte>>, b: seq<seq<Byte>>)
    ensures Unlines(a + b) == Unlines(a) + Unlines(b)
  {
    if b == [] {
      assert a + b == a;
    } else {
      var front, line := Init(b), Last(b);
      assert b == front + [line];
      UnlinesConcat(a, front);
      UnlinesConcatStep(a, front, line);
    }
  }

  lemma {:induction false} UnlinesConcatStep(a: seq<seq<Byte>>, front: seq<seq<Byte>>, line: seq<Byte>)
    requires Unlines(a + front) == Unlines(a) + Unlines(front)
    ensures Unlines(a + (front + [line])) == Unlines(a) + Unlines(front + [line])
  {
    ConcatAssociative(a, front, [line]);
    UnlinesSnoc(a + front, line);
    UnlinesSnoc(front, line);
    ConcatAssociative(Unlines(a), Unlines(front), line + [NEWLINE]);
  }

  // ---------------------------------------------------------------------
  // Round trip

  /** The lines a sender writes for a header. */
  function HeaderLine(h: Header, k: nat): seq<Byte>
    requires |h.sizes| == SIZES && k < LINES
  {
    if k == 0 then Magic()
    else if k == 1 then h.id
    else if k == 5 then h.configId
    else if k == 18 then [if h.reboot then 49 else 48]
    else Decimal(h.sizes[if k < 5 then k - 2 else k - 3])
  }

  function HeaderLines(h: Header): (lines: seq<seq<Byte>>)
    requires |h.sizes| == SIZES
    ensures |lines| == LINES && forall k :: 0 <= k < LINES ==> lines[k] == HeaderLine(h, k)
  {
    seq(LINES, k requires 0 <= k < LINES && |h.sizes| == SIZES => HeaderLine(h, k))
  }

  function Render(h: Header, members: seq<Member>): seq<Byte>
    requires |h.sizes| == SIZES
  {
    Unlines(HeaderLines(h)) + Contents(members)
  }

  predicate AsciiText(s: seq<Byte>) {
    forall i :: 0 <= i < |s| ==> s[i] < 128
  }

  /** ASCII is valid UTF-8. */
  ghost predicate AcceptsAscii(utf8: Utf8Check) {
    forall s :: AsciiText(s) ==> utf8(s)
  }

  /** A line that is read as it was written. */
  predicate PlainLine(utf8: Utf8Check, line: seq<Byte>) {
    NEWLINE !in line && |line| <= MAX_LINE && utf8(line)
  }

  lemma ReadsBackNextLine(utf8: Utf8Check, input: seq<Byte>, pos: nat, front: seq<seq<Byte>>, at: nat, line: seq<Byte>)
    requires PlainLine(utf8, line) && Stands(input, at, line + [NEWLINE])
    requires ReadsLines(utf8, input, pos, front, at)
    ensures ReadsLines(utf8, input, pos, front + [line], at + |line| + 1)
  {
    ReadsBackLine(utf8, input, at, line);
  }

  predicate AllPlain(utf8: Utf8Check, lines: seq<seq<Byte>>) {
    forall k :: 0 <= k < |lines| ==> PlainLine(utf8, lines[k])
  }

  lemma AllPlainParts(utf8: Utf8Check, lines: seq<seq<Byte>>)
    requires lines != [] && AllPlain(utf8, lines)
    ensures AllPlain(utf8, Init(lines)) && PlainLine(utf8, Last(lines)) && lines == Init(lines) + [Last(lines)]
  {
  }

  lemma {:induction false} ReadsBackLines(utf8: Utf8Check, input: seq<Byte>, pos: nat, lines: seq<seq<Byte>>,
                                          text: seq<Byte>)
    requires AllPlain(utf8, lines) && text == Unlines(lines) && Stands(input, pos, text)
    ensures ReadsLines(utf8, input, pos, lines, pos + |text|)
  {
    if lines != [] {
      var front, line := Init(lines), Last(lines);
      var before := Unlines(front);
      AllPlainParts(utf8, lines);
      LastLineStands(input, pos, lines, text, before, line);
      ReadsBackLines(utf8, input, pos, front, before);
      ReadsBackNextLine(utf8, input, pos, front, pos + |before|, line);
    }
  }

  /** The last line stands after the others. */
  lemma {:induction false} LastLineStands(input: seq<Byte>, pos: nat, lines: seq<seq<Byte>>, text: seq<Byte>,
                                          before: seq<Byte>, line: seq<Byte>)
    requires lines != [] && text == Unlines(lines) && Stands(input, pos, text)
    requires before == Unlines(Init(lines)) && line == Last(lines)
    ensures Stands(input, pos, before) && Stands(input, pos + |before|, line + [NEWLINE])
    ensures |text| == |before| + |line| + 1
  {
    StandsSplit(input, pos, before, line + [NEWLINE]);
  }

  lemma ReadsBackLine(utf8: Utf8Check, input: seq<Byte>, pos: nat, line: seq<Byte>)
    requires PlainLine(utf8, line) && Stands(input, pos, line + [NEWLINE])
    ensures ReadLine(utf8, input, pos) == Ok((line, pos + |line| + 1))
  {
    var rest := input[pos..];
    assert rest[..|line| + 1] == line + [NEWLINE];
    assert rest == line + [NEWLINE] + rest[|line| + 1..];
    IndexOfAfter(line, NEWLINE, rest[|line| + 1..]);
    assert rest[..|line|] == line;
  }

  lemma HeaderLinePlain(utf8: Utf8Check, h: Header, k: nat)
    requires AcceptsAscii(utf8) && ValidHeader(h) && k < LINES
    ensures PlainLine(utf8, HeaderLine(h, k))
  {
    assert AsciiText(HeaderLine(h, k)) by {
      HeaderLineIsAscii(h, k);
    }
    if k !in {0, 1, 5, 18} {
      var n := h.sizes[if k < 5 then k - 2 else k - 3];
      DecimalLengthMonotone(n, MAX_PAYLOAD);
      MaxPayloadDigits();
    }
  }

  lemma HeaderLineIsAscii(h: Header, k: nat)
    requires ValidHeader(h) && k < LINES
    ensures AsciiText(HeaderLine(h, k))
  {
  }

  lemma MaxPayloadDigits()
    ensures |Decimal(MAX_PAYLOAD)| == 11
  {
    assert |Decimal(687194)| == 6;
    assert |Decimal(68719476736 / 100)| == 9;
  }

  lemma {:induction false} SizeReadsBack(n: nat)
    requires n <= MAX_PAYLOAD
    ensures SizeOf(Decimal(n)) == Ok(n)
  {
    DecimalRoundTrip(n);
  }

  lemma SizeStandsInItsLine(h: Header, i: nat)
    requires ValidHeader(h) && i < SIZES
    ensures SizeOf(HeaderLines(h)[LineOfSize(i)]) == Ok(h.sizes[i])
  {
    assert HeaderLines(h)[LineOfSize(i)] == HeaderLine(h, LineOfSize(i)) == Decimal(h.sizes[i]);
    SizeReadsBack(h.sizes[i]);
  }

  lemma {:induction false} SizesReadBack(h: Header, lines: seq<seq<Byte>>, count: nat)
    requires ValidHeader(h) && count <= SIZES && |lines| == LINES
    requires forall i :: 0 <= i < SIZES ==> SizeOf(lines[LineOfSize(i)]) == Ok(h.sizes[i])
    ensures ParseSizes(lines, count) == Ok(h.sizes[..count])
  {
    if count > 0 {
      SizesReadBack(h, lines, count - 1);
      assert h.sizes[..count] == h.sizes[..count - 1] + [h.sizes[count - 1]];
    }
  }

  lemma FieldsReadBack(h: Header)
    requires ValidHeader(h)
    ensures ParseFields(HeaderLines(h)) == Ok(h)
  {
    forall i | 0 <= i < SIZES ensures SizeOf(HeaderLines(h)[LineOfSize(i)]) == Ok(h.sizes[i]) {
      SizeStandsInItsLine(h, i);
    }
    SizesReadBack(h, HeaderLines(h), SIZES);
    assert h.sizes[..SIZES] == h.sizes;
  }

  lemma MagicsDiffer()
    ensures Magic() != PreviousMagic()
  {
    assert Magic()[18] == 52 && PreviousMagic()[18] == 51;
  }

  lemma {:induction false} OneRunReadsBack(utf8: Utf8Check, input: seq<Byte>, pos: nat, lines: seq<seq<Byte>>,
                                           text: seq<Byte>, end: nat)
    requires AllPlain(utf8, lines) && text == Unlines(lines) && Stands(input, pos, text) && end == pos + |text|
    ensures ReadsLines(utf8, input, pos, lines, end)
  {
    ReadsBackLines(utf8, input, pos, lines, text);
  }

  /** The header text, split where the magic is judged. */
  lemma HeaderTextSplits(h: Header)
    requires |h.sizes| == SIZES
    ensures var lines := HeaderLines(h); Unlines(lines) == Unlines(lines[..16]) + Unlines(lines[16..])
  {
    var lines := HeaderLines(h);
    UnlinesConcat(lines[..16], lines[16..]);
    assert lines[..16] + lines[16..] == lines;
  }

  lemma HeaderLinesPlain(utf8: Utf8Check, h: Header)
    requires AcceptsAscii(utf8) && ValidHeader(h)
    ensures AllPlain(utf8, HeaderLines(h)[..16]) && AllPlain(utf8, HeaderLines(h)[16..])
  {
    forall k | 0 <= k < LINES ensures PlainLine(utf8, HeaderLines(h)[k]) {
      HeaderLinePlain(utf8, h, k);
    }
  }

  lemma HeaderReadsBack(utf8: Utf8Check, h: Header, input: seq<Byte>)
    requires AcceptsAscii(utf8) && ValidHeader(h) && Stands(input, 0, Unlines(HeaderLines(h)))
    ensures ReadHeader(utf8, input) == Ok((h, |Unlines(HeaderLines(h))|))
  {
    HeaderLinesPlain(utf8, h);
    HeaderTextSplits(h);
    var first, rest := HeaderLines(h)[..16], HeaderLines(h)[16..];
    var a, b := Unlines(first), Unlines(rest);
    StandsSplit(input, 0, a, b);
    OneRunReadsBack(utf8, input, 0, first, a, |a|);
    OneRunReadsBack(utf8, input, |a|, rest, b, |a| + |b|);
    MagicsDiffer();
    FieldsReadBack(h);
    assert first + rest == HeaderLines(h);
  }

  lemma MemberReadsBack(input: seq<Byte>, pos: nat, announced: seq<(File, nat)>, before: seq<Member>, at: nat,
                        m: Member)
    requires |before| < |announced| && announced[|before|] == (m.file, |m.bytes|)
    requires ReadsMembers(input, pos, announced, before, at) && Stands(input, at, m.bytes)
    ensures ReadsMembers(input, pos, announced, before + [m], at + |m.bytes|)
  {
  }

  lemma {:induction false} MembersReadBack(input: seq<Byte>, pos: nat, announced: seq<(File, nat)>,
                                           members: seq<Member>)
    requires Matches(announced, members) && Stands(input, pos, Contents(members))
    ensures ReadsMembers(input, pos, announced, members, pos + |Contents(members)|)
  {
    if members != [] {
      var before, m := Init(members), Last(members);
      assert members == before + [m];
      StandsSplit(input, pos, Contents(before), m.bytes);
      MembersReadBack(input, pos, announced, before);
      MemberReadsBack(input, pos, announced, before, pos + |Contents(before)|, m);
    }
  }

  /** Parsing the rendered stream of a valid header and payloads of the stated
      sizes yields exactly them. */
  lemma StreamRoundTrip(utf8: Utf8Check, h: Header, members: seq<Member>)
    requires AcceptsAscii(utf8) && ValidHeader(h)
    requires |members| == |Announced(h)| && Matches(Announced(h), members)
    ensures Receive(utf8, Render(h, members)) == Ok((h, members))
  {
    var input := Render(h, members);
    var head := Unlines(HeaderLines(h));
    assert Stands(input, 0, head + Contents(members));
    StandsSplit(input, 0, head, Contents(members));
    HeaderReadsBack(utf8, h, input);
    MembersReadBack(input, |head|, Announced(h), members);
  }

  /** The name a payload is stored under. */
  function FileName(file: File): string {
    match file
    case Image => "nix.erofs" case ImageSignature => "nix.erofs.sig" case System => "system"
    case Config => "config.toml" case ConfigSignature => "config.toml.sig"
    case Kernel => "kernel" case KernelSignature => "kernel.sig"
    case Initrd => "initrd" case InitrdSignature => "initrd.sig"
    case Rescue => "rescue.sfs" case RescueSignature => "rescue.sfs.sig"
    case Network => "network.erofs" case NetworkSignature => "network.erofs.sig"
    case Tools => "rescue-tools.erofs" case ToolsSignature => "rescue-tools.erofs.sig"
  }

  /** Length and first two letters tell the names apart. */
  lemma FileNameShape(file: File)
    ensures var name := FileName(file);
      |name| >= 6 && (|name|, name[0], name[1]) == match file
        case Image => (9, 'n', 'i') case ImageSignature => (13, 'n', 'i') case System => (6, 's', 'y')
        case Config => (11, 'c', 'o') case ConfigSignature => (15, 'c', 'o')
        case Kernel => (6, 'k', 'e') case KernelSignature => (10, 'k', 'e')
        case Initrd => (6, 'i', 'n') case InitrdSignature => (10, 'i', 'n')
        case Rescue => (10, 'r', 'e') case RescueSignature => (14, 'r', 'e')
        case Network => (13, 'n', 'e') case NetworkSignature => (17, 'n', 'e')
        case Tools => (18, 'r', 'e') case ToolsSignature => (22, 'r', 'e')
  {
  }

  /** No two payloads of a bundle are stored under one name, so none is written
      over another. */
  lemma AnnouncedOnce(h: Header)
    requires |h.sizes| == SIZES
    ensures forall i, j :: 0 <= i < j < |Announced(h)| ==>
      FileName(Announced(h)[i].0) != FileName(Announced(h)[j].0)
  {
    var announced := Announced(h);
    forall i, j | 0 <= i < j < |announced| ensures FileName(announced[i].0) != FileName(announced[j].0) {
      AnnouncedInOrder(h, i, j);
      FileNameShape(announced[i].0);
      FileNameShape(announced[j].0);
    }
  }

  /** Where a file stands when every optional one is present. */
  function Rank(file: File): nat {
    match file
    case Image => 0 case ImageSignature => 1 case System => 2 case Config => 3 case ConfigSignature => 4
    case Kernel => 5 case KernelSignature => 6 case Initrd => 7 case InitrdSignature => 8
    case Rescue => 9 case RescueSignature => 10 case Network => 11 case NetworkSignature => 12
    case Tools => 13 case ToolsSignature => 14
  }

  lemma AnnouncedInOrder(h: Header, i: nat, j: nat)
    requires |h.sizes| == SIZES && i < j < |Announced(h)|
    ensures Rank(Announced(h)[i].0) < Rank(Announced(h)[j].0)
  {
  }

  // ---------------------------------------------------------------------
  // Which bytes belong to which file

  /** The sum of the first k sizes. */
  function Total(sizes: seq<nat>, k: nat): nat
    requires k <= |sizes|
  {
    if k == 0 then 0 else Total(sizes, k - 1) + sizes[k - 1]
  }

  /** The bytes of the first k members. */
  ghost function BytesUpTo(members: seq<Member>, k: nat): nat
    requires k <= |members|
  {
    if k == 0 then 0 else BytesUpTo(members, k - 1) + |members[k - 1].bytes|
  }

  /** Every announced member has the size of its own place in the header. */
  lemma AnnouncedSizes(h: Header, i: nat)
    requires ValidHeader(h) && i < |Announced(h)|
    ensures Announced(h)[i].1 == h.sizes[Rank(Announced(h)[i].0)] > 0
  {
  }

  /** A file is announced exactly when its size is positive. */
  lemma AnnouncedPresence(h: Header, file: File)
    requires ValidHeader(h)
    ensures (exists i :: 0 <= i < |Announced(h)| && Announced(h)[i].0 == file) <==> h.sizes[Rank(file)] > 0
  {
    var announced := Announced(h);
    var system := if h.sizes[2] > 0 then 1 else 0;
    var network := if h.sizes[11] > 0 then 2 else 0;
    if h.sizes[Rank(file)] > 0 {
      var r := Rank(file);
      var i := if r < 2 then r else if r == 2 then 2 else if r < 11 then r - 1 + system
               else if r < 13 then r - 1 + system else r - 3 + system + network;
      assert announced[i].0 == file;
    } else if i :| 0 <= i < |announced| && announced[i].0 == file {
      AnnouncedSizes(h, i);
    }
  }

  /** The file at a place of the header. */
  function FileAt(r: nat): (file: File)
    requires r < SIZES
    ensures Rank(file) == r
  {
    match r
    case 0 => Image case 1 => ImageSignature case 2 => System case 3 => Config case 4 => ConfigSignature
    case 5 => Kernel case 6 => KernelSignature case 7 => Initrd case 8 => InitrdSignature
    case 9 => Rescue case 10 => RescueSignature case 11 => Network case 12 => NetworkSignature
    case 13 => Tools case _ => ToolsSignature
  }

  /** Where the announced member i stands in the header, or past its end. */
  ghost function PlaceOf(h: Header, i: nat): nat
    requires ValidHeader(h) && i <= |Announced(h)|
  {
    if i < |Announced(h)| then Rank(Announced(h)[i].0) else SIZES
  }

  /** The places between two announced members have no bytes. */
  lemma NothingBetween(h: Header, i: nat, r: nat)
    requires ValidHeader(h) && i <= |Announced(h)| && r < PlaceOf(h, i)
    requires i > 0 ==> PlaceOf(h, i - 1) < r
    ensures h.sizes[r] == 0
  {
    if h.sizes[r] > 0 {
      AnnouncedPresence(h, FileAt(r));
      var j :| 0 <= j < |Announced(h)| && Announced(h)[j].0 == FileAt(r);
      if j < i - 1 { AnnouncedInOrder(h, j, i - 1); }
      if i < j { AnnouncedInOrder(h, i, j); }
    }
  }

  lemma {:induction false} TotalSkips(sizes: seq<nat>, a: nat, b: nat)
    requires a <= b <= |sizes| && forall r :: a <= r < b ==> sizes[r] == 0
    ensures Total(sizes, b) == Total(sizes, a)
  {
    if a < b {
      TotalSkips(sizes, a, b - 1);
    }
  }

  lemma {:induction false} SkipToPlace(h: Header, i: nat)
    requires ValidHeader(h) && i <= |Announced(h)|
    ensures i > 0 ==> PlaceOf(h, i - 1) < PlaceOf(h, i)
    ensures Total(h.sizes, PlaceOf(h, i)) == Total(h.sizes, if i == 0 then 0 else PlaceOf(h, i - 1) + 1)
  {
    var from := if i == 0 then 0 else PlaceOf(h, i - 1) + 1;
    if 0 < i < |Announced(h)| { AnnouncedInOrder(h, i - 1, i); }
    forall r | from <= r < PlaceOf(h, i) ensures h.sizes[r] == 0 {
      NothingBetween(h, i, r);
    }
    TotalSkips(h.sizes, from, PlaceOf(h, i));
  }

  /** The members before one have together the sizes of the places before its
      own. */
  lemma {:induction false} BytesBefore(h: Header, members: seq<Member>, i: nat)
    requires ValidHeader(h) && i <= |members| && |members| == |Announced(h)| && Matches(Announced(h), members)
    ensures BytesUpTo(members, i) == Total(h.sizes, PlaceOf(h, i))
  {
    SkipToPlace(h, i);
    if i > 0 {
      AnnouncedSizes(h, i - 1);
      BytesBefore(h, members, i - 1);
    }
  }

  /** The bytes of a member stand after those of the members before it. */
  lemma {:induction false} MemberStands(members: seq<Member>, i: nat)
    requires i < |members|
    ensures Stands(Contents(members), BytesUpTo(members, i), members[i].bytes)
    ensures |Contents(members)| == BytesUpTo(members, |members|)
    decreases |members|
  {
    var before := Init(members);
    SameUpTo(members, |members| - 1);
    if i == |members| - 1 {
      ContentsLength(before);
    } else {
      MemberStands(before, i);
      SameUpTo(members, i);
      StandsInLonger(Contents(before), members[|members| - 1].bytes, BytesUpTo(members, i), members[i].bytes);
    }
  }

  lemma {:induction false} ContentsLength(members: seq<Member>)
    ensures |Contents(members)| == BytesUpTo(members, |members|)
  {
    if members != [] {
      ContentsLength(Init(members));
      SameUpTo(members, |members| - 1);
    }
  }

  lemma {:induction false} SameUpTo(members: seq<Member>, k: nat)
    requires k < |members|
    ensures BytesUpTo(Init(members), k) == BytesUpTo(members, k)
  {
    if k > 0 {
      SameUpTo(members, k - 1);
    }
  }

  lemma StandsInLonger(a: seq<Byte>, b: seq<Byte>, at: nat, part: seq<Byte>)
    requires Stands(a, at, part)
    ensures Stands(a + b, at, part)
  {
    assert (a + b)[at..at + |part|] == a[at..at + |part|];
  }

  /** The member has the size the header gives for its place, and stands after
      as many bytes of the payloads as the places before it have. */
  predicate InPlace(input: seq<Byte>, sizes: seq<nat>, m: Member)
    requires |sizes| == 15
  {
    && Total(sizes, 15) <= |input| && |m.bytes| == sizes[Rank(m.file)]
    && Stands(input, |input| - Total(sizes, 15) + Total(sizes, Rank(m.file)), m.bytes)
  }

  /** The payloads fill the end of the stream: a file is there exactly when the
      header gives it a positive size, files come in header order, and the bytes
      of each follow those of all before it. */
  ghost predicate Laid(input: seq<Byte>, sizes: seq<nat>, members: seq<Member>) {
    && |sizes| == 15
    && (forall file: File :: sizes[Rank(file)] > 0 <==> IsAmong(file, members))
    && (forall i, j :: 0 <= i < j < |members| ==> Rank(members[i].file) < Rank(members[j].file))
    && forall i :: 0 <= i < |members| ==> InPlace(input, sizes, members[i])
  }

  predicate IsAmong(file: File, members: seq<Member>) {
    exists i :: 0 <= i < |members| && members[i].file == file
  }

  /** So it is in every accepted stream. */
  lemma AcceptedPayloads(utf8: Utf8Check, input: seq<Byte>)
    requires Receive(utf8, input).Ok?
    ensures var (h, members) := Receive(utf8, input).value; Laid(input, h.sizes, members)
  {
    MembersAreTheRest(utf8, input);
    var (h, at) := ReadHeader(utf8, input).value;
    PayloadsAreLaid(h, Receive(utf8, input).value.1, input, at);
  }

  lemma {:induction false} PayloadsAreLaid(h: Header, members: seq<Member>, input: seq<Byte>, at: nat)
    requires ValidHeader(h) && |members| == |Announced(h)| && Matches(Announced(h), members)
    requires at <= |input| && input[at..] == Contents(members)
    ensures Laid(input, h.sizes, members)
  {
    forall file: File ensures h.sizes[Rank(file)] > 0 <==> IsAmong(file, members) {
      MemberPresence(h, members, file);
    }
    forall i, j | 0 <= i < j < |members| ensures Rank(members[i].file) < Rank(members[j].file) {
      AnnouncedInOrder(h, i, j);
    }
    forall i | 0 <= i < |members| ensures InPlace(input, h.sizes, members[i]) {
      OneIsInPlace(h, members, input, at, i);
    }
  }

  lemma {:induction false} OneIsInPlace(h: Header, members: seq<Member>, input: seq<Byte>, at: nat, i: nat)
    requires ValidHeader(h) && |members| == |Announced(h)| && Matches(Announced(h), members)
    requires at <= |input| && input[at..] == Contents(members) && i < |members|
    ensures InPlace(input, h.sizes, members[i])
  {
    BytesBefore(h, members, |members|);
    AnnouncedSizes(h, i);
    BytesBefore(h, members, i);
    MemberStands(members, i);
    StandsLater(input, at, Contents(members), BytesUpTo(members, i), members[i].bytes);
  }

  lemma MemberPresence(h: Header, members: seq<Member>, file: File)
    requires ValidHeader(h) && |members| == |Announced(h)| && Matches(Announced(h), members)
    ensures h.sizes[Rank(file)] > 0 <==> IsAmong(file, members)
  {
    AnnouncedPresence(h, file);
    if i :| 0 <= i < |members| && members[i].file == file {
      assert Announced(h)[i].0 == file;
    }
    if i :| 0 <= i < |members| && Announced(h)[i].0 == file {
      assert members[i].file == file;
    }
  }

  lemma StandsLater(input: seq<Byte>, at: nat, rest: seq<Byte>, from: nat, part: seq<Byte>)
    requires at <= |input| && input[at..] == rest && Stands(rest, from, part)
    ensures Stands(input, at + from, part)
  {
    assert input[at + from..at + from + |part|] == rest[from..from + |part|];
  }

  // ---------------------------------------------------------------------
  // The reader

  lemma {:induction false} FirstNewlineIs(s: seq<Byte>, n: nat)
    requires n <= |s| && NEWLINE !in s[..n] && (n < |s| ==> s[n] == NEWLINE)
    ensures IndexOf(s, NEWLINE) == n
  {
    if n > 0 {
      assert s[0] == s[..n][0];
      assert s[1..][..n - 1] == s[..n][1..];
      FirstNewlineIs(s[1..], n - 1);
    }
  }

  lemma {:induction false} LinesFailForGood(utf8: Utf8Check, input: seq<Byte>, pos: nat, i: nat, count: nat,
                                            failed: Read<seq<seq<Byte>>>)
    requires pos <= |input| && i <= count && failed.Err? && ReadLines(utf8, input, pos, i) == failed
    ensures ReadLines(utf8, input, pos, count) == failed
  {
    if i < count {
      LinesFailForGood(utf8, input, pos, i, count - 1, failed);
    }
  }

  lemma {:induction false} SizesFailForGood(lines: seq<seq<Byte>>, i: nat, count: nat)
    requires |lines| == LINES && i <= count <= SIZES && ParseSizes(lines, i).Err?
    ensures ParseSizes(lines, count) == ParseSizes(lines, i)
  {
    if i < count {
      SizesFailForGood(lines, i, count - 1);
    }
  }

  lemma {:induction false} NextMember(input: seq<Byte>, pos: nat, announced: seq<(File, nat)>, members: seq<Member>,
                                      at: nat)
    requires pos <= |input| && |members| < |announced|
    requires ReadMembers(input, pos, announced, |members|) == Ok((members, at))
    ensures var (file, size) := announced[|members|];
      ReadMembers(input, pos, announced, |members| + 1)
      == if at + size > |input| then Err(TruncatedPayload)
         else Ok((members + [Member(file, input[at..at + size])], at + size))
    ensures announced[|members|].1 >= 0
  {
  }

  lemma {:induction false} MembersFailForGood(input: seq<Byte>, pos: nat, announced: seq<(File, nat)>, i: nat,
                                              count: nat)
    requires pos <= |input| && i <= count <= |announced| && ReadMembers(input, pos, announced, i).Err?
    ensures ReadMembers(input, pos, announced, count) == ReadMembers(input, pos, announced, i)
  {
    if i < count {
      MembersFailForGood(input, pos, announced, i, count - 1);
    }
  }

  /** Parse the sizes, line by line. */
  method ParseEachSize(lines: seq<seq<Byte>>) returns (r: Result<seq<nat>, Error>)
    requires |lines| == LINES
    ensures r == ParseSizes(lines, SIZES)
  {
    var sizes: seq<nat> := [];
    for i := 0 to SIZES
      invariant ParseSizes(lines, i) == Ok(sizes)
    {
      var size := SizeOf(lines[LineOfSize(i)]);
      if size.Err? {
        SizesFailForGood(lines, i + 1, SIZES);
        return Err(size.error);
      }
      sizes := sizes + [size.value];
    }
    r := Ok(sizes);
  }

  lemma {:induction false} NoNewlineYet(s: seq<Byte>, n: nat)
    requires n <= |s| && NEWLINE !in s[..n]
    ensures n <= IndexOf(s, NEWLINE)
  {
    if n > 0 {
      assert s[0] == s[..n][0];
      assert s[1..][..n - 1] == s[..n][1..];
      NoNewlineYet(s[1..], n - 1);
    }
  }

  /** A line was read whole exactly when what was read ends in a newline. */
  lemma {:induction false} LineEnds(rest: seq<Byte>, line: seq<Byte>)
    requires var stop := IndexOf(rest, NEWLINE);
      line == if stop < |rest| && stop < MAX_LINE + 1 then rest[..stop + 1]
              else if |rest| < MAX_LINE + 1 then rest else rest[..MAX_LINE + 1]
    ensures var stop := IndexOf(rest, NEWLINE);
      if stop < |rest| && stop <= MAX_LINE then line != [] && Last(line) == NEWLINE && Init(line) == rest[..stop]
      else line == [] || Last(line) != NEWLINE
  {
    var stop := IndexOf(rest, NEWLINE);
    if stop < |rest| && stop <= MAX_LINE {
      assert Init(rest[..stop + 1]) == rest[..stop];
    } else if line != [] {
      EndsInText(rest, |line|);
    }
  }

  lemma {:induction false} EndsInText(rest: seq<Byte>, n: nat)
    requires 0 < n <= IndexOf(rest, NEWLINE)
    ensures Last(rest[..n]) != NEWLINE
  {
    assert rest[..IndexOf(rest, NEWLINE)][n - 1] == rest[n - 1];
  }

  /** Read `s` up to and including the first newline, but no more than `limit`
      bytes. */
  method ReadUntil(s: seq<Byte>, start: nat, limit: nat) returns (line: seq<Byte>)
    requires start <= |s|
    ensures var rest := s[start..];
      var stop := IndexOf(rest, NEWLINE);
      line == if stop < |rest| && stop < limit then rest[..stop + 1]
              else if |rest| < limit then rest else rest[..limit]
  {
    line := [];
    ghost var rest := s[start..];
    while |line| < limit && start + |line| < |s|
      invariant |line| <= limit && start + |line| <= |s| && line == rest[..|line|]
      invariant NEWLINE !in line
    {
      var b := s[start + |line|];
      if b == NEWLINE {
        FirstNewlineIs(rest, |line|);
        return line + [b];
      }
      line := line + [b];
    }
    NoNewlineYet(rest, |line|);
  }

  class BundleReader {
    const utf8: Utf8Check
    const input: seq<Byte>
    var position: nat

    constructor (utf8: Utf8Check, input: seq<Byte>)
      ensures this.utf8 == utf8 && this.input == input && position == 0
    {
      this.utf8, this.input, position := utf8, input, 0;
    }

    ghost predicate Valid()
      reads this
    {
      position <= |input|
    }

    /** The position and result agree with a functional reading. */
    ghost predicate Follows<T>(spec: Read<T>, r: Result<T, Error>)
      reads this
    {
      if spec.Ok? then r == Ok(spec.value.0) && position == spec.value.1 else r == Err(spec.error)
    }

    method NextLine() returns (r: Result<seq<Byte>, Error>)
      requires Valid()
      modifies this
      ensures Valid() && Follows(ReadLine(utf8, input, old(position)), r)
    {
      var line := ReadUntil(input, position, MAX_LINE + 1);
      LineEnds(input[position..], line);
      if line == [] || Last(line) != NEWLINE {
        return Err(if |line| > MAX_LINE then LineTooLong else TruncatedHeader);
      }
      position := position + |line|;
      var text := Init(line);
      r := if utf8(text) then Ok(text) else Err(NotUtf8);
    }

    method NextLines(count: nat) returns (r: Result<seq<seq<Byte>>, Error>)
      requires Valid()
      modifies this
      ensures Valid() && Follows(ReadLines(utf8, input, old(position), count), r)
    {
      var lines: seq<seq<Byte>> := [];
      for i := 0 to count
        invariant Valid() && ReadLines(utf8, input, old(position), i) == Ok((lines, position))
      {
        var line := NextLine();
        if line.Err? {
          LinesFailForGood(utf8, input, old(position), i + 1, count, Err(line.error));
          return Err(line.error);
        }
        lines := lines + [line.value];
      }
      r := Ok(lines);
    }

    method ParseHeader() returns (r: Result<Header, Error>)
      requires Valid() && position == 0
      modifies this
      ensures Valid() && Follows(ReadHeader(utf8, input), r)
    {
      var first := NextLines(16);
      if first.Err? {
        return Err(first.error);
      }
      if first.value[0] == PreviousMagic() {
        return Err(OldSender);
      }
      if first.value[0] != Magic() {
        return Err(BadMagic);
      }
      var rest := NextLines(3);
      if rest.Err? {
        return Err(rest.error);
      }
      r := CheckFields(first.value + rest.value);
    }

    /** The checks in the order the parser makes them. */
    static method CheckFields(lines: seq<seq<Byte>>) returns (r: Result<Header, Error>)
      requires |lines| == LINES
      ensures r == ParseFields(lines)
    {
      if !ValidId(lines[1]) {
        return Err(BadId);
      }
      if !ValidId(lines[5]) {
        return Err(BadConfigId);
      }
      var sizes := ParseEachSize(lines);
      if sizes.Err? {
        return Err(sizes.error);
      }
      if lines[18] != [48] && lines[18] != [49] {
        return Err(BadFlag);
      }
      r := CheckSizes(Header(lines[1], lines[5], sizes.value, lines[18] == [49]));
    }

    static method CheckSizes(h: Header) returns (r: Result<Header, Error>)
      requires |h.sizes| == SIZES
      ensures r == if !RequiredPresent(h.sizes) then Err(EmptyPayload)
                   else if !Paired(h.sizes[11], h.sizes[12]) then Err(IncompleteNetwork)
                   else if !Paired(h.sizes[13], h.sizes[14]) then Err(IncompleteTools)
                   else Ok(h)
    {
      var required := [h.sizes[0], h.sizes[1]] + h.sizes[3..11];
      if 0 in required {
        EmptyIsMissing(h.sizes);
        return Err(EmptyPayload);
      }
      assert forall i :: 3 <= i < 11 ==> h.sizes[i] == required[i - 1];
      if (h.sizes[11] == 0) != (h.sizes[12] == 0) {
        return Err(IncompleteNetwork);
      }
      if (h.sizes[13] == 0) != (h.sizes[14] == 0) {
        return Err(IncompleteTools);
      }
      r := Ok(h);
    }

    /** The payload files with their sizes, optional ones only when sent. */
    static method Payloads(h: Header) returns (payloads: seq<(File, nat)>)
      requires |h.sizes| == SIZES
      ensures payloads == Announced(h)
    {
      payloads := [(Image, h.sizes[0]), (ImageSignature, h.sizes[1])];
      if h.sizes[2] > 0 {
        payloads := payloads + [(System, h.sizes[2])];
      }
      payloads := payloads + [(Config, h.sizes[3]), (ConfigSignature, h.sizes[4]),
                              (Kernel, h.sizes[5]), (KernelSignature, h.sizes[6]),
                              (Initrd, h.sizes[7]), (InitrdSignature, h.sizes[8]),
                              (Rescue, h.sizes[9]), (RescueSignature, h.sizes[10])];
      if h.sizes[11] > 0 {
        payloads := payloads + [(Network, h.sizes[11]), (NetworkSignature, h.sizes[12])];
      }
      if h.sizes[13] > 0 {
        payloads := payloads + [(Tools, h.sizes[13]), (ToolsSignature, h.sizes[14])];
      }
    }

    /** Copy one payload: as many bytes as announced, or none to speak of. */
    method ReceiveFile(size: nat) returns (r: Result<seq<Byte>, Error>)
      requires Valid()
      modifies this
      ensures Valid()
      ensures if old(position) + size > |input| then r == Err(TruncatedPayload)
              else r == Ok(input[old(position)..old(position) + size]) && position == old(position) + size
    {
      var left := |input| - position;
      var copied := input[position..position + if size <= left then size else left];
      position := position + |copied|;
      r := if |copied| != size then Err(TruncatedPayload) else Ok(copied);
    }

    method ReceiveFiles(payloads: seq<(File, nat)>) returns (r: Result<seq<Member>, Error>)
      requires Valid()
      modifies this
      ensures Valid() && Follows(ReadMembers(input, old(position), payloads, |payloads|), r)
    {
      var members: seq<Member> := [];
      for i := 0 to |payloads|
        invariant Valid() && ReadMembers(input, old(position), payloads, i) == Ok((members, position))
      {
        var (file, size) := payloads[i];
        NextMember(input, old(position), payloads, members, position);
        var bytes := ReceiveFile(size);
        if bytes.Err? {
          MembersFailForGood(input, old(position), payloads, i + 1, |payloads|);
          return Err(bytes.error);
        }
        members := members + [Member(file, bytes.value)];
      }
      r := Ok(members);
    }

    /** Receive header and payloads, then insist on the end of the stream. */
    method ReceiveAll() returns (r: Result<(Header, seq<Member>), Error>)
      requires Valid() && position == 0
      modifies this
      ensures Valid() && r == Receive(utf8, input)
      ensures r.Ok? ==> Laid(input, r.value.0.sizes, r.value.1)
    {
      r := ReceiveParts();
      if r.Ok? {
        AcceptedPayloads(utf8, input);
      }
    }

    method ReceiveParts() returns (r: Result<(Header, seq<Member>), Error>)
      requires Valid() && position == 0
      modifies this
      ensures Valid() && r == Receive(utf8, input)
    {
      var header := ParseHeader();
      if header.Err? {
        return Err(header.error);
      }
      var payloads := Payloads(header.value);
      var members := ReceiveFiles(payloads);
      if members.Err? {
        return Err(members.error);
      }
      if position < |input| {
        return Err(TrailingData);
      }
      r := Ok((header.value, members.value));
    }
  }

  lemma EmptyIsMissing(sizes: seq<nat>)
    requires |sizes| == SIZES && 0 in [sizes[0], sizes[1]] + sizes[3..11]
    ensures !RequiredPresent(sizes)
  {
    if 0 in sizes[3..11] {
      var i :| 0 <= i < 8 && sizes[3..11][i] == 0;
      assert sizes[i + 3] == 0;
    }
  }
}
