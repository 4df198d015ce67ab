/** resolv.conf text as the rescue DHCP hook writes and reads it
    (lib/rescue/dhcp-hook-rs/main.rs). */
module ResolverTexts {
  import opened Basics
  import opened Lines

  type Text = seq<Byte>

  const SPACE: Byte := 32
  const CR: Byte := 13

  /** What one entry says, and also what several entries say together. */
  datatype Resolver = Resolver(domain: Option<Text>, search: seq<Text>, servers: seq<Text>)

  const EMPTY := Resolver(None, [], [])

  function DomainWord(): Text { Ascii("domain") }
  function SearchWord(): Text { Ascii("search") }
  function ServerWord(): Text { Ascii("nameserver") }

  lemma KeywordsDiffer()
    ensures DomainWord() != SearchWord() && DomainWord() != ServerWord() && SearchWord() != ServerWord()
    ensures Plain(DomainWord()) && Plain(SearchWord()) && Plain(ServerWord())
  {
    assert DomainWord()[0] == 100 && SearchWord()[0] == 115 && ServerWord()[0] == 110;
  }

  /** Text that can be one blank-separated word of a line. */
  predicate Plain(word: Text) {
    word != [] && forall i :: 0 <= i < |word| ==> word[i] != SPACE && word[i] != NEWLINE && word[i] != CR
  }

  predicate AllPlain(words: seq<Text>) {
    forall i :: 0 <= i < |words| ==> Plain(words[i])
  }

  predicate WellFormed(r: Resolver) {
    (r.domain.Some? ==> Plain(r.domain.value)) && AllPlain(r.search) && AllPlain(r.servers)
  }

  // ---------------------------------------------------------------------
  // Lists without repetition

  function PushUnique(list: seq<Text>, value: Text): seq<Text> {
    if value in list then list else list + [value]
  }

  function PushAll(list: seq<Text>, values: seq<Text>): seq<Text>
    decreases |values|
  {
    if values == [] then list else PushAll(PushUnique(list, values[0]), values[1..])
  }

  lemma {:induction false} PushAllConcat(list: seq<Text>, a: seq<Text>, b: seq<Text>)
    ensures PushAll(list, a + b) == PushAll(PushAll(list, a), b)
    decreases |a|
  {
    if a == [] {
      assert a + b == b;
    } else {
      assert (a + b)[1..] == a[1..] + b;
      PushAllConcat(PushUnique(list, a[0]), a[1..], b);
    }
  }

  /** Pushing values none of which repeats appends them. */
  lemma {:induction false} PushAllFresh(list: seq<Text>, values: seq<Text>)
    requires Distinct(list + values)
    ensures PushAll(list, values) == list + values
    decreases |values|
  {
    if values != [] {
      assert (list + values)[|list|] == values[0];
      assert forall i :: 0 <= i < |list| ==> (list + values)[i] == list[i];
      assert values[0] !in list;
      assert list + [values[0]] + values[1..] == list + values;
      PushAllFresh(list + [values[0]], values[1..]);
    } else {
      assert list + values == list;
    }
  }

  /** The first place of a value in a list. */
  function FirstIndex(list: seq<Text>, value: Text): (i: nat)
    requires value in list
    ensures i < |list| && list[i] == value && value !in list[..i]
  {
    if list[0] == value then 0
    else
      var i := 1 + FirstIndex(list[1..], value);
      assert list[..i] == [list[0]] + list[1..][..i - 1];
      i
  }

  /** What a list without repetition looks like: nothing twice, nothing lost or
      added, in order of first appearance. This determines it. */
  ghost predicate IsUnion(union: seq<Text>, values: seq<Text>) {
    && Distinct(union)
    && (forall v :: v in union <==> v in values)
    && forall i, j :: 0 <= i < j < |union| ==> FirstIndex(values, union[i]) < FirstIndex(values, union[j])
  }

  lemma {:induction false} PushAllIsUnion(values: seq<Text>)
    ensures IsUnion(PushAll([], values), values)
    decreases |values|
  {
    if values != [] {
      var before, last := Init(values), Last(values);
      assert values == before + [last];
      PushAllIsUnion(before);
      PushAllConcat([], before, [last]);
      PushOne(PushAll([], before), last);
      UnionGrows(PushAll([], before), before, last);
    }
  }

  lemma {:induction false} PushOne(list: seq<Text>, value: Text)
    ensures PushAll(list, [value]) == PushUnique(list, value)
  {
    assert PushAll(PushUnique(list, value), [value][1..]) == PushUnique(list, value);
  }

  lemma UnionGrows(union: seq<Text>, before: seq<Text>, last: Text)
    requires IsUnion(union, before)
    ensures IsUnion(PushUnique(union, last), before + [last])
  {
    var grown, values := PushUnique(union, last), before + [last];
    forall v | v in before ensures FirstIndex(values, v) == FirstIndex(before, v) {
      FirstIndexStays(before, last, v);
    }
    forall i, j | 0 <= i < j < |grown| ensures FirstIndex(values, grown[i]) < FirstIndex(values, grown[j]) {
      assert grown[i] == union[i] && union[i] in before;
      if j < |union| {
        assert grown[j] == union[j] && union[j] in before;
      } else {
        NewComesLast(before, last);
      }
    }
  }

  lemma {:induction false} FirstIndexStays(before: seq<Text>, last: Text, v: Text)
    requires v in before
    ensures FirstIndex(before + [last], v) == FirstIndex(before, v)
  {
    if before[0] != v {
      assert (before + [last])[1..] == before[1..] + [last];
      FirstIndexStays(before[1..], last, v);
    }
  }

  lemma {:induction false} NewComesLast(before: seq<Text>, last: Text)
    requires last !in before
    ensures FirstIndex(before + [last], last) == |before|
  {
    if before != [] {
      assert before[0] in before;
      assert (before + [last])[1..] == before[1..] + [last];
      NewComesLast(before[1..], last);
    }
  }

  // ---------------------------------------------------------------------
  // Writing

  /** The nameserver lines from one on. */
  function ServerLines(servers: seq<Text>): Text {
    if servers == [] then [] else Line(ServerWord(), servers[0]) + ServerLines(servers[1..])
  }

  function Line(keyword: Text, value: Text): Text {
    keyword + [SPACE] + value + [NEWLINE]
  }

  /** Words with blanks between them. */
  function Joined(words: seq<Text>): Text {
    if words == [] then [] else if |words| == 1 then words[0] else words[0] + [SPACE] + Joined(words[1..])
  }

  function DomainLine(domain: Option<Text>): Text {
    if domain.Some? then Line(DomainWord(), domain.value) else []
  }

  function SearchLine(search: seq<Text>): Text {
    if search == [] then [] else Line(SearchWord(), Joined(search))
  }

  function EntryText(r: Resolver): Text {
    DomainLine(r.domain) + SearchLine(r.search) + ServerLines(r.servers)
  }

  // ---------------------------------------------------------------------
  // Reading

  /** The pieces between separators. */
  function Fields(s: Text, separator: Byte): seq<Text>
    decreases |s|
  {
    var n := IndexOf(s, separator);
    if n == |s| then [s] else [s[..n]] + Fields(s[n + 1..], separator)
  }

  /** A line without the carriage return before its newline. */
  function WithoutCr(line: Text): Text {
    if line != [] && Last(line) == CR then Init(line) else line
  }

  /** What one line adds: the first domain, new search names, a new server. */
  function ReadEntryLine(m: Resolver, line: Text): Resolver {
    var n := IndexOf(line, SPACE);
    if n == |line| then m
    else
      var keyword, value := line[..n], line[n + 1..];
      if keyword == DomainWord() && m.domain.None? then m.(domain := Some(value))
      else if keyword == SearchWord() then m.(search := PushAll(m.search, Fields(value, SPACE)))
      else if keyword == ServerWord() then m.(servers := PushUnique(m.servers, value))
      else m
  }

  /** What an entry's text adds, line by line. */
  function ReadEntry(m: Resolver, text: Text): Resolver
    decreases |text|
  {
    if text == [] then m
    else
      var n := IndexOf(text, NEWLINE);
      if n == |text| then ReadEntryLine(m, text)
      else ReadEntry(ReadEntryLine(m, WithoutCr(text[..n])), text[n + 1..])
  }

  /** What an entry adds to what is known. */
  function Union(m: Resolver, r: Resolver): Resolver {
    Resolver(if m.domain.Some? then m.domain else r.domain, PushAll(m.search, r.search), PushAll(m.servers, r.servers))
  }

  // ---------------------------------------------------------------------
  // What was written is read back

  /** A text's first line is read first. */
  lemma {:induction false} ReadsLine(m: Resolver, line: Text, rest: Text)
    requires NEWLINE !in line && line != [] && Last(line) != CR
    ensures ReadEntry(m, line + [NEWLINE] + rest) == ReadEntry(ReadEntryLine(m, line), rest)
  {
    var text := line + [NEWLINE] + rest;
    IndexOfAfter(line, NEWLINE, rest);
    assert text[..|line|] == line && text[|line| + 1..] == rest;
  }

  lemma {:induction false} ReadsKeyword(m: Resolver, keyword: Text, value: Text)
    requires SPACE !in keyword
    ensures ReadEntryLine(m, keyword + [SPACE] + value)
      == if keyword == DomainWord() && m.domain.None? then m.(domain := Some(value))
         else if keyword == SearchWord() then m.(search := PushAll(m.search, Fields(value, SPACE)))
         else if keyword == ServerWord() then m.(servers := PushUnique(m.servers, value))
         else m
  {
    IndexOfAfter(keyword, SPACE, value);
    var line := keyword + [SPACE] + value;
    assert line[..|keyword|] == keyword && line[|keyword| + 1..] == value;
  }

  /** A line of a keyword and a value that holds no line break. */
  lemma {:induction false} ReadsKeywordLine(m: Resolver, keyword: Text, value: Text, rest: Text)
    requires Plain(keyword) && value != [] && NEWLINE !in value && CR !in value
    ensures ReadEntry(m, Line(keyword, value) + rest)
      == ReadEntry(ReadEntryLine(m, keyword + [SPACE] + value), rest)
  {
    var line := keyword + [SPACE] + value;
    assert Line(keyword, value) + rest == line + [NEWLINE] + rest;
    assert NEWLINE !in line;
    assert Last(line) == Last(value) && Last(value) in value;
    ReadsLine(m, line, rest);
  }

  lemma {:induction false} FieldsOfJoined(words: seq<Text>)
    requires words != [] && AllPlain(words)
    ensures Fields(Joined(words), SPACE) == words
  {
    assert SPACE !in words[0];
    if |words| == 1 {
      IndexOfNone(words[0], SPACE);
    } else {
      FieldsOfJoined(words[1..]);
      FieldsFirst(words[0], SPACE, Joined(words[1..]));
      assert [words[0]] + words[1..] == words;
    }
  }

  lemma {:induction false} FieldsFirst(word: Text, separator: Byte, rest: Text)
    requires separator !in word
    ensures Fields(word + [separator] + rest, separator) == [word] + Fields(rest, separator)
  {
    var s := word + [separator] + rest;
    IndexOfAfter(word, separator, rest);
    assert s[..|word|] == word && s[|word| + 1..] == rest;
  }

  lemma {:induction false} JoinedIsOneLine(words: seq<Text>)
    requires words != [] && AllPlain(words)
    ensures Joined(words) != [] && NEWLINE !in Joined(words) && CR !in Joined(words)
  {
    if |words| > 1 {
      JoinedIsOneLine(words[1..]);
    }
  }

  lemma {:induction false} ReadsDomain(m: Resolver, domain: Option<Text>, rest: Text)
    requires domain.Some? ==> Plain(domain.value)
    ensures ReadEntry(m, DomainLine(domain) + rest)
      == ReadEntry(m.(domain := if m.domain.Some? then m.domain else domain), rest)
  {
    if domain.Some? {
      KeywordsDiffer();
      ReadsKeywordLine(m, DomainWord(), domain.value, rest);
      ReadsKeyword(m, DomainWord(), domain.value);
    } else {
      assert [] + rest == rest;
    }
  }

  lemma {:induction false} ReadsSearch(m: Resolver, search: seq<Text>, rest: Text)
    requires AllPlain(search)
    ensures ReadEntry(m, SearchLine(search) + rest) == ReadEntry(m.(search := PushAll(m.search, search)), rest)
  {
    if search != [] {
      KeywordsDiffer();
      JoinedIsOneLine(search);
      ReadsKeywordLine(m, SearchWord(), Joined(search), rest);
      ReadsKeyword(m, SearchWord(), Joined(search));
      FieldsOfJoined(search);
    } else {
      assert [] + rest == rest;
    }
  }

  lemma {:induction false} ReadsServer(m: Resolver, server: Text, rest: Text)
    requires Plain(server)
    ensures ReadEntry(m, Line(ServerWord(), server) + rest)
      == ReadEntry(m.(servers := PushUnique(m.servers, server)), rest)
  {
    KeywordsDiffer();
    ReadsKeywordLine(m, ServerWord(), server, rest);
    ReadsKeyword(m, ServerWord(), server);
  }

  lemma {:induction false} ReadsServers(m: Resolver, servers: seq<Text>, rest: Text)
    requires AllPlain(servers)
    ensures ReadEntry(m, ServerLines(servers) + rest)
      == ReadEntry(m.(servers := PushAll(m.servers, servers)), rest)
    decreases |servers|
  {
    if servers == [] {
      assert [] + rest == rest;
    } else {
      var tail := ServerLines(servers[1..]);
      ConcatAssociative(Line(ServerWord(), servers[0]), tail, rest);
      ReadsServer(m, servers[0], tail + rest);
      ReadsServers(m.(servers := PushUnique(m.servers, servers[0])), servers[1..], rest);
    }
  }

  /** Reading a written entry adds exactly the resolver it was written from. */
  lemma {:induction false} EntryReadsBack(m: Resolver, r: Resolver, rest: Text)
    requires WellFormed(r)
    ensures ReadEntry(m, EntryText(r) + rest) == ReadEntry(Union(m, r), rest)
  {
    var domain, search, servers := DomainLine(r.domain), SearchLine(r.search), ServerLines(r.servers);
    EntryInParts(domain, search, servers, rest);
    var first := m.(domain := if m.domain.Some? then m.domain else r.domain);
    var second := first.(search := PushAll(first.search, r.search));
    ReadsDomain(m, r.domain, search + (servers + rest));
    ReadsSearch(first, r.search, servers + rest);
    ReadsServers(second, r.servers, rest);
  }

  lemma EntryInParts(a: Text, b: Text, c: Text, d: Text)
    ensures a + b + c + d == a + (b + (c + d))
  {
  }

  /** A written entry is read back as the resolver it came from. */
  lemma EntryRoundTrip(r: Resolver)
    requires WellFormed(r) && Distinct(r.search) && Distinct(r.servers)
    ensures ReadEntry(EMPTY, EntryText(r)) == r
  {
    EntryReadsBack(EMPTY, r, []);
    assert EntryText(r) + [] == EntryText(r);
    assert [] + r.search == r.search && [] + r.servers == r.servers;
    PushAllFresh([], r.search);
    PushAllFresh([], r.servers);
  }

  // ---------------------------------------------------------------------
  // The lines themselves

  /** The value of a line with this keyword. */
  function LineValue(line: Text, keyword: Text): seq<Text> {
    var n := IndexOf(line, SPACE);
    if n < |line| && line[..n] == keyword then [line[n + 1..]] else []
  }

  /** The values of all lines with this keyword, in order, as often as they
      occur. */
  function LineValues(text: Text, keyword: Text): seq<Text>
    decreases |text|
  {
    if text == [] then []
    else
      var n := IndexOf(text, NEWLINE);
      if n == |text| then LineValue(text, keyword)
      else LineValue(WithoutCr(text[..n]), keyword) + LineValues(text[n + 1..], keyword)
  }

  lemma {:induction false} FirstLineValue(line: Text, rest: Text, keyword: Text)
    requires NEWLINE !in line && line != [] && Last(line) != CR
    ensures LineValues(line + [NEWLINE] + rest, keyword) == LineValue(line, keyword) + LineValues(rest, keyword)
  {
    var text := line + [NEWLINE] + rest;
    IndexOfAfter(line, NEWLINE, rest);
    assert text[..|line|] == line && text[|line| + 1..] == rest;
  }

  lemma {:induction false} KeywordLineValue(word: Text, value: Text, rest: Text, keyword: Text)
    requires Plain(word) && value != [] && NEWLINE !in value && CR !in value
    ensures LineValues(Line(word, value) + rest, keyword)
      == (if word == keyword then [value] else []) + LineValues(rest, keyword)
  {
    var line := word + [SPACE] + value;
    assert Line(word, value) + rest == line + [NEWLINE] + rest;
    assert Last(line) == Last(value) && Last(value) in value;
    FirstLineValue(line, rest, keyword);
    IndexOfAfter(word, SPACE, value);
    assert line[..|word|] == word && line[|word| + 1..] == value;
  }

  lemma {:induction false} ServerLineValues(servers: seq<Text>, keyword: Text)
    requires AllPlain(servers)
    ensures LineValues(ServerLines(servers), keyword) == if keyword == ServerWord() then servers else []
  {
    if servers != [] {
      KeywordsDiffer();
      ServerLineValues(servers[1..], keyword);
      KeywordLineValue(ServerWord(), servers[0], ServerLines(servers[1..]), keyword);
    }
  }

  /** The lines of a written entry: one domain line if there is a domain, one
      search line if there are search names, and one nameserver line for each
      server, in order. */
  lemma EntryLineValues(r: Resolver)
    requires WellFormed(r)
    ensures LineValues(EntryText(r), DomainWord()) == if r.domain.Some? then [r.domain.value] else []
    ensures LineValues(EntryText(r), SearchWord()) == if r.search == [] then [] else [Joined(r.search)]
    ensures LineValues(EntryText(r), ServerWord()) == r.servers
  {
    EntryValues(r, DomainWord());
    EntryValues(r, SearchWord());
    EntryValues(r, ServerWord());
    KeywordsDiffer();
  }

  /** The search line and the server lines, by keyword. */
  lemma {:induction false} SearchValues(r: Resolver, keyword: Text)
    requires WellFormed(r)
    ensures LineValues(SearchLine(r.search) + ServerLines(r.servers), keyword)
      == (if r.search != [] && keyword == SearchWord() then [Joined(r.search)] else [])
         + (if keyword == ServerWord() then r.servers else [])
  {
    ServerLineValues(r.servers, keyword);
    SearchLineThen(r.search, ServerLines(r.servers), keyword);
  }

  lemma {:induction false} SearchLineThen(search: seq<Text>, rest: Text, keyword: Text)
    requires AllPlain(search)
    ensures LineValues(SearchLine(search) + rest, keyword)
      == (if search != [] && keyword == SearchWord() then [Joined(search)] else []) + LineValues(rest, keyword)
  {
    if search == [] {
      assert SearchLine(search) + rest == rest;
    } else {
      JoinedIsOneLine(search);
      KeywordLineValue(SearchWord(), Joined(search), rest, keyword);
    }
  }

  lemma {:induction false} EntryValues(r: Resolver, keyword: Text)
    requires WellFormed(r)
    ensures LineValues(EntryText(r), keyword)
      == (if r.domain.Some? && keyword == DomainWord() then [r.domain.value] else [])
         + ((if r.search != [] && keyword == SearchWord() then [Joined(r.search)] else [])
            + (if keyword == ServerWord() then r.servers else []))
  {
    var rest := SearchLine(r.search) + ServerLines(r.servers);
    KeywordsDiffer();
    SearchValues(r, keyword);
    ConcatAssociative(DomainLine(r.domain), SearchLine(r.search), ServerLines(r.servers));
    if r.domain.None? {
      assert [] + rest == rest;
    } else {
      KeywordLineValue(DomainWord(), r.domain.value, rest, keyword);
    }
  }

  /** Write an entry. */
  method RenderEntry(r: Resolver) returns (out: Text)
    ensures out == EntryText(r)
  {
    out := [];
    if r.domain.Some? {
      out := out + DomainWord() + [SPACE] + r.domain.value + [NEWLINE];
    }
    assert out == DomainLine(r.domain);
    if r.search != [] {
      ghost var before := out;
      out := out + SearchWord() + [SPACE] + Joined(r.search) + [NEWLINE];
      assert out == before + SearchLine(r.search);
    }
    ghost var head := out;
    assert head == DomainLine(r.domain) + SearchLine(r.search);
    for i := 0 to |r.servers|
      invariant out + ServerLines(r.servers[i..]) == head + ServerLines(r.servers)
    {
      ghost var before := out;
      out := out + ServerWord() + [SPACE] + r.servers[i] + [NEWLINE];
      ServerStep(before, r.servers, i);
    }
    assert ServerLines(r.servers[|r.servers|..]) == [] && out + [] == out;
  }

  lemma ServerStep(before: Text, servers: seq<Text>, i: nat)
    requires i < |servers|
    ensures before + ServerWord() + [SPACE] + servers[i] + [NEWLINE] + ServerLines(servers[i + 1..])
      == before + ServerLines(servers[i..])
  {
    assert servers[i..][1..] == servers[i + 1..];
    var line := Line(ServerWord(), servers[i]);
    assert before + ServerWord() + [SPACE] + servers[i] + [NEWLINE] == before + line;
    ConcatAssociative(before, line, ServerLines(servers[i + 1..]));
  }
}
