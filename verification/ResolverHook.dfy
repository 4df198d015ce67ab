/** The rescue DHCP hook: one entry per interface and protocol, and one
    resolv.conf made of all of them (lib/rescue/dhcp-hook-rs/main.rs). */
module ResolverHooks {
  import opened Basics
  import opened Lines
  import opened ResolverTexts

  type Name = seq<Byte>

  // ---------------------------------------------------------------------
  // Names of entries, and their order

  const DOT: Byte := 46
  const DASH: Byte := 45

  predicate Alphanumeric(b: Byte) {
    48 <= b <= 57 || 65 <= b <= 90 || 97 <= b <= 122
  }

  /** Letters, digits and `_.-@`, fewer than sixteen, not `.` or `..`. */
  predicate ValidInterface(name: Name) {
    && 0 < |name| < 16 && name != [DOT] && name != [DOT, DOT]
    && forall i :: 0 <= i < |name| ==> Alphanumeric(name[i]) || name[i] in [95, DOT, DASH, 64]
  }

  predicate ValidProtocol(protocol: Name) {
    forall i :: 0 <= i < |protocol| ==> Alphanumeric(protocol[i])
  }

  /** The entry of an interface and a protocol. */
  function Key(interface: Name, protocol: Name): Name {
    if protocol == [] then interface else interface + [DOT] + protocol
  }

  /** The suffix of unfinished files. */
  function Unfinished(): Name { Ascii(".nmbl-tmp") }

  predicate EndsWith(name: Name, suffix: Name) {
    |suffix| <= |name| && name[|name| - |suffix|..] == suffix
  }

  /** Names that count as entries when the directory is read. */
  predicate Visible(name: Name) {
    !EndsWith(name, Unfinished())
  }

  lemma TemporaryIsInvisible(name: Name)
    ensures !Visible(name + Unfinished())
  {
    var temporary := name + Unfinished();
    assert temporary[|temporary| - |Unfinished()|..] == Unfinished();
  }

  /** An entry that names a protocol always counts. */
  lemma KeyWithProtocolIsVisible(interface: Name, protocol: Name)
    requires protocol != [] && ValidProtocol(protocol)
    ensures Visible(Key(interface, protocol))
  {
    var key, suffix := Key(interface, protocol), Unfinished();
    if |key| >= |suffix| {
      var tail := key[|key| - |suffix|..];
      var k := if |protocol| >= 4 then 5 else 8 - |protocol|;
      assert |protocol| >= 4 ==> tail[k] == protocol[|protocol| - 4] && Alphanumeric(protocol[|protocol| - 4]);
      assert tail[k] != suffix[k];
    }
  }

  /** An interface spelt with small letters, dots and dashes. */
  lemma SpeltOut(name: Name, text: string)
    requires name == Ascii(text) && 2 < |text| < 16
    requires forall i :: 0 <= i < |text| ==> 'a' <= text[i] <= 'z' || text[i] == '.' || text[i] == '-'
    ensures ValidInterface(name)
  {
  }

  /** Without a protocol an interface may be called like an unfinished file;
      its entry then never counts. */
  lemma KeyWithoutProtocolCanBeInvisible()
    ensures var interface := Ascii("a.nmbl-tmp"); ValidInterface(interface) && !Visible(Key(interface, []))
  {
    var interface := Ascii("a.nmbl-tmp");
    assert interface == Ascii("a") + Unfinished();
    TemporaryIsInvisible(Ascii("a"));
    SpeltOut(interface, "a.nmbl-tmp");
  }

  /** Every key is one path component: no slash, no line break, not a dot name. */
  lemma KeyIsAFileName(interface: Name, protocol: Name)
    requires ValidInterface(interface) && ValidProtocol(protocol)
    ensures var key := Key(interface, protocol);
      key != [] && key != [DOT] && key != [DOT, DOT] && 47 !in key && NEWLINE !in key && CR !in key
  {
    assert protocol != [] ==> Last(Key(interface, protocol)) == protocol[|protocol| - 1];
  }

  /** Byte-wise dictionary order. */
  predicate Before(a: Name, b: Name) {
    b != [] && (a == [] || a[0] < b[0] || (a[0] == b[0] && Before(a[1..], b[1..])))
  }

  lemma {:induction false} BeforeIsStrict(a: Name)
    ensures !Before(a, a)
  {
    if a != [] {
      BeforeIsStrict(a[1..]);
    }
  }

  lemma {:induction false} BeforeIsTransitive(a: Name, b: Name, c: Name)
    requires Before(a, b) && Before(b, c)
    ensures Before(a, c)
  {
    if a != [] && a[0] == b[0] == c[0] {
      BeforeIsTransitive(a[1..], b[1..], c[1..]);
    }
  }

  lemma {:induction false} BeforeIsTotal(a: Name, b: Name)
    requires a != b
    ensures Before(a, b) || Before(b, a)
  {
    if a != [] && b != [] && a[0] == b[0] {
      assert a == [a[0]] + a[1..] && b == [b[0]] + b[1..];
      BeforeIsTotal(a[1..], b[1..]);
    }
  }

  // ---------------------------------------------------------------------
  // The sorted listing

  predicate Ascending(names: seq<Name>) {
    forall i, j :: 0 <= i < j < |names| ==> Before(names[i], names[j])
  }

  /** The names of a set in order. */
  ghost predicate Lists(names: seq<Name>, all: set<Name>) {
    Ascending(names) && forall n :: n in names <==> n in all
  }

  /** There is only one way to list a set in order. */
  lemma {:induction false} ListingIsUnique(a: seq<Name>, b: seq<Name>, all: set<Name>)
    requires Lists(a, all) && Lists(b, all)
    ensures a == b
    decreases |a|
  {
    assert a != [] ==> a[0] in a;
    assert b != [] ==> b[0] in b;
    if a != [] {
      FirstIsLeast(a, b[0]);
      FirstIsLeast(b, a[0]);
      if a[0] != b[0] {
        BeforeIsTransitive(a[0], b[0], a[0]);
        BeforeIsStrict(a[0]);
      }
      TailLists(a, all);
      TailLists(b, all);
      ListingIsUnique(a[1..], b[1..], all - {a[0]});
      assert a == [a[0]] + a[1..] && b == [b[0]] + b[1..];
    }
  }

  lemma {:induction false} FirstIsLeast(names: seq<Name>, n: Name)
    requires Ascending(names) && n in names
    ensures n == names[0] || Before(names[0], n)
  {
    var i :| 0 <= i < |names| && names[i] == n;
  }

  lemma TailLists(names: seq<Name>, all: set<Name>)
    requires names != [] && Lists(names, all)
    ensures Lists(names[1..], all - {names[0]})
  {
    BeforeIsStrict(names[0]);
    forall n ensures n in names[1..] <==> n in all - {names[0]} {
      assert names == [names[0]] + names[1..];
      if n in names[1..] {
        var i :| 0 <= i < |names[1..]| && names[1..][i] == n;
        assert names[i + 1] == n;
      }
    }
  }

  /** Put a name in its place. */
  function Insert(names: seq<Name>, n: Name): (r: seq<Name>)
    ensures forall m :: m in r <==> m in names || m == n
    decreases |names|
  {
    if names == [] || Before(n, names[0]) then [n] + names
    else
      var rest := Insert(names[1..], n);
      assert names == [names[0]] + names[1..];
      [names[0]] + rest
  }

  lemma {:induction false} InsertKeepsOrder(names: seq<Name>, n: Name)
    requires Ascending(names) && n !in names
    ensures Ascending(Insert(names, n))
    decreases |names|
  {
    if names == [] {
    } else if Before(n, names[0]) {
      forall i | 0 < i < |names| ensures Before(n, names[i]) {
        BeforeIsTransitive(n, names[0], names[i]);
      }
    } else {
      assert names[0] in names;
      BeforeIsTotal(n, names[0]);
      assert forall m :: m in names[1..] ==> m in names;
      InsertKeepsOrder(names[1..], n);
      PrependKeepsOrder(names, n);
    }
  }

  lemma {:induction false} PrependKeepsOrder(names: seq<Name>, n: Name)
    requires names != [] && Ascending(names) && Before(names[0], n) && Ascending(Insert(names[1..], n))
    ensures Ascending([names[0]] + Insert(names[1..], n))
  {
    var rest := Insert(names[1..], n);
    forall i | 0 <= i < |rest| ensures Before(names[0], rest[i]) {
      assert rest[i] in rest;
      if rest[i] != n {
        var k :| 0 <= k < |names[1..]| && names[1..][k] == rest[i];
        assert names[k + 1] == rest[i];
      }
    }
  }

  // ---------------------------------------------------------------------
  // Requests

  datatype Action = Add(key: Name, resolver: Resolver) | Remove(key: Name) | Nothing

  predicate ValidLabel(part: Text) {
    && 0 < |part| <= 63 && part[0] != DASH && Last(part) != DASH
    && forall i :: 0 <= i < |part| ==> Alphanumeric(part[i]) || part[i] == DASH
  }

  /** A domain name, perhaps with one final dot. */
  predicate ValidDomain(name: Text) {
    var stem := if name != [] && Last(name) == DOT then Init(name) else name;
    && 0 < |stem| <= 253
    && forall i :: 0 <= i < |Fields(stem, DOT)| ==> ValidLabel(Fields(stem, DOT)[i])
  }

  /** Address parsing: the canonical text of an address, and whether it is IPv6. */
  type AddressParser = Text -> Option<(Text, bool)>

  const PERCENT: Byte := 37

  ghost predicate CanonicalIsPlain(parse: AddressParser) {
    forall text :: parse(text).Some? ==> Plain(parse(text).value.0)
  }

  /** A nameserver in canonical form; only IPv6 may keep a scope. */
  function Server(parse: AddressParser, value: Text): Option<Text> {
    var n := IndexOf(value, PERCENT);
    var address := parse(value[..n]);
    if address.None? then None
    else if n == |value| then Some(address.value.0)
    else if address.value.1 && ValidInterface(value[n + 1..]) then Some(address.value.0 + [PERCENT] + value[n + 1..])
    else None
  }

  function ServerCheck(parse: AddressParser): Text -> Option<Text> {
    v => Server(parse, v)
  }

  function Domain(value: Text): Option<Text> {
    if ValidDomain(value) then Some(value) else None
  }

  /** The values a check lets through, in order, from one on. */
  function Checked(check: Text -> Option<Text>, raw: seq<Text>, i: nat): seq<Text>
    requires i <= |raw|
    decreases |raw| - i
  {
    if i == |raw| then []
    else (if check(raw[i]).Some? then [check(raw[i]).value] else []) + Checked(check, raw, i + 1)
  }

  /** What dhcpcd asked for, once its variables are split into words. */
  datatype Request = Request(
    configured: bool, interface: Name, protocol: Name, up: bool, down: bool, advert: bool,
    domain: Option<Text>, search: seq<Text>, servers: seq<Text>)

  datatype Error = BadInterface | BadProtocol

  /** The resolver a request describes: its valid values, each once; the domain
      stands in for an empty search list. */
  function Described(parse: AddressParser, q: Request): Resolver {
    var domain := if q.domain.Some? then Domain(q.domain.value) else None;
    var search := PushAll([], Checked(Domain, q.search, 0));
    Resolver(domain,
             if search == [] && domain.Some? then [domain.value] else search,
             PushAll([], Checked(ServerCheck(parse), q.servers, 0)))
  }

  /** The action for a request. */
  function Decided(parse: AddressParser, q: Request): Result<Action, Error> {
    if !q.configured then Ok(Nothing)
    else if !ValidInterface(q.interface) then Err(BadInterface)
    else if !ValidProtocol(q.protocol) then Err(BadProtocol)
    else
      var key := Key(q.interface, q.protocol);
      if !q.up && !q.advert then Ok(if q.down then Remove(key) else Nothing)
      else
        var resolver := Described(parse, q);
        Ok(if resolver == EMPTY then Remove(key) else Add(key, resolver))
  }

  lemma {:induction false} LabelsArePlain(s: Text)
    requires forall i :: 0 <= i < |Fields(s, DOT)| ==> ValidLabel(Fields(s, DOT)[i])
    ensures forall i :: 0 <= i < |s| ==> Alphanumeric(s[i]) || s[i] == DASH || s[i] == DOT
    decreases |s|
  {
    var n := IndexOf(s, DOT);
    var fields := Fields(s, DOT);
    assert ValidLabel(fields[0]) && fields[0] == s[..n];
    assert forall i :: 0 <= i < n ==> s[i] == s[..n][i];
    if n < |s| {
      var rest := s[n + 1..];
      assert forall i :: 0 <= i < |Fields(rest, DOT)| ==> Fields(rest, DOT)[i] == fields[i + 1];
      LabelsArePlain(rest);
      assert forall i :: n < i < |s| ==> s[i] == rest[i - n - 1];
    }
  }

  lemma DomainIsPlain(name: Text)
    requires ValidDomain(name)
    ensures Plain(name)
  {
    var stem := if name != [] && Last(name) == DOT then Init(name) else name;
    LabelsArePlain(stem);
    assert forall i :: 0 <= i < |stem| ==> name[i] == stem[i];
  }

  lemma {:induction false} CheckedArePlain(check: Text -> Option<Text>, raw: seq<Text>, i: nat)
    requires i <= |raw| && forall v :: check(v).Some? ==> Plain(check(v).value)
    ensures AllPlain(Checked(check, raw, i))
    decreases |raw| - i
  {
    if i < |raw| {
      CheckedArePlain(check, raw, i + 1);
    }
  }

  lemma {:induction false} PushedArePlain(values: seq<Text>)
    requires AllPlain(values)
    ensures AllPlain(PushAll([], values)) && Distinct(PushAll([], values))
  {
    PushAllIsUnion(values);
    var union := PushAll([], values);
    forall i | 0 <= i < |union| ensures Plain(union[i]) {
      assert union[i] in union;
    }
  }

  /** Whatever the network sent, the described resolver holds nothing but valid
      domain names and canonical addresses, each once. */
  lemma DescribedIsWellFormed(parse: AddressParser, q: Request)
    requires CanonicalIsPlain(parse)
    ensures var r := Described(parse, q); WellFormed(r) && Distinct(r.search) && Distinct(r.servers)
  {
    forall v | Domain(v).Some? ensures Plain(Domain(v).value) {
      DomainIsPlain(v);
    }
    CheckedArePlain(Domain, q.search, 0);
    PushedArePlain(Checked(Domain, q.search, 0));
    var check := ServerCheck(parse);
    CheckedArePlain(check, q.servers, 0);
    PushedArePlain(Checked(check, q.servers, 0));
  }

  /** Every action names a proper file, and what it adds reads back as it was. */
  lemma ActionsAreProper(parse: AddressParser, q: Request)
    requires CanonicalIsPlain(parse) && Decided(parse, q).Ok?
    ensures var action := Decided(parse, q).value;
      && (action != Nothing ==> ProperName(action.key))
      && (action.Add? ==> WellFormed(action.resolver)
                          && ReadEntry(EMPTY, EntryText(action.resolver)) == action.resolver)
      && (action != Nothing && q.protocol != [] ==> Visible(action.key))
  {
    var action := Decided(parse, q).value;
    if action != Nothing {
      KeyIsAFileName(q.interface, q.protocol);
      if q.protocol != [] {
        KeyWithProtocolIsVisible(q.interface, q.protocol);
      }
    }
    DescribedIsWellFormed(parse, q);
    if action.Add? {
      EntryRoundTrip(action.resolver);
    }
  }

  predicate ProperName(name: Name) {
    name != [] && name != [DOT] && name != [DOT, DOT] && 47 !in name && NEWLINE !in name && CR !in name
  }

  /** Push what the check lets through onto a list, one value at a time. */
  method PushChecked(check: Text -> Option<Text>, raw: seq<Text>) returns (list: seq<Text>)
    ensures list == PushAll([], Checked(check, raw, 0))
  {
    list := [];
    for i := 0 to |raw|
      invariant PushAll(list, Checked(check, raw, i)) == PushAll([], Checked(check, raw, 0))
    {
      var checked := check(raw[i]);
      if checked.Some? {
        PushAllConcat(list, [checked.value], Checked(check, raw, i + 1));
        PushOne(list, checked.value);
        list := PushUnique(list, checked.value);
      } else {
        assert [] + Checked(check, raw, i + 1) == Checked(check, raw, i + 1);
      }
    }
  }

  // ---------------------------------------------------------------------
  // What a request asks for, branch by branch

  /** The interface and the protocol name an entry. */
  predicate Proper(q: Request) {
    q.configured && ValidInterface(q.interface) && ValidProtocol(q.protocol)
  }

  /** Some value passes. */
  predicate Any(check: Text -> Option<Text>, raw: seq<Text>) {
    exists i :: 0 <= i < |raw| && check(raw[i]).Some?
  }

  /** Some name or server of the request is valid. */
  predicate Useful(parse: AddressParser, q: Request) {
    (q.domain.Some? && ValidDomain(q.domain.value)) || Any(Domain, q.search) || Any(ServerCheck(parse), q.servers)
  }

  /** The outcomes of the values that pass, each once, in order of first
      appearance. */
  ghost predicate Gathered(check: Text -> Option<Text>, raw: seq<Text>, list: seq<Text>) {
    && Distinct(list)
    && (forall v :: v in list <==> Passes(check, raw, v))
    && forall i, j :: 0 <= i < j < |list| ==> ComesFirst(check, raw, list[i], list[j])
  }

  predicate Passes(check: Text -> Option<Text>, raw: seq<Text>, v: Text) {
    exists j :: 0 <= j < |raw| && check(raw[j]) == Some(v)
  }

  /** Some value with one outcome stands before all with another. */
  ghost predicate ComesFirst(check: Text -> Option<Text>, raw: seq<Text>, first: Text, second: Text) {
    exists k :: 0 <= k < |raw| && check(raw[k]) == Some(first) && NoneUpTo(check, raw, k, second)
  }

  predicate NoneUpTo(check: Text -> Option<Text>, raw: seq<Text>, k: nat, v: Text)
    requires k < |raw|
  {
    forall j :: 0 <= j <= k ==> check(raw[j]) != Some(v)
  }

  /** The resolver has the valid names and servers of the request, and the
      domain for an empty search list. */
  ghost predicate Holds(parse: AddressParser, q: Request, r: Resolver) {
    && r.domain == (if q.domain.Some? && ValidDomain(q.domain.value) then q.domain else None)
    && Gathered(ServerCheck(parse), q.servers, r.servers)
    && (if Any(Domain, q.search) then Gathered(Domain, q.search, r.search)
        else r.search == if r.domain.Some? then [r.domain.value] else [])
  }

  function Outcomes(outcome: Option<Text>): seq<Text> {
    if outcome.Some? then [outcome.value] else []
  }

  lemma {:induction false} CheckedSnoc(check: Text -> Option<Text>, before: seq<Text>, raw: seq<Text>, i: nat,
                                       last: seq<Text>)
    requires raw != [] && before == Init(raw) && i < |raw| && last == Outcomes(check(Last(raw)))
    ensures Checked(check, raw, i) == Checked(check, before, i) + last
    decreases |raw| - i
  {
    if i < |raw| - 1 {
      CheckedSnoc(check, before, raw, i + 1, last);
      ConcatAssociative(Outcomes(check(raw[i])), Checked(check, before, i + 1), last);
    }
  }

  /** Gathering is pushing the outcomes one after the other. */
  lemma {:induction false} PushedIsGathered(check: Text -> Option<Text>, raw: seq<Text>)
    ensures Gathered(check, raw, PushAll([], Checked(check, raw, 0)))
  {
    if raw != [] {
      var before, outcome := Init(raw), check(Last(raw));
      PushedIsGathered(check, before);
      CheckedSnoc(check, before, raw, 0, Outcomes(outcome));
      var list, values := PushAll([], Checked(check, before, 0)), Checked(check, before, 0);
      if outcome.Some? {
        PushAllConcat([], values, [outcome.value]);
        PushOne(list, outcome.value);
      } else {
        assert values + [] == values;
      }
      GatheredGrows(check, raw, list);
    }
  }

  lemma {:induction false} GatheredGrows(check: Text -> Option<Text>, raw: seq<Text>, list: seq<Text>)
    requires raw != [] && Gathered(check, Init(raw), list)
    ensures var outcome := check(Last(raw));
      Gathered(check, raw, if outcome.Some? then PushUnique(list, outcome.value) else list)
  {
    var before, outcome := Init(raw), check(Last(raw));
    var longer := if outcome.Some? then PushUnique(list, outcome.value) else list;
    forall v ensures v in longer <==> Passes(check, raw, v) {
      PassesNext(check, raw, v);
    }
    forall i, j | 0 <= i < j < |longer| ensures ComesFirst(check, raw, longer[i], longer[j]) {
      if j < |list| {
        assert ComesFirst(check, before, list[i], list[j]);
        StillFirst(check, raw, list[i], list[j]);
      } else {
        assert list[i] in list;
        NewIsLast(check, raw, list[i], longer[j]);
      }
    }
  }

  lemma PassesNext(check: Text -> Option<Text>, raw: seq<Text>, v: Text)
    requires raw != []
    ensures Passes(check, raw, v) <==> Passes(check, Init(raw), v) || check(Last(raw)) == Some(v)
  {
    if j :| 0 <= j < |Init(raw)| && check(Init(raw)[j]) == Some(v) {
      assert check(raw[j]) == Some(v);
    }
    if j :| 0 <= j < |raw| && check(raw[j]) == Some(v) {
      assert j < |raw| - 1 ==> Init(raw)[j] == raw[j];
    }
  }

  lemma StillFirst(check: Text -> Option<Text>, raw: seq<Text>, a: Text, b: Text)
    requires raw != [] && ComesFirst(check, Init(raw), a, b)
    ensures ComesFirst(check, raw, a, b)
  {
    var k :| 0 <= k < |Init(raw)| && check(Init(raw)[k]) == Some(a) && NoneUpTo(check, Init(raw), k, b);
    assert forall j :: 0 <= j <= k ==> raw[j] == Init(raw)[j];
    assert NoneUpTo(check, raw, k, b);
  }

  lemma NewIsLast(check: Text -> Option<Text>, raw: seq<Text>, a: Text, b: Text)
    requires raw != [] && Passes(check, Init(raw), a) && !Passes(check, Init(raw), b)
    ensures ComesFirst(check, raw, a, b)
  {
    var k :| 0 <= k < |Init(raw)| && check(Init(raw)[k]) == Some(a);
    forall j | 0 <= j <= k ensures check(raw[j]) != Some(b) {
      assert raw[j] == Init(raw)[j];
    }
    assert raw[k] == Init(raw)[k] && NoneUpTo(check, raw, k, b);
  }

  lemma GatheredIsEmpty(check: Text -> Option<Text>, raw: seq<Text>, list: seq<Text>)
    requires Gathered(check, raw, list)
    ensures list == [] <==> !Any(check, raw)
  {
    if list != [] {
      assert list[0] in list;
    }
    if i :| 0 <= i < |raw| && check(raw[i]).Some? {
      assert Passes(check, raw, check(raw[i]).value);
    }
  }

  lemma {:induction false} DescribedHolds(parse: AddressParser, q: Request)
    ensures Holds(parse, q, Described(parse, q))
    ensures Described(parse, q) == EMPTY <==> !Useful(parse, q)
  {
    var servers := PushAll([], Checked(ServerCheck(parse), q.servers, 0));
    var search := PushAll([], Checked(Domain, q.search, 0));
    PushedIsGathered(ServerCheck(parse), q.servers);
    PushedIsGathered(Domain, q.search);
    GatheredIsEmpty(ServerCheck(parse), q.servers, servers);
    GatheredIsEmpty(Domain, q.search, search);
  }

  /** Decide what a request asks for. */
  method Decide(parse: AddressParser, q: Request) returns (r: Result<Action, Error>)
    ensures r == Decided(parse, q)
    ensures !q.configured ==> r == Ok(Nothing)
    ensures q.configured && !ValidInterface(q.interface) ==> r == Err(BadInterface)
    ensures q.configured && ValidInterface(q.interface) && !ValidProtocol(q.protocol) ==> r == Err(BadProtocol)
    ensures var key := if q.protocol == [] then q.interface else q.interface + Ascii(".") + q.protocol;
      && (Proper(q) && !q.up && !q.advert && !q.down ==> r == Ok(Nothing))
      && (Proper(q) && !q.up && !q.advert && q.down ==> r == Ok(Remove(key)))
      && (Proper(q) && (q.up || q.advert) && !Useful(parse, q) ==> r == Ok(Remove(key)))
      && (Proper(q) && (q.up || q.advert) && Useful(parse, q) ==>
            r.Ok? && r.value.Add? && r.value.key == key && Holds(parse, q, r.value.resolver))
  {
    DescribedHolds(parse, q);
    assert Ascii(".") == [DOT];
    if !q.configured {
      return Ok(Nothing);
    }
    if !ValidInterface(q.interface) {
      return Err(BadInterface);
    }
    if !ValidProtocol(q.protocol) {
      return Err(BadProtocol);
    }
    var key := Key(q.interface, q.protocol);
    if !q.up && !q.advert {
      return Ok(if q.down then Remove(key) else Nothing);
    }
    var domain := if q.domain.Some? && ValidDomain(q.domain.value) then q.domain else None;
    var search := PushChecked(Domain, q.search);
    if search == [] && domain.Some? {
      search := [domain.value];
    }
    var servers := PushChecked(ServerCheck(parse), q.servers);
    if servers == [] && domain.None? && search == [] {
      return Ok(Remove(key));
    }
    r := Ok(Add(key, Resolver(domain, search, servers)));
  }

  // ---------------------------------------------------------------------
  // resolv.conf

  /** What the entries say together, in their order, from one on. */
  function ReadAll(m: Resolver, texts: seq<Text>): Resolver
    decreases |texts|
  {
    if texts == [] then m else ReadAll(ReadEntry(m, texts[0]), texts[1..])
  }

  function UnionAll(m: Resolver, resolvers: seq<Resolver>): Resolver
    decreases |resolvers|
  {
    if resolvers == [] then m else UnionAll(Union(m, resolvers[0]), resolvers[1..])
  }

  /** A search list that only repeats the domain is dropped. */
  function Tidied(r: Resolver): Resolver {
    if r.domain.Some? && r.search == [r.domain.value] then r.(search := []) else r
  }

  function Greeting(): Text {
    Ascii("# Generated by ") + Ascii("the NMBL rescue ") + Ascii("DHCP hook from ")
  }

  /** Names with commas between them. */
  function CommaList(names: seq<Name>): Text {
    if names == [] then [] else if |names| == 1 then names[0] else names[0] + [44, SPACE] + CommaList(names[1..])
  }

  /** resolv.conf for entries that say `whole` together. */
  function ConfText(names: seq<Name>, whole: Resolver): Text {
    Greeting() + CommaList(names) + [NEWLINE] + EntryText(Tidied(whole))
  }

  /** The texts of some names. */
  function Texts(files: map<Name, Text>, names: seq<Name>): seq<Text>
    requires forall n :: n in names ==> n in files
  {
    if names == [] then [] else [files[names[0]]] + Texts(files, names[1..])
  }

  /** The resolvers of some names. */
  function Resolvers(latest: map<Name, Resolver>, names: seq<Name>): seq<Resolver>
    requires forall n :: n in names ==> n in latest
  {
    if names == [] then [] else [latest[names[0]]] + Resolvers(latest, names[1..])
  }

  /** The entries on disk are the resolvers last added and not removed. */
  ghost predicate Records(files: map<Name, Text>, latest: map<Name, Resolver>) {
    && (forall n :: n in latest <==> n in files && Visible(n))
    && forall n :: n in latest ==> files[n] == EntryText(latest[n]) && WellFormed(latest[n])
  }

  /** Reading all entries gives the union of their resolvers. */
  lemma {:induction false} ReadAllIsUnion(m: Resolver, files: map<Name, Text>, latest: map<Name, Resolver>,
                                          names: seq<Name>)
    requires Records(files, latest) && forall n :: n in names ==> n in latest
    ensures ReadAll(m, Texts(files, names)) == UnionAll(m, Resolvers(latest, names))
    decreases |names|
  {
    if names != [] {
      var n := names[0];
      assert n in names && forall k :: k in names[1..] ==> k in names;
      EntryReadsBack(m, latest[n], []);
      assert EntryText(latest[n]) + [] == EntryText(latest[n]);
      assert Texts(files, names)[1..] == Texts(files, names[1..]);
      assert Resolvers(latest, names)[1..] == Resolvers(latest, names[1..]);
      ReadAllIsUnion(Union(m, latest[n]), files, latest, names[1..]);
    }
  }

  function Servers(resolvers: seq<Resolver>): seq<Text> {
    if resolvers == [] then [] else resolvers[0].servers + Servers(resolvers[1..])
  }

  function Searches(resolvers: seq<Resolver>): seq<Text> {
    if resolvers == [] then [] else resolvers[0].search + Searches(resolvers[1..])
  }

  function FirstDomain(resolvers: seq<Resolver>): Option<Text> {
    if resolvers == [] then None
    else if resolvers[0].domain.Some? then resolvers[0].domain else FirstDomain(resolvers[1..])
  }

  /** What a union is: the first domain, and every search name and server
      pushed in order. */
  lemma {:induction false} UnionAllInParts(m: Resolver, resolvers: seq<Resolver>)
    ensures UnionAll(m, resolvers)
      == Resolver(if m.domain.Some? then m.domain else FirstDomain(resolvers),
                  PushAll(m.search, Searches(resolvers)), PushAll(m.servers, Servers(resolvers)))
    decreases |resolvers|
  {
    if resolvers != [] {
      var r, rest := resolvers[0], resolvers[1..];
      UnionAllInParts(Union(m, r), rest);
      PushAllConcat(m.search, r.search, Searches(rest));
      PushAllConcat(m.servers, r.servers, Servers(rest));
    }
  }

  lemma {:induction false} AllServersPlain(resolvers: seq<Resolver>)
    requires forall i :: 0 <= i < |resolvers| ==> WellFormed(resolvers[i])
    ensures AllPlain(Servers(resolvers)) && AllPlain(Searches(resolvers))
    ensures FirstDomain(resolvers).Some? ==> Plain(FirstDomain(resolvers).value)
    decreases |resolvers|
  {
    if resolvers != [] {
      AllServersPlain(resolvers[1..]);
      assert WellFormed(resolvers[0]);
    }
  }

  lemma {:induction false} ResolversWellFormed(latest: map<Name, Resolver>, names: seq<Name>)
    requires forall n :: n in names ==> n in latest && WellFormed(latest[n])
    ensures forall i :: 0 <= i < |Resolvers(latest, names)| ==> WellFormed(Resolvers(latest, names)[i])
    decreases |names|
  {
    if names != [] {
      assert names[0] in names && forall k :: k in names[1..] ==> k in names;
      ResolversWellFormed(latest, names[1..]);
    }
  }

  lemma {:induction false} CommaListIsOneLine(names: seq<Name>)
    requires forall i :: 0 <= i < |names| ==> ProperName(names[i])
    ensures NEWLINE !in CommaList(names) && CR !in CommaList(names)
    decreases |names|
  {
    if |names| > 1 {
      CommaListIsOneLine(names[1..]);
    }
  }

  /** The first line of resolv.conf is a comment. */
  lemma {:induction false} GreetingIsSkipped(names: seq<Name>, rest: Text, keyword: Text)
    requires keyword in {DomainWord(), SearchWord(), ServerWord()}
    requires forall i :: 0 <= i < |names| ==> ProperName(names[i])
    ensures LineValues(Greeting() + CommaList(names) + [NEWLINE] + rest, keyword) == LineValues(rest, keyword)
  {
    CommaListIsOneLine(names);
    GreetingIsOneLine();
    var line := Greeting() + CommaList(names);
    assert CommaList(names) != [] ==>
      Last(line) == Last(CommaList(names)) && Last(CommaList(names)) in CommaList(names);
    FirstLineValue(line, rest, keyword);
    GreetingIsAComment(CommaList(names), keyword);
  }

  lemma GreetingIsOneLine()
    ensures Greeting() != [] && NEWLINE !in Greeting() && Last(Greeting()) != CR
  {
  }

  lemma GreetingIsAComment(rest: Text, keyword: Text)
    requires keyword in {DomainWord(), SearchWord(), ServerWord()}
    ensures LineValue(Greeting() + rest, keyword) == []
  {
    var line := Greeting() + rest;
    assert line[0] == 35 && line[1] == SPACE;
    assert line == [35] + [SPACE] + line[2..];
    IndexOfAfter([35], SPACE, line[2..]);
    assert DomainWord()[0] == 100 && SearchWord()[0] == 115 && ServerWord()[0] == 110;
    assert line[..1] == [35];
  }

  /** The lines of resolv.conf: nothing but one nameserver line for each server
      of the duplicate-free union, in name order, of the servers of all recorded
      entries; one search line with the union of their search names, unless
      that only repeats the domain; and one line with the first domain. */
  lemma {:induction false} ConfIsUnion(files: map<Name, Text>, latest: map<Name, Resolver>, names: seq<Name>)
    requires Records(files, latest) && Lists(names, latest.Keys)
    requires forall n :: n in latest ==> ProperName(n)
    ensures var resolvers := Resolvers(latest, names);
      var conf := ConfText(names, ReadAll(EMPTY, Texts(files, names)));
      var domain := FirstDomain(resolvers);
      && IsUnion(LineValues(conf, ServerWord()), Servers(resolvers))
      && LineValues(conf, DomainWord()) == (if domain.Some? then [domain.value] else [])
      && exists search :: IsUnion(search, Searches(resolvers))
           && LineValues(conf, SearchWord())
              == if search == [] || (domain.Some? && search == [domain.value]) then [] else [Joined(search)]
  {
    var resolvers := Resolvers(latest, names);
    ReadAllIsUnion(EMPTY, files, latest, names);
    UnionAllInParts(EMPTY, resolvers);
    ResolversWellFormed(latest, names);
    UnionIsProper(resolvers);
    forall i | 0 <= i < |names| ensures ProperName(names[i]) {
      assert names[i] in names;
    }
    WholeLines(names, UnionAll(EMPTY, resolvers));
  }

  lemma WholeLines(names: seq<Name>, whole: Resolver)
    requires WellFormed(whole) && forall i :: 0 <= i < |names| ==> ProperName(names[i])
    ensures var conf := ConfText(names, whole);
      && LineValues(conf, ServerWord()) == whole.servers
      && LineValues(conf, DomainWord()) == (if whole.domain.Some? then [whole.domain.value] else [])
      && LineValues(conf, SearchWord())
           == if whole.search == [] || (whole.domain.Some? && whole.search == [whole.domain.value]) then []
              else [Joined(whole.search)]
  {
    var body := EntryText(Tidied(whole));
    GreetingIsSkipped(names, body, ServerWord());
    GreetingIsSkipped(names, body, DomainWord());
    GreetingIsSkipped(names, body, SearchWord());
    EntryLineValues(Tidied(whole));
  }

  lemma {:induction false} UnionIsProper(resolvers: seq<Resolver>)
    requires forall i :: 0 <= i < |resolvers| ==> WellFormed(resolvers[i])
    ensures var search, servers := PushAll([], Searches(resolvers)), PushAll([], Servers(resolvers));
      && WellFormed(Resolver(FirstDomain(resolvers), search, servers)) && Distinct(search) && Distinct(servers)
      && IsUnion(search, Searches(resolvers)) && IsUnion(servers, Servers(resolvers))
  {
    AllServersPlain(resolvers);
    PushedArePlain(Servers(resolvers));
    PushedArePlain(Searches(resolvers));
    PushAllIsUnion(Servers(resolvers));
    PushAllIsUnion(Searches(resolvers));
  }

  /** resolv.conf depends only on the recorded entries. */
  lemma {:induction false} ConfIsDetermined(files: map<Name, Text>, others: map<Name, Text>,
                                            latest: map<Name, Resolver>, names: seq<Name>, otherNames: seq<Name>)
    requires Records(files, latest) && Records(others, latest)
    requires Lists(names, latest.Keys) && Lists(otherNames, latest.Keys)
    ensures ConfText(names, ReadAll(EMPTY, Texts(files, names)))
      == ConfText(otherNames, ReadAll(EMPTY, Texts(others, otherNames)))
  {
    ListingIsUnique(names, otherNames, latest.Keys);
    ReadAllIsUnion(EMPTY, files, latest, names);
    ReadAllIsUnion(EMPTY, others, latest, names);
  }

  // ---------------------------------------------------------------------
  // Runs of the hook

  /** How far an atomic write got: nothing, the old temporary gone, a partial
      temporary, or done. */
  datatype Progress = Untouched | Cleared | Partial(text: Text) | Done

  /** One run: the action, how its write or removal went, and how the write of
      resolv.conf went. */
  datatype Run = Run(action: Action, entry: Progress, conf: Progress)

  /** The entries after one run. A removal either happens or not. */
  function AfterRun(latest: map<Name, Resolver>, run: Run): map<Name, Resolver> {
    if run.action == Nothing || !run.entry.Done? || !Visible(run.action.key) then latest
    else if run.action.Add? then latest[run.action.key := run.action.resolver]
    else latest - {run.action.key}
  }

  /** The entries after the first `count` runs. */
  function Latest(runs: seq<Run>, count: nat): map<Name, Resolver>
    requires count <= |runs|
  {
    if count == 0 then map[] else AfterRun(Latest(runs, count - 1), runs[count - 1])
  }

  /** The last of the first `count` runs that did anything finished. */
  predicate Settled(runs: seq<Run>, count: nat)
    requires count <= |runs|
  {
    count > 0 && (if runs[count - 1].action == Nothing then Settled(runs, count - 1)
                  else runs[count - 1].entry.Done? && runs[count - 1].conf.Done?)
  }

  predicate ProperAction(action: Action) {
    && (action != Nothing ==> ProperName(action.key))
    && (action.Add? ==> WellFormed(action.resolver))
  }

  function VisibleNames(files: map<Name, Text>): set<Name> {
    set n | n in files && Visible(n)
  }

  /** resolv.conf written from these names in order. */
  ghost predicate WrittenFrom(text: Text, files: map<Name, Text>, all: set<Name>)
    requires all <= files.Keys
  {
    exists names ::
      && Lists(names, all) && (forall n :: n in names ==> n in files)
      && text == ConfText(names, ReadAll(EMPTY, Texts(files, names)))
  }

  /** resolv.conf says what these entries say. */
  ghost predicate Shows(conf: Option<Text>, files: map<Name, Text>, latest: map<Name, Resolver>)
    requires Records(files, latest)
  {
    conf.Some? && WrittenFrom(conf.value, files, latest.Keys)
  }

  lemma VisibleAreRecorded(files: map<Name, Text>, latest: map<Name, Resolver>)
    requires Records(files, latest)
    ensures VisibleNames(files) == latest.Keys
  {
  }

  lemma AddIsRecorded(files: map<Name, Text>, latest: map<Name, Resolver>, key: Name, resolver: Resolver, text: Text)
    requires Records(files, latest) && WellFormed(resolver) && text == EntryText(resolver)
    ensures Records(files[key := text], if Visible(key) then latest[key := resolver] else latest)
  {
  }

  /** Names that do not count can change freely. */
  lemma SameVisibleFiles(files: map<Name, Text>, after: map<Name, Text>, latest: map<Name, Resolver>)
    requires Records(files, latest)
    requires forall n :: Visible(n) ==> (n in after <==> n in files) && (n in files ==> after[n] == files[n])
    ensures Records(after, latest)
  {
  }

  lemma RemovalIsRecorded(files: map<Name, Text>, latest: map<Name, Resolver>, key: Name)
    requires Records(files, latest)
    ensures Records(files - {key}, if Visible(key) then latest - {key} else latest)
  {
  }

  class ResolverState {
    var files: map<Name, Text>
    var conf: Option<Text>

    constructor ()
      ensures files == map[] && conf == None
    {
      files, conf := map[], None;
    }

    /** Write an entry through a temporary and a rename. */
    method WriteEntry(name: Name, contents: Text, progress: Progress)
      modifies this`files
      ensures var temporary := name + Ascii(".nmbl-tmp");
        files == match progress
          case Untouched => old(files)
          case Cleared => old(files) - {temporary}
          case Partial(text) => old(files)[temporary := text]
          case Done => old(files)[name := contents] - {temporary}
      ensures forall n :: Visible(n) && n != name ==> (n in files <==> n in old(files))
      ensures forall n :: Visible(n) && n != name && n in files ==> files[n] == old(files)[n]
      ensures progress.Done? ==> name in files && files[name] == contents
      ensures !progress.Done? && Visible(name) ==>
        (name in files <==> name in old(files)) && (name in files ==> files[name] == old(files)[name])
    {
      var temporary := name + Unfinished();
      TemporaryIsInvisible(name);
      if progress.Untouched? {
        return;
      }
      files := files - {temporary};
      if progress.Cleared? {
        return;
      }
      files := files[temporary := if progress.Partial? then progress.text else contents];
      if progress.Partial? {
        return;
      }
      files := files[name := files[temporary]] - {temporary};
      assert |temporary| > |name|;
    }

    /** The names of the entries, read in any order and sorted. */
    method Listing() returns (names: seq<Name>)
      ensures Lists(names, VisibleNames(files))
    {
      names := [];
      var left := files.Keys;
      while left != {}
        invariant left <= files.Keys
        invariant Lists(names, set n | n in files && Visible(n) && n !in left)
        decreases |left|
      {
        var n :| n in left;
        if Visible(n) {
          InsertKeepsOrder(names, n);
          names := Insert(names, n);
        }
        left := left - {n};
      }
    }

    /** Read all entries and write them down together. */
    method Render() returns (text: Text)
      ensures WrittenFrom(text, files, VisibleNames(files))
    {
      var names := Listing();
      var whole := EMPTY;
      var texts := Texts(files, names);
      for i := 0 to |texts|
        invariant ReadAll(whole, texts[i..]) == ReadAll(EMPTY, texts)
      {
        assert texts[i..][1..] == texts[i + 1..];
        whole := ReadEntry(whole, texts[i]);
      }
      assert texts[|texts|..] == [];
      if whole.domain.Some? && whole.search == [whole.domain.value] {
        whole := whole.(search := []);
      }
      var body := RenderEntry(whole);
      text := Greeting() + CommaList(names) + [NEWLINE] + body;
    }

    /** Add or remove an entry. */
    method Change(run: Run, ghost latest: map<Name, Resolver>)
      requires Records(files, latest) && ProperAction(run.action)
      modifies this`files
      ensures Records(files, AfterRun(latest, run))
      ensures run.action == Nothing ==> files == old(files)
    {
      if run.action.Add? {
        var text := RenderEntry(run.action.resolver);
        WriteEntry(run.action.key, text, run.entry);
        ghost var key, was := run.action.key, old(files);
        AddIsRecorded(was, latest, key, run.action.resolver, text);
        SameVisibleFiles(if run.entry.Done? then was[key := text] else was, files, AfterRun(latest, run));
      } else if run.action.Remove? && run.entry.Done? {
        RemovalIsRecorded(files, latest, run.action.key);
        files := files - {run.action.key};
      }
    }

    /** One run of the hook: change the entry, then write resolv.conf. Wherever
        it stops, the entries are what the runs so far recorded; when it
        finishes, resolv.conf shows exactly them. */
    method Apply(run: Run, ghost latest: map<Name, Resolver>) returns (ok: bool)
      requires Records(files, latest) && ProperAction(run.action)
      modifies this
      ensures Records(files, AfterRun(latest, run))
      ensures ok <==> run.action == Nothing || (run.entry.Done? && run.conf.Done?)
      ensures ok && run.action != Nothing ==> Shows(conf, files, AfterRun(latest, run))
      ensures !ok || run.action == Nothing ==> conf == old(conf)
      ensures run.action == Nothing ==> files == old(files)
    {
      Change(run, latest);
      if run.action == Nothing {
        return true;
      }
      if !run.entry.Done? {
        return false;
      }
      var text := Render();
      if !run.conf.Done? {
        return false;
      }
      conf := Some(text);
      VisibleAreRecorded(files, AfterRun(latest, run));
      ok := true;
    }

    /** Any sequence of runs from an empty state. */
    method Runs(runs: seq<Run>) returns (ok: seq<bool>)
      requires files == map[] && conf == None && forall i :: 0 <= i < |runs| ==> ProperAction(runs[i].action)
      modifies this
      ensures Records(files, Latest(runs, |runs|)) && |ok| == |runs|
      ensures forall i :: 0 <= i < |runs| ==>
        (ok[i] <==> runs[i].action == Nothing || (runs[i].entry.Done? && runs[i].conf.Done?))
      ensures Settled(runs, |runs|) ==> Shows(conf, files, Latest(runs, |runs|))
    {
      ok := [];
      for k := 0 to |runs|
        invariant |ok| == k && Records(files, Latest(runs, k))
        invariant forall i :: 0 <= i < k ==>
          (ok[i] <==> runs[i].action == Nothing || (runs[i].entry.Done? && runs[i].conf.Done?))
        invariant Settled(runs, k) ==> Shows(conf, files, Latest(runs, k))
      {
        var done := ApplyNext(runs, k);
        ok := ok + [done];
      }
    }

    /** The next of a sequence of runs. */
    method ApplyNext(runs: seq<Run>, k: nat) returns (ok: bool)
      requires k < |runs| && ProperAction(runs[k].action)
      requires Records(files, Latest(runs, k)) && (Settled(runs, k) ==> Shows(conf, files, Latest(runs, k)))
      modifies this
      ensures Records(files, Latest(runs, k + 1))
      ensures ok <==> runs[k].action == Nothing || (runs[k].entry.Done? && runs[k].conf.Done?)
      ensures Settled(runs, k + 1) ==> Shows(conf, files, Latest(runs, k + 1))
    {
      ok := Apply(runs[k], Latest(runs, k));
    }
  }
}
