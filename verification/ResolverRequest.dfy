/** What requests do to resolv.conf, and the forms of names and addresses,
    written out. */
module ResolverRequests {
  import opened Basics
  import opened Lines
  import opened ResolverTexts
  import opened ResolverHooks

  // ---------------------------------------------------------------------
  // Forms

  predicate LetterOrDigit(b: Byte) {
    48 <= b <= 57 || 65 <= b <= 90 || 97 <= b <= 122
  }

  /** One to fifteen letters, digits, underscores, dots, dashes and at signs,
      but not the names of the directory and its parent. */
  lemma InterfaceForm(name: Name)
    ensures ValidInterface(name) <==>
      && 1 <= |name| <= 15 && name != Ascii(".") && name != Ascii("..")
      && forall i :: 0 <= i < |name| ==> LetterOrDigit(name[i]) || name[i] in Ascii("_.-@")
  {
    assert Ascii("_.-@") == [95, 46, 45, 64] && Ascii(".") == [46] && Ascii("..") == [46, 46];
  }

  lemma ProtocolForm(protocol: Name)
    ensures ValidProtocol(protocol) <==> forall i :: 0 <= i < |protocol| ==> LetterOrDigit(protocol[i])
  {
  }

  /** An address without a scope in canonical form, or an IPv6 address whose
      scope is an interface. */
  lemma ServerForm(parse: AddressParser, value: Text, result: Text)
    ensures Server(parse, value) == Some(result) <==>
      || (37 !in value && parse(value).Some? && parse(value).value.0 == result)
      || (exists address, scope :: IsScoped(parse, value, address, scope, result))
  {
    var n := IndexOf(value, PERCENT);
    if 37 !in value {
      IndexOfNone(value, PERCENT);
      assert value[..n] == value;
    } else {
      PercentIsFound(value);
      assert value == value[..n] + [37] + value[n + 1..];
      if Server(parse, value) == Some(result) {
        assert IsScoped(parse, value, value[..n], value[n + 1..], result);
      }
      if address, scope :| IsScoped(parse, value, address, scope, result) {
        IndexOfAfter(address, PERCENT, scope);
        assert value[..n] == address && value[n + 1..] == scope;
      }
    }
  }

  lemma {:induction false} PercentIsFound(value: Text)
    ensures 37 in value <==> IndexOf(value, PERCENT) < |value|
  {
    assert value[..|value|] == value;
  }

  predicate IsScoped(parse: AddressParser, value: Text, address: Text, scope: Text, result: Text) {
    && value == address + [37] + scope && 37 !in address && ValidInterface(scope)
    && parse(address).Some? && parse(address).value.1 && result == parse(address).value.0 + [37] + scope
  }

  /** One to 63 letters, digits and inner dashes. */
  predicate Label(text: Text) {
    && 1 <= |text| <= 63 && text[0] != 45 && text[|text| - 1] != 45
    && forall i :: 0 <= i < |text| ==> LetterOrDigit(text[i]) || text[i] == 45
  }

  lemma LabelForm(text: Text)
    ensures ValidLabel(text) <==> Label(text)
  {
  }

  /** Labels with dots between them. */
  function Dotted(labels: seq<Text>): Text
    requires labels != []
  {
    if |labels| == 1 then labels[0] else labels[0] + [46] + Dotted(labels[1..])
  }

  /** A domain name is labels with dots between them, at most 253 bytes, and
      perhaps one more dot. */
  lemma DomainForm(name: Text)
    ensures ValidDomain(name) <==> exists labels: seq<Text> :: IsDomain(labels, name)
  {
    if ValidDomain(name) {
      DomainHasLabels(name);
    }
    if labels: seq<Text> :| IsDomain(labels, name) {
      LabelsAreDomain(labels, name);
    }
  }

  lemma {:induction false} DomainHasLabels(name: Text)
    requires ValidDomain(name)
    ensures exists labels: seq<Text> :: IsDomain(labels, name)
  {
    var stem := if name != [] && Last(name) == DOT then Init(name) else name;
    assert name == stem || name == stem + [46];
    StemIsDomain(stem, name);
  }

  lemma {:induction false} LabelsAreDomain(labels: seq<Text>, name: Text)
    requires IsDomain(labels, name)
    ensures ValidDomain(name)
  {
    SameLabels(labels);
    FieldsOfDotted(labels, Dotted(labels));
    DottedEnd(labels);
    StemIs(name, Dotted(labels));
  }

  lemma {:induction false} StemIsDomain(stem: Text, name: Text)
    requires |stem| <= 253 && forall i :: 0 <= i < |Fields(stem, DOT)| ==> ValidLabel(Fields(stem, DOT)[i])
    requires name == stem || name == stem + [46]
    ensures exists labels: seq<Text> :: IsDomain(labels, name)
  {
    SameLabels(Fields(stem, DOT));
    DottedFields(stem);
    assert IsDomain(Fields(stem, DOT), name);
  }

  lemma SameLabels(labels: seq<Text>)
    ensures (forall i :: 0 <= i < |labels| ==> ValidLabel(labels[i]))
      <==> forall i :: 0 <= i < |labels| ==> Label(labels[i])
  {
    forall i | 0 <= i < |labels| ensures ValidLabel(labels[i]) <==> Label(labels[i]) {
      LabelForm(labels[i]);
    }
  }

  lemma StemIs(name: Text, stem: Text)
    requires stem != [] && Last(stem) != DOT && (name == stem || name == stem + [46])
    ensures stem == if name != [] && Last(name) == DOT then Init(name) else name
  {
  }

  predicate IsDomain(labels: seq<Text>, name: Text) {
    && labels != [] && (forall i :: 0 <= i < |labels| ==> Label(labels[i]))
    && |Dotted(labels)| <= 253 && (name == Dotted(labels) || name == Dotted(labels) + [46])
  }

  lemma {:induction false} DottedFields(s: Text)
    ensures Fields(s, DOT) != [] && Dotted(Fields(s, DOT)) == s
    decreases |s|
  {
    var n := IndexOf(s, DOT);
    if n < |s| {
      DottedFields(s[n + 1..]);
      assert Fields(s, DOT)[1..] == Fields(s[n + 1..], DOT);
      assert s == s[..n] + [46] + s[n + 1..];
    } else {
      assert s[..n] == s;
    }
  }

  lemma {:induction false} FieldsOfDotted(labels: seq<Text>, text: Text)
    requires labels != [] && text == Dotted(labels) && forall i :: 0 <= i < |labels| ==> Label(labels[i])
    ensures Fields(text, DOT) == labels
    decreases |labels|
  {
    var first, rest := labels[0], labels[1..];
    assert DOT !in first && labels == [first] + rest;
    if rest == [] {
      OneField(first);
    } else {
      FieldsOfDotted(rest, Dotted(rest));
      FieldsFirst(first, DOT, Dotted(rest));
    }
  }

  lemma {:induction false} OneField(word: Text)
    requires DOT !in word
    ensures Fields(word, DOT) == [word]
  {
    IndexOfNone(word, DOT);
    assert word[..|word|] == word;
  }

  lemma {:induction false} DottedEnd(labels: seq<Text>)
    requires labels != [] && forall i :: 0 <= i < |labels| ==> Label(labels[i])
    ensures Dotted(labels) != [] && Last(Dotted(labels)) != 46
    decreases |labels|
  {
    if |labels| > 1 {
      DottedEnd(labels[1..]);
    }
  }

  /** Names are listed like words in a dictionary: by the first byte in which
      they differ, a name before its extensions. */
  lemma {:induction false} BeforeForm(a: Name, b: Name)
    ensures Before(a, b) <==> exists k :: Diverge(a, b, k)
  {
    if a != [] && b != [] && a[0] == b[0] {
      BeforeForm(a[1..], b[1..]);
      if k :| Diverge(a[1..], b[1..], k) {
        assert a[..k + 1] == [a[0]] + a[1..][..k] && b[..k + 1] == [b[0]] + b[1..][..k];
        assert Diverge(a, b, k + 1);
      }
      if k :| Diverge(a, b, k) {
        assert k > 0;
        assert a[1..][..k - 1] == a[..k][1..] && b[1..][..k - 1] == b[..k][1..];
        assert Diverge(a[1..], b[1..], k - 1);
      }
    } else {
      if Before(a, b) {
        assert Diverge(a, b, 0);
      }
      if k :| Diverge(a, b, k) {
        SameStart(a, b, k);
      }
    }
  }

  lemma SameStart(a: Name, b: Name, k: int)
    requires Diverge(a, b, k)
    ensures k > 0 ==> a != [] && a[0] == b[0]
  {
    assert k > 0 ==> a[0] == a[..k][0] && b[0] == b[..k][0];
  }

  predicate Diverge(a: Name, b: Name, k: int) {
    && 0 <= k <= |a| && k < |b| && a[..k] == b[..k] && (k < |a| ==> a[k] < b[k])
  }

  /** The first line of resolv.conf says who wrote it, and from which entries. */
  lemma GreetingText()
    ensures Greeting() == Ascii("# Generated by the NMBL rescue DHCP hook from ")
  {
  }

  lemma {:induction false} NamesForm(first: Name, second: Name, rest: seq<Name>)
    ensures CommaList([first]) == first
    ensures CommaList([first, second] + rest) == first + Ascii(", ") + CommaList([second] + rest)
  {
    assert ([first, second] + rest)[1..] == [second] + rest && Ascii(", ") == [44, 32];
  }

  // ---------------------------------------------------------------------
  // One request, from the variables to resolv.conf

  /** The recorded entries, all under proper file names. */
  ghost predicate Keeps(files: map<Name, Text>, latest: map<Name, Resolver>) {
    Records(files, latest) && forall n :: n in latest ==> ProperName(n)
  }

  /** Decide and carry out one request. A finished request of an interface that
      went down, or that brings nothing valid, leaves it without an entry; a
      finished request with something valid records exactly its valid names and
      servers, and every valid server is a nameserver line of resolv.conf; no
      other entry changes. */
  method Handle(state: ResolverState, parse: AddressParser, q: Request, entry: Progress, conf: Progress,
                ghost latest: map<Name, Resolver>) returns (ok: bool, ghost after: map<Name, Resolver>)
    requires CanonicalIsPlain(parse) && Keeps(state.files, latest)
    modifies state
    ensures Keeps(state.files, after) && OthersSame(latest, after, Key(q))
    ensures !Proper(q) || (!q.up && !q.advert && !q.down) ==> after == latest && state.conf == old(state.conf)
    ensures ok && Proper(q) && !q.up && !q.advert && q.down ==> Key(q) !in after
    ensures ok && Proper(q) && (q.up || q.advert) && !Useful(parse, q) ==> Key(q) !in after
    ensures ok && Proper(q) && (q.up || q.advert) && Useful(parse, q) && Counts(q) ==>
      Key(q) in after && Holds(parse, q, after[Key(q)]) && Listed(parse, q, state.conf)
  {
    after := latest;
    KeyIs(q);
    var decided := Decide(parse, q);
    if decided.Ok? {
      ActionsAreProper(parse, q);
      ok, after := Carry(state, Run(decided.value, entry, conf), latest);
      if decided.value.Add? && Key(q) in after && ok && Counts(q) {
        AddedIsShown(parse, q, state.conf, state.files, after);
      }
    } else {
      ok := false;
    }
  }

  /** Carry out one run. */
  method Carry(state: ResolverState, run: Run, ghost latest: map<Name, Resolver>)
    returns (ok: bool, ghost after: map<Name, Resolver>)
    requires ProperAction(run.action) && Keeps(state.files, latest)
    modifies state
    ensures Keeps(state.files, after)
    ensures run.action == Nothing ==> after == latest && state.conf == old(state.conf)
    ensures run.action != Nothing ==> OthersSame(latest, after, run.action.key)
    ensures ok && run.action.Remove? ==> run.action.key !in after
    ensures ok && run.action.Add? && Visible(run.action.key) ==>
      run.action.key in after && after[run.action.key] == run.action.resolver && Shows(state.conf, state.files, after)
  {
    ok := state.Apply(run, latest);
    after := AfterRun(latest, run);
    AfterRunKeeps(latest, run);
  }

  lemma AfterRunKeeps(latest: map<Name, Resolver>, run: Run)
    requires ProperAction(run.action) && forall n :: n in latest ==> ProperName(n) && Visible(n)
    ensures var after := AfterRun(latest, run);
      && (forall n :: n in after ==> ProperName(n))
      && (run.action != Nothing ==> OthersSame(latest, after, run.action.key))
      && (run.action.Remove? && run.entry.Done? ==> run.action.key !in after)
  {
  }

  ghost predicate OthersSame(latest: map<Name, Resolver>, after: map<Name, Resolver>, key: Name) {
    after - {key} == latest - {key}
  }

  /** Every valid server of the request is a nameserver line. */
  predicate Listed(parse: AddressParser, q: Request, conf: Option<Text>) {
    conf.Some? && forall i :: 0 <= i < |q.servers| && Server(parse, q.servers[i]).Some? ==>
      Server(parse, q.servers[i]).value in LineValues(conf.value, Ascii("nameserver"))
  }

  /** The name of a request's entry. */
  function Key(q: Request): Name {
    if q.protocol == [] then q.interface else q.interface + Ascii(".") + q.protocol
  }

  /** The entry is not taken for an unfinished file. */
  predicate Counts(q: Request) {
    !(|Key(q)| >= 9 && Key(q)[|Key(q)| - 9..] == Ascii(".nmbl-tmp"))
  }

  lemma KeyIs(q: Request)
    ensures Key(q) == ResolverHooks.Key(q.interface, q.protocol)
    ensures Counts(q) <==> Visible(Key(q))
  {
    assert Ascii(".") == [DOT];
  }

  /** What an entry says, line by line. */
  lemma {:induction false} EntryForm(domain: Text, search: seq<Text>, server: Text, servers: seq<Text>)
    requires search != []
    ensures EntryText(Resolver(Some(domain), search, [server] + servers))
      == Ascii("domain ") + domain + [10] + Ascii("search ") + Joined(search) + [10]
         + Ascii("nameserver ") + server + [10]
         + EntryText(Resolver(None, [], servers))
  {
    assert Ascii("domain ") == DomainWord() + [32] && Ascii("search ") == SearchWord() + [32];
    assert Ascii("nameserver ") == ServerWord() + [32];
    assert ([server] + servers)[1..] == servers;
  }

  /** Names of a search line have a blank between them. */
  lemma {:induction false} JoinedForm(first: Text, second: Text, rest: seq<Text>)
    ensures Joined([first]) == first && Joined([first, second] + rest) == first + [32] + Joined([second] + rest)
  {
    assert ([first, second] + rest)[1..] == [second] + rest;
  }

  /** The servers of an entry that resolv.conf shows are nameserver lines of
      it. */
  lemma {:induction false} AddedIsShown(parse: AddressParser, q: Request, conf: Option<Text>, files: map<Name, Text>,
                                        after: map<Name, Resolver>)
    requires Keeps(files, after) && Shows(conf, files, after)
    requires Key(q) in after && Holds(parse, q, after[Key(q)])
    ensures Listed(parse, q, conf)
  {
    var names :| Lists(names, after.Keys) && (forall n :: n in names ==> n in files)
      && conf.value == ConfText(names, ReadAll(EMPTY, Texts(files, names)));
    ConfIsUnion(files, after, names);
    forall i | 0 <= i < |q.servers| && Server(parse, q.servers[i]).Some?
      ensures Server(parse, q.servers[i]).value in LineValues(conf.value, Ascii("nameserver"))
    {
      var value := Server(parse, q.servers[i]).value;
      assert Passes(ServerCheck(parse), q.servers, value);
      ServerIsAmong(after, names, Key(q), value);
    }
  }

  lemma {:induction false} ServerIsAmong(latest: map<Name, Resolver>, names: seq<Name>, name: Name, value: Text)
    requires (forall n :: n in names ==> n in latest) && name in names && value in latest[name].servers
    ensures value in Servers(Resolvers(latest, names))
    decreases |names|
  {
    var rest := names[1..];
    assert names == [names[0]] + rest;
    assert Resolvers(latest, names)[1..] == Resolvers(latest, rest);
    if name != names[0] {
      ServerIsAmong(latest, rest, name, value);
    }
  }
}
