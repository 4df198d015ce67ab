/** From the source directory to the boot slot: what a finished producer run
    holds with every name and signing domain written out, what its set id
    identifies, and what an install of it leaves in the slot. */
module BootDeliveries {
  import opened Basics
  import opened Manifests
  import opened BootBundles
  import opened BootFiles
  import opened BootInstalls
  import opened BootRuns
  import opened BootProducers
  import opened BootAcceptances

  /** The member of a role came over unchanged, with its signature, or is
      nowhere when there is no source for it. */
  ghost predicate MemberCame(signer: Signer, sources: Sources, role: Role, files: Files) {
    var (name, domain) := Row(role);
    if name in sources then
      && sources[name].Regular? && name in files && name + ".sig" in files
      && files[name] == sources[name].bytes && files[name + ".sig"] == signer.sign(sources[name].bytes, domain)
    else name !in files && name + ".sig" !in files
  }

  /** Everything of the sources, and the manifest signed. */
  ghost predicate Came(signer: Signer, sources: Sources, m: Manifest, files: Files) {
    && (forall role :: MemberCame(signer, sources, role, files))
    && "manifest.json" in files && files["manifest.json"] == signer.encode(m)
    && "manifest.json.sig" in files
    && files["manifest.json.sig"] == signer.sign(signer.encode(m), "boot-set-manifest")
  }

  /** A finished run holds every member of its sources and nothing else, and is
      made for the slot it was asked for. */
  lemma MadeCame(t: Trust, signer: Signer, identity: seq<Byte> -> string, slot: char, sources: Sources,
                 m: Manifest, built: Files)
    requires Made(t, signer, identity, slot, sources, m, built)
    ensures Came(signer, sources, m, built) && m.targetSlot == [slot] && m.version == 1
  {
    forall role ensures MemberCame(signer, sources, role, built) {
      MadeMember(t, signer, identity, slot, sources, m, built, role);
    }
  }

  lemma SignedCame(signer: Signer, sources: Sources, e: Entry, built: Files)
    requires EntryOk(e) && SignedMember(e, Plain(sources), signer, built)
    ensures MemberCame(signer, sources, e.role, built)
  {
  }

  lemma MadeMember(t: Trust, signer: Signer, identity: seq<Byte> -> string, slot: char, sources: Sources,
                   m: Manifest, built: Files, role: Role)
    requires Made(t, signer, identity, slot, sources, m, built)
    ensures MemberCame(signer, sources, role, built)
  {
    if role in RolesOf(m.files) {
      var i :| 0 <= i < |m.files| && m.files[i].role == role;
      assert EntryOk(m.files[i]);
      SignedCame(signer, sources, m.files[i], built);
    } else {
      NewNamesAreFree(m.files, role);
      RoleNamesDiffer(role, role);
    }
  }

  // ---------------------------------------------------------------------
  // Producing is reproducible

  /** Two runs from the same sources for the same slot make the same set. */
  lemma MadeIsDetermined(t: Trust, signer: Signer, identity: seq<Byte> -> string, slot: char, sources: Sources,
                         m: Manifest, built: Files, m': Manifest, built': Files)
    requires Made(t, signer, identity, slot, sources, m, built)
    requires Made(t, signer, identity, slot, sources, m', built')
    ensures m == m' && built == built'
  {
    SameOrder(m.files, m'.files, Plain(sources), t.digest);
    SameMembers(m.files, signer, Plain(sources), built, Plain(sources), built');
  }

  /** Signing the same members gives the same files. */
  lemma {:induction false} SameMembers(entries: seq<Entry>, signer: Signer, found: Files, built: Files,
                                       found': Files, built': Files)
    requires EntriesOk(entries) && Signed(entries, found, signer, built) && Signed(entries, found', signer, built')
    requires forall i :: 0 <= i < |entries| ==>
      entries[i].payload in found && entries[i].payload in found'
      && found[entries[i].payload] == found'[entries[i].payload]
    requires built.Keys == built'.Keys == MemberNames(entries) + {MANIFEST, MANIFEST_SIG}
    requires built[MANIFEST] == built'[MANIFEST] && built[MANIFEST_SIG] == built'[MANIFEST_SIG]
    ensures built == built'
  {
    forall name | name in built ensures built[name] == built'[name] {
      NameOrigin(entries, name);
      if name in MemberNames(entries) {
        var i :| 0 <= i < |entries| && name in {entries[i].destination, entries[i].signature};
        assert SignedMember(entries[i], found, signer, built) && SignedMember(entries[i], found', signer, built');
        assert EntryOk(entries[i]);
      }
    }
  }

  lemma {:induction false} NameOrigin(entries: seq<Entry>, name: string)
    requires EntriesOk(entries)
    ensures name in MemberNames(entries)
      ==> exists i :: 0 <= i < |entries| && name in {entries[i].destination, entries[i].signature}
  {
    if entries != [] && name in MemberNames(entries) {
      var last := entries[|entries| - 1];
      if name in {last.destination, last.signature} {
      } else {
        EntriesOkPrefix(entries, |entries| - 1);
        NameOrigin(entries[..|entries| - 1], name);
      }
    }
  }

  /** Lists in table order with the same roles are the same. */
  lemma {:induction false} SameOrder(a: seq<Entry>, b: seq<Entry>, found: Files, digest: Content -> string)
    requires InOrder(a) && InOrder(b) && Produced(a, found, digest) && Produced(b, found, digest)
    requires forall role :: role in RolesOf(a) <==> role in RolesOf(b)
    ensures a == b
  {
    if a == [] || b == [] {
      NoRoles(a, b);
    } else {
      var k, l := |a| - 1, |b| - 1;
      LastIsGreatest(a, b[l].role);
      LastIsGreatest(b, a[k].role);
      SameRole(a[k].role, b[l].role);
      WithoutLast(a);
      WithoutLast(b);
      SameOrder(a[..k], b[..l], found, digest);
      assert a == a[..k] + [a[k]] && b == b[..l] + [b[l]];
    }
  }

  lemma NoRoles(a: seq<Entry>, b: seq<Entry>)
    requires forall role :: role in RolesOf(a) <==> role in RolesOf(b)
    ensures a == [] <==> b == []
  {
    assert a != [] ==> a[0].role in RolesOf(a);
    assert b != [] ==> b[0].role in RolesOf(b);
  }

  lemma LastIsGreatest(entries: seq<Entry>, role: Role)
    requires entries != [] && InOrder(entries) && role in RolesOf(entries)
    ensures MemberIndex(role) <= MemberIndex(entries[|entries| - 1].role)
  {
  }

  lemma SameRole(a: Role, b: Role)
    requires MemberIndex(a) == MemberIndex(b)
    ensures a == b
  {
  }

  lemma WithoutLast(entries: seq<Entry>)
    requires entries != [] && InOrder(entries)
    ensures var k := |entries| - 1;
      InOrder(entries[..k])
      && forall role :: role in RolesOf(entries[..k]) <==> role in RolesOf(entries) && role != entries[k].role
  {
    var k := |entries| - 1;
    forall role ensures role in RolesOf(entries[..k]) <==> role in RolesOf(entries) && role != entries[k].role {
      if role in RolesOf(entries[..k]) {
        var i :| 0 <= i < k && entries[..k][i].role == role;
        assert entries[i].role == role;
      }
    }
  }

  // ---------------------------------------------------------------------
  // What the set id identifies

  lemma AsciiIsInjective(a: string, b: string)
    requires Ascii(a) == Ascii(b)
    requires forall i :: 0 <= i < |a| ==> a[i] < 128 as char
    requires forall i :: 0 <= i < |b| ==> b[i] < 128 as char
    ensures a == b
  {
    assert |a| == |Ascii(a)| == |Ascii(b)| == |b|;
    forall i | 0 <= i < |a| ensures a[i] == b[i] {
      assert Ascii(a)[i] == Ascii(b)[i];
    }
  }

  /** Names of different roles end in different letters. */
  lemma LastLetter(role: Role)
    ensures |FileName(role)| > 0
    ensures FileName(role)[|FileName(role)| - 1] == match role
      case Bootloader => 'r' case Kernel => 'l' case Initrd => 'd' case Rescue => 'e'
      case Network => 'k' case Tools => 's' case Config => 'g'
  {
  }

  /** Both texts end in a name and a digest, so both are the same. */
  lemma SameEnd(p: seq<Byte>, q: seq<Byte>, a: Entry, b: Entry)
    requires EntryOk(a) && EntryOk(b)
    requires p + Ascii(a.destination) + Ascii(a.sha512) == q + Ascii(b.destination) + Ascii(b.sha512)
    ensures a == b && p == q
  {
    var x, y := p + Ascii(a.destination), q + Ascii(b.destination);
    assert |Ascii(a.sha512)| == 128 == |Ascii(b.sha512)|;
    assert x == (x + Ascii(a.sha512))[..|x|] == (y + Ascii(b.sha512))[..|y|] == y;
    assert Ascii(a.sha512) == (x + Ascii(a.sha512))[|x|..] == (y + Ascii(b.sha512))[|y|..] == Ascii(b.sha512);
    AsciiIsInjective(a.sha512, b.sha512);
    LastLetter(a.role);
    LastLetter(b.role);
    assert x[|x| - 1] == Ascii(a.destination)[|a.destination| - 1];
    assert y[|y| - 1] == Ascii(b.destination)[|b.destination| - 1];
    assert a.role == b.role;
    assert p == x[..|p|] && q == y[..|q|];
  }

  lemma SameWhole<T>(a: seq<T>, b: seq<T>)
    requires a != [] && b != [] && a[..|a| - 1] == b[..|b| - 1] && a[|a| - 1] == b[|b| - 1]
    ensures a == b
  {
    assert a == a[..|a| - 1] + [a[|a| - 1]] && b == b[..|b| - 1] + [b[|b| - 1]];
  }

  lemma SameSlot(slot: char, slot': char)
    requires slot < 128 as char && slot' < 128 as char && Ascii([slot]) == Ascii([slot'])
    ensures slot == slot'
  {
    AsciiIsInjective([slot], [slot']);
    assert [slot][0] == [slot'][0];
  }

  lemma {:induction false} IdentityLength(slot: char, entries: seq<Entry>)
    requires forall i :: 0 <= i < |entries| ==> EntryOk(entries[i])
    ensures |IdentityText(slot, entries)| == 1 <==> entries == []
  {
  }

  /** The text that is hashed to the set id tells the slot and every entry. */
  lemma {:induction false} IdentityIsInjective(slot: char, a: seq<Entry>, slot': char, b: seq<Entry>)
    requires slot < 128 as char && slot' < 128 as char && IdentityText(slot, a) == IdentityText(slot', b)
    requires (forall i :: 0 <= i < |a| ==> EntryOk(a[i])) && forall i :: 0 <= i < |b| ==> EntryOk(b[i])
    ensures slot == slot' && a == b
  {
    IdentityLength(slot, a);
    IdentityLength(slot', b);
    if a == [] {
      SameSlot(slot, slot');
    } else {
      var k, l := |a| - 1, |b| - 1;
      var p, q := IdentityText(slot, a[..k]), IdentityText(slot', b[..l]);
      SameEnd(p, q, a[k], b[l]);
      IdentityIsInjective(slot, a[..k], slot', b[..l]);
      SameWhole(a, b);
    }
  }

  /** With a hash and a digest that tell contents apart, two finished runs with
      one set id made the same set for the same slot, whatever their sources
      were. */
  lemma SetIdIdentifiesSet(t: Trust, signer: Signer, identity: seq<Byte> -> string,
                           slot: char, sources: Sources, m: Manifest, built: Files,
                           slot': char, sources': Sources, m': Manifest, built': Files)
    requires (slot == 'A' || slot == 'B') && (slot' == 'A' || slot' == 'B')
    requires Made(t, signer, identity, slot, sources, m, built)
    requires Made(t, signer, identity, slot', sources', m', built') && m.setId == m'.setId
    requires forall x, y :: identity(x) == identity(y) ==> x == y
    requires forall x, y :: t.digest(x) == t.digest(y) ==> x == y
    ensures slot == slot' && m == m' && built == built'
  {
    IdentityIsInjective(slot, m.files, slot', m'.files);
    SameDigests(m.files, t.digest, Plain(sources), Plain(sources'));
    SameMembers(m.files, signer, Plain(sources), built, Plain(sources'), built');
  }

  lemma SameDigests(entries: seq<Entry>, digest: Content -> string, found: Files, found': Files)
    requires Produced(entries, found, digest) && Produced(entries, found', digest)
    requires forall x, y :: digest(x) == digest(y) ==> x == y
    ensures forall i :: 0 <= i < |entries| ==>
      entries[i].payload in found && entries[i].payload in found'
      && found[entries[i].payload] == found'[entries[i].payload]
  {
  }

  // ---------------------------------------------------------------------
  // From the sources to the slot

  /** Produce a set and install it where nothing fails: when it is made for the
      slot that is not selected, not running yet, and has room, that slot is
      selected and holds each source member unchanged with its signature, and
      no other member. */
  method PrepareThenInstall(slot: Slot, sources: Sources, t: Trust, signer: Signer, identity: seq<Byte> -> string,
                            producer: Producer, root: BootRoot)
    returns (r: Option<Result<Outcome, Error>>, ghost m: Manifest, ghost built: Files)
    requires Agree(t, signer) && forall text :: HexDigest(identity(text))
    requires producer.output.None? && !producer.faulted
    requires root.Valid() && root.plan.Never?
    modifies producer, root
    ensures r.None? ==> root.fs == old(root.fs)
    ensures !producer.faulted ==> (r.Some? <==> Usable(sources) && Small(signer, m, built))
    ensures r.Some? ==>
      && producer.output == Some(built) && Came(signer, sources, m, built) && Accepts(t, built)
      && m.targetSlot == (if slot.A? then "A" else "B")
      && (r.value == Ok(Activated(slot)) <==> WillActivate(t, built, old(root.fs), root.capacity))
    ensures r.Some? && r.value == Ok(Activated(slot)) ==>
      && SelectsSlot(root.fs, slot) && root.fs.At(Live(slot)).node.Dir?
      && Came(signer, sources, m, Contents(root.fs.At(Live(slot)).node.files))
  {
    var ok;
    ok, m, built := producer.Prepare(if slot.A? then 'A' else 'B', sources, t, signer, identity);
    if !ok {
      return None, m, built;
    }
    MadeCame(t, signer, identity, if slot.A? then 'A' else 'B', sources, m, built);
    var answer := root.Install(t, producer.output.value, NO_LIMITS);
    r := Some(answer);
    if answer.Ok? && answer.value.Activated? {
      PublishedRuns(t, built, answer.value.slot, root.fs);
      SelectsIsNamed(root.fs, answer.value.slot);
    }
  }
}
