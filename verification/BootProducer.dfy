/** The producer of boot-set bundles (nmbl-boot-update/src/prepare.rs).

    Any call may fail; `faulted` tells whether one did. A failed run removes its
    output again, as far as that works. */
module BootProducers {
  import opened Basics
  import opened Manifests
  import opened BootBundles

  /** The manifest encoder and the signing key. */
  datatype Signer = Signer(encode: Manifest -> Content, sign: (Content, string) -> Content)

  /** What the two sides promise each other: the parser reads what the encoder
      wrote, the verifier accepts what the key signed for the same domain, and
      digests are lower-case hexadecimal. */
  ghost predicate Agree(t: Trust, s: Signer) {
    && (forall m :: ShapeOk(m) ==> t.parse(s.encode(m)) == Some(m))
    && (forall bytes, domain :: t.verify(bytes, domain, s.sign(bytes, domain)))
    && (forall bytes, domain :: |s.sign(bytes, domain)| <= SIGNATURE_LIMIT)
    && forall bytes :: HexDigest(t.digest(bytes)) && Lower(t.digest(bytes)) == t.digest(bytes)
  }

  /** The place of a role in the member table. */
  ghost function MemberIndex(role: Role): (n: nat)
    ensures n < |MEMBERS| && MEMBERS[n].0 == role && (MEMBERS[n].1 <==> role in REQUIRED)
  {
    match role
    case Bootloader => 0
    case Kernel => 1
    case Initrd => 2
    case Rescue => 3
    case Config => 4
    case Network => 5
    case Tools => 6
  }

  /** Entries in the order of the member table. */
  ghost predicate InOrder(files: seq<Entry>) {
    forall i, j :: 0 <= i < j < |files| ==> MemberIndex(files[i].role) < MemberIndex(files[j].role)
  }

  /** Every entry describes the file it was copied from. */
  ghost predicate Produced(files: seq<Entry>, sources: Files, digest: Content -> string) {
    forall i :: 0 <= i < |files| ==>
      files[i].payload in sources
      && files[i] == ProducedEntry(files[i].role, digest(sources[files[i].payload]))
  }

  /** Every member was copied and signed under its domain. */
  ghost predicate Signed(files: seq<Entry>, sources: Files, signer: Signer, output: Files) {
    forall i :: 0 <= i < |files| ==> SignedMember(files[i], sources, signer, output)
  }

  ghost predicate SignedMember(e: Entry, sources: Files, signer: Signer, output: Files) {
    && e.payload in sources && e.payload in output && e.signature in output
    && output[e.payload] == sources[e.payload]
    && output[e.signature] == signer.sign(sources[e.payload], e.domain)
  }

  /** What stands under a name in the source directory. */
  datatype Source = Regular(bytes: Content) | Special

  type Sources = map<string, Source>

  function Plain(sources: Sources): Files {
    map n | n in sources && sources[n].Regular? :: sources[n].bytes
  }

  /** All required members are there, and every member there is a regular
      file. */
  predicate Usable(sources: Sources) {
    forall r: Role ::
      && (FileName(r) in sources ==> sources[FileName(r)].Regular?)
      && (r in REQUIRED ==> FileName(r) in sources)
  }

  /** The first k members of the table have been looked at: those found are
      regular and listed, and no required one was missing. */
  ghost predicate TakenUpTo(entries: seq<Entry>, sources: Sources, k: nat) {
    && (forall r :: r in RolesOf(entries) <==> MemberIndex(r) < k && FileName(r) in sources)
    && (forall r :: MemberIndex(r) < k && FileName(r) in sources ==> sources[FileName(r)].Regular?)
    && (forall r :: r in REQUIRED && MemberIndex(r) < k ==> FileName(r) in sources)
  }

  lemma OneRoleAt(k: nat, role: Role)
    requires k < |MEMBERS| && MEMBERS[k].0 == role
    ensures forall r :: MemberIndex(r) == k <==> r == role
    ensures MEMBERS[k].1 <==> role in REQUIRED
  {
    assert MemberIndex(role) == k;
  }

  /** A member of the table that is not there is passed over, unless it is
      required. */
  lemma MissingAt(entries: seq<Entry>, sources: Sources, k: nat)
    requires k < |MEMBERS| && FileName(MEMBERS[k].0) !in sources && TakenUpTo(entries, sources, k)
    ensures if MEMBERS[k].1 then !Usable(sources) else TakenUpTo(entries, sources, k + 1)
  {
    OneRoleAt(k, MEMBERS[k].0);
  }

  /** The files of the listed members. */
  ghost function MemberNames(entries: seq<Entry>): set<string> {
    if entries == [] then {}
    else
      var last := entries[|entries| - 1];
      MemberNames(entries[..|entries| - 1]) + {last.destination, last.signature}
  }

  /** A role that is not listed yet has unused names, and the metadata files
      never have a member's name. */
  lemma {:induction false} NewNamesAreFree(entries: seq<Entry>, role: Role)
    requires EntriesOk(entries) && role !in RolesOf(entries)
    ensures FileName(role) !in MemberNames(entries) && FileName(role) + ".sig" !in MemberNames(entries)
  {
    if entries != [] {
      var last := entries[|entries| - 1];
      assert EntryOk(last) && last.role in RolesOf(entries);
      RoleNamesDiffer(role, last.role);
      RoleNamesDiffer(last.role, role);
      NewNamesAreFree(entries[..|entries| - 1], role);
    }
  }

  lemma {:induction false} MetadataNamesAreFree(entries: seq<Entry>)
    requires EntriesOk(entries)
    ensures MANIFEST !in MemberNames(entries) && MANIFEST_SIG !in MemberNames(entries)
  {
    if entries != [] {
      var last := entries[|entries| - 1];
      OwnNamesDiffer(last);
      MetadataNamesAreFree(entries[..|entries| - 1]);
    }
  }

  lemma {:induction false} NextNamesAreFree(entries: seq<Entry>, sources: Sources, k: nat, role: Role)
    requires k < |MEMBERS| && MEMBERS[k].0 == role && EntriesOk(entries) && TakenUpTo(entries, sources, k)
    ensures {FileName(role), FileName(role) + ".sig"} !! MemberNames(entries)
    ensures MANIFEST_SIG !in MemberNames(entries) + {FileName(role), FileName(role) + ".sig"}
  {
    OneRoleAt(k, role);
    assert role !in RolesOf(entries);
    MetadataNamesAreFree(entries);
    NewNamesAreFree(entries, role);
    RoleNamesDiffer(role, role);
  }

  lemma {:induction false} MembersAreStaged(entries: seq<Entry>)
    requires EntriesOk(entries)
    ensures forall n :: n in MemberNames(entries) ==> n in StagedNames(entries)
  {
    if entries != [] {
      var last := entries[|entries| - 1];
      assert EntryOk(last);
      MembersAreStaged(entries[..|entries| - 1]);
    }
  }

  lemma SignedGrows(entries: seq<Entry>, sources: Files, signer: Signer, output: Files, e: Entry)
    requires Signed(entries, sources, signer, output) && EntriesOk(entries + [e]) && e.payload in sources
    ensures var bytes := sources[e.payload];
      var more := output[e.payload := bytes][e.signature := signer.sign(bytes, e.domain)];
      Signed(entries + [e], sources, signer, more)
  {
    var more := output[e.payload := sources[e.payload]][e.signature := signer.sign(sources[e.payload], e.domain)];
    var longer := entries + [e];
    forall i | 0 <= i < |longer| ensures SignedMember(longer[i], sources, signer, more) {
      assert EntryOk(longer[i]) && EntryOk(longer[|entries|]);
      RoleNamesDiffer(longer[i].role, e.role);
      RoleNamesDiffer(e.role, longer[i].role);
      if i < |entries| {
        assert longer[i] == entries[i] && longer[i].role != longer[|entries|].role;
      }
    }
  }

  /** What the set id is the hash of: the slot, and the name and digest of each
      member in order. */
  function IdentityText(slot: char, entries: seq<Entry>): (text: seq<Byte>)
    ensures text != []
  {
    if entries == [] then Ascii([slot])
    else
      var last := entries[|entries| - 1];
      IdentityText(slot, entries[..|entries| - 1]) + Ascii(last.destination) + Ascii(last.sha512)
  }

  lemma {:induction false} IdentityTextNext(slot: char, entries: seq<Entry>, e: Entry)
    ensures IdentityText(slot, entries + [e]) == IdentityText(slot, entries) + Ascii(e.destination) + Ascii(e.sha512)
  {
    assert (entries + [e])[..|entries|] == entries;
  }

  /** What a finished run has made: a manifest listing exactly the members
      found, each copied and signed under its domain, and nothing else. */
  ghost predicate Made(t: Trust, signer: Signer, identity: seq<Byte> -> string, slot: char, sources: Sources,
                       m: Manifest, built: Files) {
    && ShapeOk(m) && m.targetSlot == [slot] && m.setId == identity(IdentityText(slot, m.files))
    && (forall role :: role in RolesOf(m.files) <==> FileName(role) in sources)
    && InOrder(m.files)
    && Produced(m.files, Plain(sources), t.digest) && Signed(m.files, Plain(sources), signer, built)
    && built.Keys == MemberNames(m.files) + {MANIFEST, MANIFEST_SIG}
    && built[MANIFEST] == signer.encode(m)
    && built[MANIFEST_SIG] == signer.sign(signer.encode(m), "boot-set-manifest")
  }

  /** The limits of the final check. */
  ghost predicate Small(signer: Signer, m: Manifest, built: Files) {
    |signer.encode(m)| <= MANIFEST_LIMIT && BlocksOf(built, StagedNames(m.files)) <= U64_MAX
  }

  /** A run was cut before the manifest's signature, which is written last, or
      has written everything but possibly some of that signature. */
  ghost predicate CutShort(left: Files, built: Files) {
    MANIFEST_SIG in left ==> SameButSignature(left, built)
  }

  ghost predicate SameButSignature(left: Files, built: Files) {
    left.Keys == built.Keys && forall n :: n in left && n != MANIFEST_SIG ==> left[n] == built[n]
  }

  predicate Submap(part: Files, whole: Files) {
    forall n :: n in part ==> n in whole && part[n] == whole[n]
  }

  /** The members copied so far, and nothing else in the output. */
  ghost predicate Copied(entries: seq<Entry>, sources: Sources, digest: Content -> string, signer: Signer, k: nat,
                         output: Files) {
    && EntriesOk(entries) && InOrder(entries) && Produced(entries, Plain(sources), digest)
    && Signed(entries, Plain(sources), signer, output)
    && output.Keys == MemberNames(entries) && TakenUpTo(entries, sources, k)
  }

  class Producer {
    /** The output directory, if it is there. */
    var output: Option<Files>
    ghost var faulted: bool

    constructor (output: Option<Files>)
      ensures this.output == output && !faulted
    {
      this.output, faulted := output, false;
    }

    method Call() returns (ok: bool)
      modifies this`faulted
      ensures faulted == (old(faulted) || !ok)
    {
      ok := *;
      if !ok {
        faulted := true;
      }
    }

    /** Create a new file, write it and sync it; a failure leaves none of it or
        a prefix. */
    method Create(name: string, bytes: Content) returns (ok: bool)
      requires output.Some? && name !in output.value
      modifies this
      ensures output.Some? && faulted == (old(faulted) || !ok)
      ensures ok ==> output.value == old(output).value[name := bytes]
      ensures output.value.Keys <= old(output).value.Keys + {name}
      ensures forall n :: n in old(output).value ==> n in output.value && output.value[n] == old(output).value[n]
    {
      ghost var before := output.value;
      ok := Call();
      if !ok {
        return;
      }
      output := Some(output.value[name := []]);
      ok := Call();
      if !ok {
        var k: int := *;
        if 0 <= k <= |bytes| {
          output := Some(output.value[name := bytes[..k]]);
        }
        return;
      }
      output := Some(output.value[name := bytes]);
      assert output.value == before[name := bytes];
      ok := Call();
    }

    /** Copy one member, hash the copy and sign it. */
    method AddMember(role: Role, source: Source, digest: Content -> string, signer: Signer) returns (e: Option<Entry>)
      requires output.Some? && {FileName(role), FileName(role) + ".sig"} !! output.value.Keys
      modifies this
      ensures output.Some? && (old(faulted) ==> faulted)
      ensures output.value.Keys <= old(output).value.Keys + {FileName(role), FileName(role) + ".sig"}
      ensures e.Some? ==> source.Regular? && faulted == old(faulted)
      ensures e.Some? ==>
        && e.value == ProducedEntry(role, digest(source.bytes))
        && output.value == old(output).value[e.value.payload := source.bytes]
                             [e.value.signature := signer.sign(source.bytes, e.value.domain)]
      ensures e.None? ==> faulted || source.Special?
    {
      var ok := Call();
      if !ok || source.Special? {
        return None;
      }
      RoleNamesDiffer(role, role);
      ok := Create(FileName(role), source.bytes);
      if !ok {
        return None;
      }
      ok := Call();
      if !ok {
        return None;
      }
      var entry := ProducedEntry(role, digest(source.bytes));
      ok := Create(entry.signature, signer.sign(source.bytes, entry.domain));
      e := if ok then Some(entry) else None;
    }

    /** Copy and sign every member that is there. */
    method CopyMembers(slot: char, sources: Sources, digest: Content -> string, signer: Signer)
      returns (r: Option<seq<Entry>>, text: seq<Byte>)
      requires output == Some(map[]) && forall bytes :: HexDigest(digest(bytes))
      modifies this
      ensures output.Some? && (old(faulted) ==> faulted)
      ensures r.Some? ==> faulted == old(faulted) && Copied(r.value, sources, digest, signer, |MEMBERS|, output.value)
      ensures r.Some? ==> text == IdentityText(slot, r.value)
      ensures r.None? ==> (faulted || !Usable(sources)) && MANIFEST_SIG !in output.value
    {
      var entries: seq<Entry> := [];
      text := Ascii([slot]);
      for k := 0 to |MEMBERS|
        invariant faulted == old(faulted) && output.Some?
        invariant Copied(entries, sources, digest, signer, k, output.value)
        invariant text == IdentityText(slot, entries)
      {
        var (role, required) := MEMBERS[k];
        MetadataNamesAreFree(entries);
        if FileName(role) !in sources {
          MissingAt(entries, sources, k);
          if required {
            return None, text;
          }
        } else {
          var e := AddNext(entries, sources, digest, signer, k, role);
          if e.None? {
            return None, text;
          }
          IdentityTextNext(slot, entries, e.value);
          entries := entries + [e.value];
          text := text + Ascii(e.value.destination) + Ascii(e.value.sha512);
        }
      }
      r := Some(entries);
    }

    /** Add the member at a place of the table. */
    method AddNext(ghost entries: seq<Entry>, sources: Sources, digest: Content -> string, signer: Signer,
                   ghost k: nat, role: Role)
      returns (e: Option<Entry>)
      requires k < |MEMBERS| && MEMBERS[k].0 == role
      requires FileName(role) in sources && forall bytes :: HexDigest(digest(bytes))
      requires output.Some? && Copied(entries, sources, digest, signer, k, output.value)
      modifies this
      ensures output.Some? && (old(faulted) ==> faulted)
      ensures e.Some? ==> faulted == old(faulted)
      ensures e.Some? ==> Copied(entries + [e.value], sources, digest, signer, k + 1, output.value)
      ensures e.None? ==> (faulted || !Usable(sources)) && MANIFEST_SIG !in output.value
    {
      NextNamesAreFree(entries, sources, k, role);
      ghost var before := output.value;
      e := AddMember(role, sources[FileName(role)], digest, signer);
      if e.Some? {
        OneMoreCopied(entries, sources, digest, signer, before, e.value, k, sources[FileName(role)].bytes,
                      output.value);
      }
    }

    /** Fill the new output: members, signed manifest, and the check of the
        finished output. With a key and a trust that agree, that check can only
        fail for itself because the manifest or the whole set is too large. */
    method Populate(slot: char, sources: Sources, t: Trust, signer: Signer, identity: seq<Byte> -> string)
      returns (r: bool, ghost m: Manifest, ghost built: Files)
      requires output == Some(map[]) && (slot == 'A' || slot == 'B')
      requires Agree(t, signer) && forall text :: HexDigest(identity(text))
      modifies this
      ensures output.Some? && (old(faulted) ==> faulted)
      ensures Usable(sources) && !faulted ==> Made(t, signer, identity, slot, sources, m, built)
      ensures r ==> Usable(sources) && faulted == old(faulted) && output.value == built && Small(signer, m, built)
      ensures !r ==> faulted || !Usable(sources) || !Small(signer, m, built)
      ensures !r ==> CutShort(output.value, built)
      ensures MANIFEST_SIG in output.value ==> Made(t, signer, identity, slot, sources, m, built)
    {
      m, built := Manifest(1, "", "", []), map[];
      var copied, text := CopyMembers(slot, sources, t.digest, signer);
      if copied.None? {
        return false, m, built;
      }
      var entries := copied.value;
      var manifest := Manifest(1, identity(text), [slot], entries);
      var bytes := signer.encode(manifest);
      MetadataNamesAreFree(entries);
      ManifestGoesBeside(entries, Plain(sources), signer, output.value, bytes);
      var signature := signer.sign(bytes, "boot-set-manifest");
      m, built := manifest, output.value[MANIFEST := bytes][MANIFEST_SIG := signature];
      r := AddManifest(bytes, signature);
      if r {
        r := CheckOutput(t, signer, Plain(sources), m);
      }
    }

    /** The signed manifest goes last. */
    method AddManifest(bytes: Content, signature: Content) returns (ok: bool)
      requires output.Some? && MANIFEST !in output.value && MANIFEST_SIG !in output.value
      modifies this
      ensures output.Some? && faulted == (old(faulted) || !ok)
      ensures var built := old(output).value[MANIFEST := bytes][MANIFEST_SIG := signature];
        if ok then output.value == built else CutShort(output.value, built)
    {
      ManifestNamesDiffer();
      ok := Create(MANIFEST, bytes);
      if ok {
        ok := Create(MANIFEST_SIG, signature);
      }
    }

    /** The check of the finished output, whose reads can fail. */
    method CheckOutput(t: Trust, ghost signer: Signer, ghost sources: Files, ghost m: Manifest) returns (r: bool)
      requires output.Some? && Agree(t, signer) && ShapeOk(m)
      requires Produced(m.files, sources, t.digest) && Signed(m.files, sources, signer, output.value)
      requires {MANIFEST, MANIFEST_SIG} <= output.value.Keys && output.value[MANIFEST] == signer.encode(m)
      requires output.value[MANIFEST_SIG] == signer.sign(signer.encode(m), "boot-set-manifest")
      modifies this`faulted
      ensures old(faulted) ==> faulted
      ensures r ==> faulted == old(faulted) && Small(signer, m, output.value)
      ensures !r ==> faulted || !Small(signer, m, output.value)
    {
      var ok := Call();
      if !ok {
        return false;
      }
      AcceptsUnlessTooLarge(t, signer, sources, m, output.value);
      var checked := ValidateBundle(t, output.value);
      r := checked.Some?;
    }

    /** Remove the output file by file. */
    method RemoveOutput()
      requires output.Some?
      modifies this
      ensures old(faulted) ==> faulted
      ensures !faulted ==> output.None?
      ensures output.Some? ==> Submap(output.value, old(output).value)
    {
      while output.value != map[]
        invariant output.Some? && Submap(output.value, old(output).value) && faulted == old(faulted)
        decreases |output.value|
      {
        var ok := Call();
        if !ok {
          return;
        }
        var name :| name in output.value;
        output := Some(output.value - {name});
      }
      var ok := Call();
      if ok {
        output := None;
      }
    }

    /** Produce a bundle. An output that is there already is refused and left
        alone. Without faults the run succeeds exactly when the sources are
        usable and the result is within its limits, and leaves nothing when it
        fails. Whatever happens, an output that the installer would accept
        holds exactly what a finished run makes, but for part of the signature
        written last. */
    method Prepare(slot: char, sources: Sources, t: Trust, signer: Signer, identity: seq<Byte> -> string)
      returns (r: bool, ghost m: Manifest, ghost built: Files)
      requires (slot == 'A' || slot == 'B') && !faulted
      requires Agree(t, signer) && forall text :: HexDigest(identity(text))
      modifies this
      ensures old(output).Some? ==> !r && output == old(output)
      ensures r ==>
        && Made(t, signer, identity, slot, sources, m, built) && output == Some(built)
        && Accepts(t, built) && ManifestOf(t, built) == m && SetOf(t, built) == built
      ensures !faulted && old(output).None? ==>
        && (Usable(sources) ==> Made(t, signer, identity, slot, sources, m, built))
        && (r <==> Usable(sources) && Small(signer, m, built))
      ensures !faulted && !r ==> output == old(output)
      ensures old(output).None? && output.Some? && Accepts(t, output.value) ==>
        Made(t, signer, identity, slot, sources, m, built) && SameButSignature(output.value, built)
    {
      m, built := Manifest(1, "", "", []), map[];
      if output.Some? {
        return false, m, built;
      }
      var ok := Call();
      if !ok {
        return false, m, built;
      }
      output := Some(map[]);
      ok := Call();
      if !ok {
        return false, m, built;
      }
      r, m, built := Populate(slot, sources, t, signer, identity);
      if r {
        MadeIsAccepted(t, signer, identity, slot, sources, m, built);
      } else {
        ghost var cut := output.value;
        RemoveOutput();
        if output.Some? && Accepts(t, output.value) {
          LeftoverIsComplete(t, signer, identity, slot, sources, m, built, cut, output.value);
        }
      }
    }
  }

  lemma OneMoreCopied(entries: seq<Entry>, sources: Sources, digest: Content -> string, signer: Signer,
                      before: Files, e: Entry, k: nat, bytes: Content, after: Files)
    requires Copied(entries, sources, digest, signer, k, before)
    requires k < |MEMBERS| && MEMBERS[k].0 == e.role && FileName(e.role) in sources
    requires sources[FileName(e.role)] == Regular(bytes) && HexDigest(digest(bytes))
    requires e == ProducedEntry(e.role, digest(bytes))
    requires after == before[e.payload := bytes][e.signature := signer.sign(bytes, e.domain)]
    ensures Copied(entries + [e], sources, digest, signer, k + 1, after)
  {
    OneMoreListed(entries, sources, k, e);
    OneMoreMade(entries, Plain(sources), digest, signer, before, e, bytes, after);
  }

  lemma OneMoreListed(entries: seq<Entry>, sources: Sources, k: nat, e: Entry)
    requires EntriesOk(entries) && InOrder(entries) && TakenUpTo(entries, sources, k) && EntryOk(e)
    requires k < |MEMBERS| && MEMBERS[k].0 == e.role
    requires FileName(e.role) in sources && sources[FileName(e.role)].Regular?
    ensures EntriesOk(entries + [e]) && InOrder(entries + [e]) && TakenUpTo(entries + [e], sources, k + 1)
  {
    TakenNext(entries, sources, k, e);
    LastInOrder(entries, sources, k, e);
    EntriesOkSnoc(entries, e);
  }

  lemma {:induction false} OneMoreMade(entries: seq<Entry>, found: Files, digest: Content -> string, signer: Signer,
                                       before: Files, e: Entry, bytes: Content, after: Files)
    requires Produced(entries, found, digest) && Signed(entries, found, signer, before)
    requires EntriesOk(entries + [e]) && before.Keys == MemberNames(entries)
    requires e.payload in found && found[e.payload] == bytes && e == ProducedEntry(e.role, digest(bytes))
    requires after == before[e.payload := bytes][e.signature := signer.sign(bytes, e.domain)]
    ensures Produced(entries + [e], found, digest) && Signed(entries + [e], found, signer, after)
    ensures after.Keys == MemberNames(entries + [e])
  {
    ProducedGrows(entries, found, digest, e);
    SignedGrows(entries, found, signer, before, e);
    MemberNamesNext(entries, e);
    assert after.Keys == before.Keys + {e.destination, e.signature};
  }

  lemma {:induction false} MemberNamesNext(entries: seq<Entry>, e: Entry)
    ensures MemberNames(entries + [e]) == MemberNames(entries) + {e.destination, e.signature}
  {
    assert (entries + [e])[..|entries|] == entries;
  }

  lemma TakenNext(entries: seq<Entry>, sources: Sources, k: nat, e: Entry)
    requires TakenUpTo(entries, sources, k) && EntriesOk(entries) && EntryOk(e)
    requires k < |MEMBERS| && MEMBERS[k].0 == e.role
    requires FileName(e.role) in sources && sources[FileName(e.role)].Regular?
    ensures TakenUpTo(entries + [e], sources, k + 1) && e.role !in RolesOf(entries)
  {
    OneRoleAt(k, e.role);
    EntriesOkSnoc(entries, e);
  }

  lemma LastInOrder(entries: seq<Entry>, sources: Sources, k: nat, e: Entry)
    requires TakenUpTo(entries, sources, k) && InOrder(entries) && k < |MEMBERS| && MEMBERS[k].0 == e.role
    ensures InOrder(entries + [e])
  {
    OneRoleAt(k, e.role);
    forall i | 0 <= i < |entries| ensures MemberIndex(entries[i].role) < k {
      assert entries[i].role in RolesOf(entries);
    }
  }

  lemma ProducedGrows(entries: seq<Entry>, found: Files, digest: Content -> string, e: Entry)
    requires Produced(entries, found, digest) && e.payload in found
    requires e == ProducedEntry(e.role, digest(found[e.payload]))
    ensures Produced(entries + [e], found, digest)
  {
  }

  /** A finished output within its limits is accepted as exactly itself. */
  lemma MadeIsAccepted(t: Trust, signer: Signer, identity: seq<Byte> -> string, slot: char, sources: Sources,
                       m: Manifest, built: Files)
    requires Agree(t, signer) && Made(t, signer, identity, slot, sources, m, built) && Small(signer, m, built)
    ensures Accepts(t, built) && ManifestOf(t, built) == m && SetOf(t, built) == built
  {
    AcceptsUnlessTooLarge(t, signer, Plain(sources), m, built);
    MembersAreStaged(m.files);
    var names := StagedNames(m.files);
    assert names[0] == MANIFEST && names[1] == MANIFEST_SIG;
    assert names[0] in names && names[1] in names;
  }

  /** What is left of a cut run is accepted only if nothing is missing. */
  lemma LeftoverIsComplete(t: Trust, signer: Signer, identity: seq<Byte> -> string, slot: char, sources: Sources,
                           m: Manifest, built: Files, cut: Files, left: Files)
    requires Agree(t, signer) && CutShort(cut, built) && Submap(left, cut) && Accepts(t, left)
    requires MANIFEST_SIG in cut ==> Made(t, signer, identity, slot, sources, m, built)
    ensures Made(t, signer, identity, slot, sources, m, built) && SameButSignature(left, built)
  {
    assert MANIFEST_SIG in left && MANIFEST in left;
    assert MANIFEST_SIG != MANIFEST by { ManifestNamesDiffer(); }
    assert t.parse(left[MANIFEST]) == Some(m);
    MembersAreStaged(m.files);
    assert built.Keys <= left.Keys;
  }

  /** The manifest's two files collide with no member. */
  lemma ManifestGoesBeside(entries: seq<Entry>, sources: Files, signer: Signer, output: Files, bytes: Content)
    requires EntriesOk(entries) && Signed(entries, sources, signer, output)
    ensures Signed(entries, sources, signer,
                   output[MANIFEST := bytes][MANIFEST_SIG := signer.sign(bytes, "boot-set-manifest")])
  {
    var more := output[MANIFEST := bytes][MANIFEST_SIG := signer.sign(bytes, "boot-set-manifest")];
    forall i | 0 <= i < |entries| ensures SignedMember(entries[i], sources, signer, more) {
      assert EntryOk(entries[i]) && SignedMember(entries[i], sources, signer, output);
      RoleNamesDiffer(entries[i].role, entries[i].role);
    }
  }

  lemma {:induction false} AcceptsUnlessTooLarge(t: Trust, signer: Signer, sources: Files, m: Manifest, built: Files)
    requires Agree(t, signer) && ShapeOk(m)
    requires Produced(m.files, sources, t.digest) && Signed(m.files, sources, signer, built)
    requires {MANIFEST, MANIFEST_SIG} <= built.Keys && built[MANIFEST] == signer.encode(m)
    requires built[MANIFEST_SIG] == signer.sign(signer.encode(m), "boot-set-manifest")
    ensures Accepts(t, built)
      <==> |signer.encode(m)| <= MANIFEST_LIMIT && BlocksOf(built, StagedNames(m.files)) <= U64_MAX
    ensures Accepts(t, built) ==> ManifestOf(t, built) == m
  {
    assert t.parse(built[MANIFEST]) == Some(m);
    forall i | 0 <= i < |m.files| ensures ArtifactOk(t, built, m.files[i]) {
      assert EntryOk(m.files[i]) && SignedMember(m.files[i], sources, signer, built);
    }
    SoundArtifactsArePresent(t, built, m.files);
  }
}
