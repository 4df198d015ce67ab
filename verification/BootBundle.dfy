/** Validation of one boot-set bundle and its space accounting
    (nmbl-boot-update/src/validate.rs). */
module BootBundles {
  import opened Basics
  import opened Manifests

  /** What a regular file can hold: a file length fits a signed 64-bit offset. */
  type Content = s: seq<Byte> | |s| < 0x8000_0000_0000_0000

  type Files = map<string, Content>

  const U64_MAX := 0xFFFF_FFFF_FFFF_FFFF
  const BLOCK := 4096
  const MANIFEST_LIMIT := 1024 * 1024
  const SIGNATURE_LIMIT := 64 * 1024

  /** The parser, the digest and the signature check under one fixed public
      key. They are deterministic and nothing else is assumed of them. */
  datatype Trust = Trust(parse: Content -> Option<Manifest>,
                         digest: Content -> string,
                         verify: (Content, string, Content) -> bool)

  const SIGNING_ROLES: set<string> :=
    {"gen-kernel", "gen-initrd", "driver-image", "staged-fragment", "priority-file", "rescue-sfs",
     "boot-config", "network-stage", "rescue-tools", "generation-image", "boot-set-manifest",
     "boot-set-artifact"}

  datatype Artifact = Artifact(entryIndex: nat, payload: Content, signature: Content)

  datatype Validated = Validated(manifest: Manifest, manifestBytes: Content, manifestSignature: Content,
                                 artifacts: seq<Artifact>, need: nat)

  function Lower(s: string): string {
    seq(|s|, i requires 0 <= i < |s| => if 'A' <= s[i] <= 'Z' then s[i] + 32 as char else s[i])
  }

  // ---------------------------------------------------------------------
  // Block arithmetic

  /** The accounting of one file, in saturating 64-bit arithmetic. */
  function Allocation(length: nat): (bytes: nat)
    requires length <= U64_MAX
  {
    (if length + 4095 <= U64_MAX then length + 4095 else U64_MAX) / BLOCK * BLOCK
  }

  /** Allocation is the least multiple of the block size that holds the file,
      exactly when that multiple is a 64-bit number. */
  lemma AllocationIsLeastMultiple(length: nat)
    requires length <= U64_MAX
    ensures Allocation(length) % BLOCK == 0
    ensures (length <= Allocation(length)
             && forall k: nat :: length <= k * BLOCK ==> Allocation(length) <= k * BLOCK)
            <==> length <= U64_MAX + 1 - BLOCK
  {
    if length <= U64_MAX + 1 - BLOCK {
      forall k: nat | length <= k * BLOCK ensures Allocation(length) <= k * BLOCK {
        assert (length + 4095) / BLOCK <= k;
      }
    }
  }

  /** The exact size on disk of a file's blocks. */
  function Blocks(content: Content): (bytes: nat)
    ensures bytes == Allocation(|content|)
    ensures |content| <= bytes < |content| + BLOCK
  {
    (|content| + 4095) / BLOCK * BLOCK
  }

  /** The blocks of one named file; an absent file takes none. */
  function BlocksAt(files: Files, name: string): nat {
    if name in files then Blocks(files[name]) else 0
  }

  /** The blocks of some named files, counted once per listed name. */
  function BlocksOf(files: Files, names: seq<string>): (total: nat) {
    if names == [] then 0
    else BlocksOf(files, names[..|names| - 1]) + BlocksAt(files, names[|names| - 1])
  }

  /** The blocks of a whole directory. */
  ghost function TreeBlocks(files: Files): (total: nat)
    decreases |files|
  {
    if files == map[] then 0
    else
      var name :| name in files;
      Blocks(files[name]) + TreeBlocks(files - {name})
  }

  lemma {:induction false} TreeBlocksTakesAny(files: Files, name: string)
    requires name in files
    ensures TreeBlocks(files) == Blocks(files[name]) + TreeBlocks(files - {name})
    decreases |files|
  {
    var first :| first in files &&
      TreeBlocks(files) == Blocks(files[first]) + TreeBlocks(files - {first});
    if first != name {
      TreeBlocksTakesAny(files - {first}, name);
      TreeBlocksTakesAny(files - {name}, first);
      assert files - {first} - {name} == files - {name} - {first};
    }
  }

  lemma TreeBlocksPut(files: Files, name: string, content: Content)
    requires name !in files
    ensures TreeBlocks(files[name := content]) == TreeBlocks(files) + Blocks(content)
  {
    TreeBlocksTakesAny(files[name := content], name);
    assert files[name := content] - {name} == files;
  }

  /** The files a slot directory receives. */
  function Restrict(files: Files, names: seq<string>): (kept: Files)
    ensures forall n :: n in kept <==> n in names && n in files
    ensures forall n :: n in kept ==> kept[n] == files[n]
  {
    map n | n in names && n in files :: files[n]
  }

  lemma RestrictSnoc(files: Files, names: seq<string>, name: string)
    requires name in files
    ensures Restrict(files, names + [name]) == Restrict(files, names)[name := files[name]]
  {
  }

  /** Counting the listed names counts the directory they fill: no name is
      listed twice, so nothing is counted twice. */
  lemma {:induction false} BlocksOfIsTreeBlocks(files: Files, names: seq<string>)
    requires Distinct(names) && forall n :: n in names ==> n in files
    ensures BlocksOf(files, names) == TreeBlocks(Restrict(files, names))
  {
    if names != [] {
      var k := |names| - 1;
      assert names == names[..k] + [names[k]];
      BlocksOfIsTreeBlocks(files, names[..k]);
      RestrictSnoc(files, names[..k], names[k]);
      TreeBlocksPut(Restrict(files, names[..k]), names[k], files[names[k]]);
    }
  }

  // ---------------------------------------------------------------------
  // What a valid bundle is

  /** The payload and signature of one entry are there and check out. */
  predicate ArtifactOk(t: Trust, files: Files, e: Entry) {
    && e.payload in files && e.signature in files
    && |files[e.signature]| <= SIGNATURE_LIMIT
    && t.digest(files[e.payload]) == Lower(e.sha512)
    && t.verify(files[e.payload], e.domain, files[e.signature])
  }

  /** The signed manifest is there, checks out and parses. */
  predicate ManifestSigned(t: Trust, files: Files) {
    && MANIFEST in files && MANIFEST_SIG in files
    && |files[MANIFEST]| <= MANIFEST_LIMIT && |files[MANIFEST_SIG]| <= SIGNATURE_LIMIT
    && t.verify(files[MANIFEST], "boot-set-manifest", files[MANIFEST_SIG])
    && t.parse(files[MANIFEST]).Some?
  }

  /** The first n entries are backed by sound artifacts. */
  ghost predicate ArtifactsOk(t: Trust, files: Files, entries: seq<Entry>) {
    forall i :: 0 <= i < |entries| ==> ArtifactOk(t, files, entries[i])
  }

  /** The complete set: signed manifest of the right shape, every member
      present with the right digest and signature, and a size that is a
      64-bit number. */
  ghost predicate Accepts(t: Trust, files: Files) {
    && ManifestSigned(t, files)
    && var m := t.parse(files[MANIFEST]).value;
    && ShapeOk(m)
    && ArtifactsOk(t, files, m.files)
    && (forall n :: n in StagedNames(m.files) ==> n in files)
    && BlocksOf(files, StagedNames(m.files)) <= U64_MAX
  }

  ghost function ManifestOf(t: Trust, files: Files): Manifest
    requires Accepts(t, files)
  {
    t.parse(files[MANIFEST]).value
  }

  /** The names a valid bundle stages, and the directory it becomes. */
  ghost function NamesOfSet(t: Trust, files: Files): seq<string>
    requires Accepts(t, files)
  {
    StagedNames(ManifestOf(t, files).files)
  }

  ghost function SetOf(t: Trust, files: Files): Files
    requires Accepts(t, files)
  {
    Restrict(files, NamesOfSet(t, files))
  }

  ghost function Need(t: Trust, files: Files): nat
    requires Accepts(t, files)
  {
    BlocksOf(files, NamesOfSet(t, files))
  }

  lemma {:induction false} BlocksOfAgree(a: Files, b: Files, names: seq<string>)
    requires forall n :: n in names ==> n in a && n in b && a[n] == b[n]
    ensures BlocksOf(a, names) == BlocksOf(b, names)
  {
    if names != [] {
      BlocksOfAgree(a, b, names[..|names| - 1]);
    }
  }

  /** Validation reads the listed members only, so a directory that agrees
      with a valid bundle on them is the same valid set. */
  lemma AcceptanceIsLocal(t: Trust, bundle: Files, other: Files)
    requires Accepts(t, bundle)
    requires forall n :: n in NamesOfSet(t, bundle) ==> n in other && other[n] == bundle[n]
    ensures Accepts(t, other)
    ensures ManifestOf(t, other) == ManifestOf(t, bundle)
    ensures SetOf(t, other) == SetOf(t, bundle) && Need(t, other) == Need(t, bundle)
  {
    var m := ManifestOf(t, bundle);
    var names := NamesOfSet(t, bundle);
    assert names[0] == MANIFEST && names[1] == MANIFEST_SIG;
    assert MANIFEST in names && MANIFEST_SIG in names;
    forall i | 0 <= i < |m.files| ensures ArtifactOk(t, other, m.files[i]) {
      var e := m.files[i];
      EntryNamesListed(m.files, i);
      assert ArtifactOk(t, bundle, e);
    }
    BlocksOfAgree(bundle, other, names);
  }

  lemma {:induction false} EntryNamesListed(entries: seq<Entry>, i: nat)
    requires i < |entries| && EntriesOk(entries)
    ensures entries[i].payload in StagedNames(entries)
    ensures entries[i].signature in StagedNames(entries)
  {
    var names := StagedNames(entries);
    assert EntryOk(entries[i]);
    assert names[2 + 2 * i] == entries[i].destination;
    assert names[3 + 2 * i] == entries[i].signature;
  }

  /** The staged copy of a valid bundle is itself valid, and its size on disk
      is the number preflight asks for. */
  lemma StagedSetAccepts(t: Trust, bundle: Files)
    requires Accepts(t, bundle)
    ensures Accepts(t, SetOf(t, bundle))
    ensures SetOf(t, SetOf(t, bundle)) == SetOf(t, bundle)
    ensures ManifestOf(t, SetOf(t, bundle)) == ManifestOf(t, bundle)
    ensures SetOf(t, bundle)[MANIFEST] == bundle[MANIFEST]
    ensures TreeBlocks(SetOf(t, bundle)) == Need(t, bundle)
  {
    AcceptanceIsLocal(t, bundle, SetOf(t, bundle));
    StagedNamesDistinct(ManifestOf(t, bundle).files);
    BlocksOfIsTreeBlocks(bundle, NamesOfSet(t, bundle));
  }

  // ---------------------------------------------------------------------
  // The validator

  /** The bytes of the two metadata files and of the first k artifacts. */
  ghost function PrefixNeed(files: Files, entries: seq<Entry>, k: nat): nat
    requires k <= |entries|
  {
    BlocksOf(files, StagedNames(entries[..k]))
  }

  lemma PrefixNeedStep(files: Files, entries: seq<Entry>, k: nat)
    requires k < |entries|
    ensures StagedNames(entries[..k + 1]) ==
      StagedNames(entries[..k]) + [entries[k].destination] + [entries[k].signature]
    ensures PrefixNeed(files, entries, k + 1) ==
      PrefixNeed(files, entries, k) + BlocksAt(files, entries[k].destination) + BlocksAt(files, entries[k].signature)
  {
    var e := entries[k];
    assert entries[..k + 1][..k] == entries[..k];
    var before := StagedNames(entries[..k]);
    assert StagedNames(entries[..k + 1]) == before + [e.destination, e.signature];
    assert (before + [e.destination, e.signature])[..|before| + 1] == before + [e.destination];
    assert (before + [e.destination])[..|before|] == before;
    assert BlocksOf(files, before + [e.destination]) == BlocksOf(files, before) + BlocksAt(files, e.destination);
  }

  /** A prefix never needs more than the whole. */
  lemma {:induction false} PrefixNeedMonotone(files: Files, entries: seq<Entry>, k: nat)
    requires k <= |entries|
    ensures PrefixNeed(files, entries, k) <= BlocksOf(files, StagedNames(entries))
    decreases |entries| - k
  {
    if k == |entries| {
      assert entries[..k] == entries;
    } else {
      PrefixNeedMonotone(files, entries, k + 1);
      PrefixNeedStep(files, entries, k);
    }
  }

  /** The checks on one member: signature size, digest, signing domain,
      signature. */
  method VerifyArtifact(t: Trust, files: Files, e: Entry) returns (ok: bool)
    requires EntryOk(e)
    ensures ok <==> ArtifactOk(t, files, e)
  {
    if e.payload !in files || e.signature !in files { return false; }
    if |files[e.signature]| > SIGNATURE_LIMIT { return false; }
    if t.digest(files[e.payload]) != Lower(e.sha512) { return false; }
    if e.domain !in SIGNING_ROLES { return false; }
    ok := t.verify(files[e.payload], e.domain, files[e.signature]);
  }

  /** Read and verify the manifest, then check its shape. */
  method ReadManifest(t: Trust, files: Files) returns (m: Option<Manifest>)
    ensures m.Some? <==> ManifestSigned(t, files) && ShapeOk(t.parse(files[MANIFEST]).value)
    ensures m.Some? ==> m.value == t.parse(files[MANIFEST]).value
  {
    if MANIFEST !in files || |files[MANIFEST]| > MANIFEST_LIMIT { return None; }
    if MANIFEST_SIG !in files || |files[MANIFEST_SIG]| > SIGNATURE_LIMIT { return None; }
    if !t.verify(files[MANIFEST], "boot-set-manifest", files[MANIFEST_SIG]) { return None; }
    m := t.parse(files[MANIFEST]);
    if m.Some? {
      var shaped := ValidateShape(m.value);
      if !shaped { return None; }
    }
  }

  /** Open and check one member and add its space. */
  method ReadArtifact(t: Trust, files: Files, e: Entry, index: nat, need: nat) returns (r: Option<(Artifact, nat)>)
    requires EntryOk(e) && need <= U64_MAX
    ensures r.Some? <==>
      ArtifactOk(t, files, e) && need + BlocksAt(files, e.destination) + BlocksAt(files, e.signature) <= U64_MAX
    ensures r.Some? ==> r.value.0 == Artifact(index, files[e.destination], files[e.signature])
    ensures r.Some? ==> r.value.1 == need + BlocksAt(files, e.destination) + BlocksAt(files, e.signature)
  {
    var sound := VerifyArtifact(t, files, e);
    if !sound { return None; }
    var payload, signature := files[e.payload], files[e.signature];
    if need + Allocation(|payload|) > U64_MAX { return None; }
    if need + Allocation(|payload|) + Allocation(|signature|) > U64_MAX { return None; }
    r := Some((Artifact(index, payload, signature), need + Allocation(|payload|) + Allocation(|signature|)));
  }

  /** Read every member in order, starting from the space of the metadata. */
  method ReadArtifacts(t: Trust, files: Files, entries: seq<Entry>, metadata: nat)
    returns (r: Option<(seq<Artifact>, nat)>)
    requires EntriesOk(entries) && metadata == PrefixNeed(files, entries, 0) <= U64_MAX
    ensures r.Some? <==> ArtifactsOk(t, files, entries) && BlocksOf(files, StagedNames(entries)) <= U64_MAX
    ensures r.Some? ==> Backed(files, entries, r.value.0, |entries|)
    ensures r.Some? ==> r.value.1 == BlocksOf(files, StagedNames(entries))
  {
    var artifacts: seq<Artifact> := [];
    var need := metadata;
    for i := 0 to |entries|
      invariant forall j :: 0 <= j < i ==> ArtifactOk(t, files, entries[j])
      invariant need == PrefixNeed(files, entries, i) <= U64_MAX
      invariant Backed(files, entries, artifacts, i)
    {
      PrefixNeedStep(files, entries, i);
      PrefixNeedMonotone(files, entries, i + 1);
      var one := ReadArtifact(t, files, entries[i], i, need);
      if one.None? { return None; }
      artifacts, need := artifacts + [one.value.0], one.value.1;
    }
    assert entries[..|entries|] == entries;
    r := Some((artifacts, need));
  }

  lemma {:induction false} SoundArtifactsArePresent(t: Trust, files: Files, entries: seq<Entry>)
    requires MANIFEST in files && MANIFEST_SIG in files
    requires ArtifactsOk(t, files, entries) && EntriesOk(entries)
    ensures forall n :: n in StagedNames(entries) ==> n in files
  {
    if entries != [] {
      var k := |entries| - 1;
      SoundArtifactsArePresent(t, files, entries[..k]);
      assert EntryOk(entries[k]) && ArtifactOk(t, files, entries[k]);
    }
  }

  /** The validator accepts exactly the complete sets, and the total it adds
      up is the space the staged directory takes. */
  method ValidateBundle(t: Trust, files: Files) returns (r: Option<Validated>)
    ensures r.Some? <==> Accepts(t, files)
    ensures r.Some? ==> Describes(t, files, r.value)
  {
    var manifest := ReadManifest(t, files);
    if manifest.None? { return None; }
    var entries := manifest.value.files;
    MetadataNeed(files, entries);
    var metadata := Allocation(|files[MANIFEST]|) + Allocation(|files[MANIFEST_SIG]|);
    if ArtifactsOk(t, files, entries) { SoundArtifactsArePresent(t, files, entries); }
    var rest := ReadArtifacts(t, files, entries, metadata);
    if rest.None? { return None; }
    r := Some(Validated(manifest.value, files[MANIFEST], files[MANIFEST_SIG], rest.value.0, rest.value.1));
  }

  lemma MetadataNeed(files: Files, entries: seq<Entry>)
    ensures StagedNames(entries[..0]) == [MANIFEST, MANIFEST_SIG]
    ensures PrefixNeed(files, entries, 0) == BlocksAt(files, MANIFEST) + BlocksAt(files, MANIFEST_SIG)
  {
    assert [MANIFEST, MANIFEST_SIG][..1] == [MANIFEST];
    assert [MANIFEST][..0] == [];
    assert BlocksOf(files, [MANIFEST]) == BlocksAt(files, MANIFEST);
  }

  /** The pinned artifacts are the bytes of the first k entries' files. */
  ghost predicate Backed(files: Files, entries: seq<Entry>, artifacts: seq<Artifact>, k: nat)
    requires k <= |entries|
  {
    && |artifacts| == k
    && forall i :: 0 <= i < k ==>
      && entries[i].destination in files && entries[i].signature in files
      && artifacts[i] == Artifact(i, files[entries[i].destination], files[entries[i].signature])
  }

  ghost predicate Describes(t: Trust, files: Files, v: Validated)
    requires Accepts(t, files)
  {
    && v.manifest == ManifestOf(t, files)
    && v.manifestBytes == files[MANIFEST] && v.manifestSignature == files[MANIFEST_SIG]
    && v.need == Need(t, files)
    && Backed(files, v.manifest.files, v.artifacts, |v.manifest.files|)
  }

  // ---------------------------------------------------------------------
  // Staging order

  /** The directory after the metadata and the first k members are written. */
  ghost function PrefixSet(files: Files, entries: seq<Entry>, k: nat): Files
    requires k <= |entries|
  {
    Restrict(files, StagedNames(entries[..k]))
  }

  ghost predicate AllPresent(files: Files, entries: seq<Entry>) {
    forall n :: n in StagedNames(entries) ==> n in files
  }

  lemma {:induction false} PrefixPresent(files: Files, entries: seq<Entry>, k: nat)
    requires k <= |entries| && AllPresent(files, entries)
    ensures AllPresent(files, entries[..k])
    decreases |entries| - k
  {
    if k < |entries| {
      PrefixPresent(files, entries, k + 1);
      PrefixNeedStep(files, entries, k);
    } else {
      assert entries[..k] == entries;
    }
  }

  lemma {:induction false} PrefixSetIsCounted(files: Files, entries: seq<Entry>, k: nat)
    requires k <= |entries| && EntriesOk(entries) && AllPresent(files, entries)
    ensures TreeBlocks(PrefixSet(files, entries, k)) == PrefixNeed(files, entries, k)
      <= BlocksOf(files, StagedNames(entries))
  {
    PrefixPresent(files, entries, k);
    PrefixNeedMonotone(files, entries, k);
    EntriesOkPrefix(entries, k);
    StagedNamesDistinct(entries[..k]);
    BlocksOfIsTreeBlocks(files, StagedNames(entries[..k]));
  }

  /** Member k brings two names no earlier member uses. */
  lemma MemberNamesAreNew(entries: seq<Entry>, k: nat)
    requires k < |entries| && EntriesOk(entries)
    ensures entries[k].destination !in StagedNames(entries[..k])
    ensures entries[k].signature !in StagedNames(entries[..k])
    ensures entries[k].signature != entries[k].destination
    ensures StagedNames(entries[..k + 1]) ==
      StagedNames(entries[..k]) + [entries[k].destination] + [entries[k].signature]
  {
    var e := entries[k];
    EntriesOkPrefix(entries, k + 1);
    StagedNamesDistinct(entries[..k + 1]);
    assert entries[..k + 1][..k] == entries[..k];
    var now, later := StagedNames(entries[..k]), StagedNames(entries[..k + 1]);
    assert later == now + [e.destination, e.signature];
    assert later[|now|] == e.destination && later[|now| + 1] == e.signature;
    assert forall i :: 0 <= i < |now| ==> later[i] == now[i];
  }

  /** Writing member k extends the staged prefix, and the whole never needs
      less than the prefix with it. */
  lemma {:induction false} PrefixSetStep(files: Files, entries: seq<Entry>, k: nat)
    requires k < |entries| && EntriesOk(entries) && AllPresent(files, entries)
    ensures entries[k].destination in files && entries[k].signature in files
    ensures entries[k].destination !in PrefixSet(files, entries, k)
    ensures entries[k].signature !in PrefixSet(files, entries, k)
    ensures entries[k].signature != entries[k].destination
    ensures PrefixSet(files, entries, k + 1) ==
      PrefixSet(files, entries, k)[entries[k].destination := files[entries[k].destination]]
                                  [entries[k].signature := files[entries[k].signature]]
    ensures TreeBlocks(PrefixSet(files, entries, k))
      + Blocks(files[entries[k].destination]) + Blocks(files[entries[k].signature])
      <= BlocksOf(files, StagedNames(entries))
  {
    var e := entries[k];
    assert EntryOk(e);
    EntryNamesListed(entries, k);
    MemberNamesAreNew(entries, k);
    PrefixSetIsCounted(files, entries, k);
    PrefixSetIsCounted(files, entries, k + 1);
    var now := StagedNames(entries[..k]);
    assert TreeBlocks(PrefixSet(files, entries, k))
      + Blocks(files[e.destination]) + Blocks(files[e.signature]) == PrefixNeed(files, entries, k + 1) by {
      PrefixNeedStep(files, entries, k);
    }
    RestrictSnoc(files, now + [e.destination], e.signature);
    RestrictSnoc(files, now, e.destination);
  }

  lemma {:induction false} PrefixSetStart(files: Files, entries: seq<Entry>)
    requires EntriesOk(entries) && AllPresent(files, entries)
    ensures MANIFEST in files && MANIFEST_SIG in files
    ensures PrefixSet(files, entries, 0) == map[MANIFEST := files[MANIFEST], MANIFEST_SIG := files[MANIFEST_SIG]]
    ensures Blocks(files[MANIFEST]) + Blocks(files[MANIFEST_SIG]) <= BlocksOf(files, StagedNames(entries))
  {
    var names := StagedNames(entries);
    assert names[0] in names && names[1] in names;
    MetadataNeed(files, entries);
    PrefixNeedMonotone(files, entries, 0);
  }
}
