/** Which boot sets are valid, with every name, limit and signing domain written
    out. */
module BootAcceptances {
  import opened Basics
  import opened Manifests
  import opened BootBundles

  /** The file name and the signing domain of each role. */
  function Row(role: Role): (string, string) {
    match role
    case Bootloader => ("bootloader", "boot-set-artifact")
    case Kernel => ("kernel", "boot-set-artifact")
    case Initrd => ("initrd", "boot-set-artifact")
    case Rescue => ("rescue", "rescue-sfs")
    case Network => ("network", "network-stage")
    case Tools => ("tools", "rescue-tools")
    case Config => ("config", "boot-config")
  }

  predicate Hex(c: char) {
    c in "0123456789abcdefABCDEF"
  }

  predicate Digest(text: string) {
    |text| == 128 && forall i :: 0 <= i < 128 ==> Hex(text[i])
  }

  /** The digest, in lower case, is what the manifest says in either case. */
  predicate SameDigest(digest: string, said: string) {
    |digest| == |said| && forall i :: 0 <= i < |said| ==>
      digest[i] == if 'A' <= said[i] <= 'Z' then said[i] + 32 as char else said[i]
  }

  /** The member a manifest entry describes is there and is what it says. */
  predicate MemberOk(t: Trust, files: Files, e: Entry) {
    var (name, domain) := Row(e.role);
    && e.destination == name && e.payload == name && e.signature == name + ".sig" && e.domain == domain
    && Digest(e.sha512)
    && name in files && name + ".sig" in files && |files[name + ".sig"]| <= 65536
    && SameDigest(t.digest(files[name]), e.sha512)
    && t.verify(files[name], domain, files[name + ".sig"])
  }

  /** A signed manifest for one of the slots, with the five required roles and
      none twice, all of its members, and a size that is a 64-bit number. */
  ghost predicate SetOk(t: Trust, files: Files) {
    && "manifest.json" in files && |files["manifest.json"]| <= 1048576
    && "manifest.json.sig" in files && |files["manifest.json.sig"]| <= 65536
    && t.verify(files["manifest.json"], "boot-set-manifest", files["manifest.json.sig"])
    && t.parse(files["manifest.json"]).Some?
    && var m := t.parse(files["manifest.json"]).value;
    && m.version == 1 && Digest(m.setId) && (m.targetSlot == "A" || m.targetSlot == "B")
    && (forall i :: 0 <= i < |m.files| ==> MemberOk(t, files, m.files[i]))
    && (forall i, j :: 0 <= i < j < |m.files| ==> m.files[i].role != m.files[j].role)
    && (forall role :: role in {Bootloader, Kernel, Initrd, Rescue, Config} ==> Has(m, role))
    && BlocksOf(files, StagedNames(m.files)) < 0x1_0000_0000_0000_0000
  }

  predicate Has(m: Manifest, role: Role) {
    exists i :: 0 <= i < |m.files| && m.files[i].role == role
  }

  lemma HexIsHex(c: char)
    ensures Hex(c) <==> HexDigit(c)
  {
    var all := "0123456789abcdefABCDEF";
    if '0' <= c <= '9' {
      assert all[c as int - '0' as int] == c;
    } else if 'a' <= c <= 'f' {
      assert all[c as int - 'a' as int + 10] == c;
    } else if 'A' <= c <= 'F' {
      assert all[c as int - 'A' as int + 16] == c;
    }
  }

  lemma DigestIsHexDigest(text: string)
    ensures Digest(text) <==> HexDigest(text)
  {
    forall i | 0 <= i < |text| ensures Hex(text[i]) <==> HexDigit(text[i]) {
      HexIsHex(text[i]);
    }
  }

  lemma SameDigestIsLower(digest: string, said: string)
    ensures SameDigest(digest, said) <==> digest == Lower(said)
  {
    assert SameDigest(digest, said) ==> forall i :: 0 <= i < |said| ==> digest[i] == Lower(said)[i];
  }

  lemma MemberOkIff(t: Trust, files: Files, e: Entry)
    ensures MemberOk(t, files, e) <==> EntryOk(e) && ArtifactOk(t, files, e)
  {
    DigestIsHexDigest(e.sha512);
    if e.payload in files {
      SameDigestIsLower(t.digest(files[e.payload]), e.sha512);
    }
  }

  /** The installer's validation accepts exactly these sets. */
  lemma {:induction false} AcceptsIff(t: Trust, files: Files)
    ensures Accepts(t, files) <==> SetOk(t, files)
  {
    if ManifestSigned(t, files) {
      var m := t.parse(files[MANIFEST]).value;
      DigestIsHexDigest(m.setId);
      forall i | 0 <= i < |m.files|
        ensures MemberOk(t, files, m.files[i]) <==> EntryOk(m.files[i]) && ArtifactOk(t, files, m.files[i])
      {
        MemberOkIff(t, files, m.files[i]);
      }
      MembersIff(t, files, m.files);
      RolesIff(m);
    }
  }

  lemma {:induction false} MembersIff(t: Trust, files: Files, entries: seq<Entry>)
    requires MANIFEST in files && MANIFEST_SIG in files
    requires forall i :: 0 <= i < |entries| ==>
      (MemberOk(t, files, entries[i]) <==> EntryOk(entries[i]) && ArtifactOk(t, files, entries[i]))
    ensures (EntriesOk(entries) && ArtifactsOk(t, files, entries)
             && forall n :: n in StagedNames(entries) ==> n in files)
      <==> (forall i :: 0 <= i < |entries| ==> MemberOk(t, files, entries[i]))
           && (forall i, j :: 0 <= i < j < |entries| ==> entries[i].role != entries[j].role)
  {
    if EntriesOk(entries) && ArtifactsOk(t, files, entries) {
      SoundArtifactsArePresent(t, files, entries);
    }
  }

  lemma RolesIff(m: Manifest)
    ensures (forall r :: r in REQUIRED ==> r in RolesOf(m.files))
      <==> forall role :: role in {Bootloader, Kernel, Initrd, Rescue, Config} ==> Has(m, role)
  {
    assert forall r: Role :: r in REQUIRED <==> r in {Bootloader, Kernel, Initrd, Rescue, Config};
    assert forall r: Role :: r in RolesOf(m.files) <==> Has(m, r);
  }
}
