/** The boot-set manifest and the shape every accepted manifest has
    (nmbl-boot-update/src/manifest.rs). */
module Manifests {
  import opened Basics

  datatype Role = Bootloader | Kernel | Initrd | Rescue | Network | Tools | Config

  datatype Entry = Entry(role: Role, destination: string, payload: string,
                         signature: string, domain: string, sha512: string)

  datatype Manifest = Manifest(version: nat, setId: string, targetSlot: string, files: seq<Entry>)

  const MANIFEST := "manifest.json"
  const MANIFEST_SIG := "manifest.json.sig"

  function FileName(role: Role): string {
    match role
    case Bootloader => "bootloader"
    case Kernel => "kernel"
    case Initrd => "initrd"
    case Rescue => "rescue"
    case Network => "network"
    case Tools => "tools"
    case Config => "config"
  }

  function Domain(role: Role): string {
    match role
    case Config => "boot-config"
    case Rescue => "rescue-sfs"
    case Network => "network-stage"
    case Tools => "rescue-tools"
    case Bootloader => "boot-set-artifact"
    case Kernel => "boot-set-artifact"
    case Initrd => "boot-set-artifact"
  }

  const REQUIRED: seq<Role> := [Bootloader, Kernel, Initrd, Rescue, Config]

  predicate HexDigit(c: char) {
    '0' <= c <= '9' || 'a' <= c <= 'f' || 'A' <= c <= 'F'
  }

  predicate HexDigest(s: string) {
    |s| == 128 && forall i :: 0 <= i < |s| ==> HexDigit(s[i])
  }

  /** One plain path component: no separator, not empty, not a dot entry. */
  predicate SafeRelative(path: string) {
    path != "" && '/' !in path && path != "." && path != ".."
  }

  /** What an entry must look like on its own. */
  predicate EntryOk(e: Entry) {
    && e.destination == FileName(e.role)
    && e.payload == e.destination
    && e.signature == e.destination + ".sig"
    && e.domain == Domain(e.role)
    && HexDigest(e.sha512)
  }

  /** The shape promised by an accepted manifest. It says nothing about
      duplicate file names: those are excluded by the distinct roles. */
  ghost predicate ShapeOk(m: Manifest) {
    && m.version == 1
    && HexDigest(m.setId)
    && m.targetSlot in {"A", "B"}
    && EntriesOk(m.files)
    && forall r :: r in REQUIRED ==> r in RolesOf(m.files)
  }

  /** Every entry is well formed and no role occurs twice. */
  ghost predicate EntriesOk(files: seq<Entry>) {
    && (forall i :: 0 <= i < |files| ==> EntryOk(files[i]))
    && (forall i, j :: 0 <= i < j < |files| ==> files[i].role != files[j].role)
  }

  /** The roles of some entries. */
  function RolesOf(files: seq<Entry>): (roles: set<Role>)
    ensures forall r :: r in roles <==> exists i :: 0 <= i < |files| && files[i].role == r
  {
    set i | 0 <= i < |files| :: files[i].role
  }

  lemma EntriesOkSnoc(files: seq<Entry>, e: Entry)
    ensures EntriesOk(files + [e]) <==> EntriesOk(files) && EntryOk(e) && e.role !in RolesOf(files)
    ensures RolesOf(files + [e]) == RolesOf(files) + {e.role}
  {
    var longer := files + [e];
    assert longer[|files|] == e;
    assert forall i :: 0 <= i < |files| ==> longer[i] == files[i];
    forall r ensures r in RolesOf(longer) <==> r in RolesOf(files) + {e.role} {
      if r in RolesOf(files) {
        var i :| 0 <= i < |files| && files[i].role == r;
        assert longer[i].role == r;
      }
    }
  }

  lemma EntriesOkPrefix(files: seq<Entry>, n: nat)
    requires EntriesOk(files) && n <= |files|
    ensures EntriesOk(files[..n])
  {
  }

  /** Every file name the slot directory receives, in writing order. */
  function StagedNames(files: seq<Entry>): (names: seq<string>)
    ensures |names| == 2 + 2 * |files|
    ensures names[0] == MANIFEST && names[1] == MANIFEST_SIG
    ensures forall i :: 0 <= i < |files| ==>
      names[2 + 2 * i] == files[i].destination && names[3 + 2 * i] == files[i].signature
  {
    if files == [] then [MANIFEST, MANIFEST_SIG]
    else
      var last := files[|files| - 1];
      StagedNames(files[..|files| - 1]) + [last.destination, last.signature]
  }

  lemma RoleNamesDiffer(a: Role, b: Role)
    ensures a != b ==> FileName(a) != FileName(b)
    ensures FileName(a) + ".sig" != FileName(b)
    ensures a != b ==> FileName(a) + ".sig" != FileName(b) + ".sig"
    ensures FileName(a) !in {MANIFEST, MANIFEST_SIG}
    ensures FileName(a) + ".sig" !in {MANIFEST, MANIFEST_SIG}
    ensures SafeRelative(FileName(a)) && SafeRelative(FileName(a) + ".sig")
  {
    FileNameShape(a);
    FileNameShape(b);
    var sig := FileName(a) + ".sig";
    assert sig[|FileName(a)|] == '.';
    assert FileName(b) + ".sig" == sig ==>
      FileName(b) == (FileName(b) + ".sig")[..|sig| - 4] == sig[..|sig| - 4] == FileName(a);
    assert |MANIFEST_SIG| == 17 && |MANIFEST| == 13;
    assert MANIFEST_SIG[8] == '.' && MANIFEST[8] == '.';
  }

  lemma ManifestNamesDiffer()
    ensures MANIFEST != MANIFEST_SIG
  {
    assert |MANIFEST| != |MANIFEST_SIG|;
  }

  lemma FileNameShape(a: Role)
    ensures 5 <= |FileName(a)| <= 10
    ensures forall i :: 0 <= i < |FileName(a)| ==> 'a' <= FileName(a)[i] <= 'z'
    ensures forall b :: FileName(a) == FileName(b) ==> a == b
  {
    forall b ensures FileName(a) == FileName(b) ==> a == b {
      FirstLetters(a);
      FirstLetters(b);
    }
  }

  lemma FirstLetters(a: Role)
    ensures |FileName(a)| >= 2
    ensures FileName(a)[..2] == match a
      case Bootloader => "bo" case Kernel => "ke" case Initrd => "in" case Rescue => "re"
      case Network => "ne" case Tools => "to" case Config => "co"
  {
  }

  /** Every staged name is a metadata name or belongs to an entry. */
  lemma {:induction false} StagedNameOrigin(files: seq<Entry>, n: nat)
    requires n < |StagedNames(files)|
    ensures
      || StagedNames(files)[n] in {MANIFEST, MANIFEST_SIG}
      || exists i :: 0 <= i < |files| && StagedNames(files)[n] in {files[i].destination, files[i].signature}
  {
    if n >= 2 {
      var i := (n - 2) / 2;
      assert n == 2 + 2 * i || n == 3 + 2 * i;
      assert StagedNames(files)[n] in {files[i].destination, files[i].signature};
    }
  }

  lemma OtherEntryNamesDiffer(a: Entry, b: Entry)
    requires EntryOk(a) && EntryOk(b) && a.role != b.role
    ensures {a.destination, a.signature} !! {b.destination, b.signature}
  {
    RoleNamesDiffer(a.role, b.role);
    RoleNamesDiffer(b.role, a.role);
  }

  lemma OwnNamesDiffer(e: Entry)
    requires EntryOk(e)
    ensures e.destination != e.signature && {e.destination, e.signature} !! {MANIFEST, MANIFEST_SIG}
  {
    RoleNamesDiffer(e.role, e.role);
  }

  /** The names of the last entry are none of the earlier ones. */
  lemma LastNamesAreNew(files: seq<Entry>, n: nat)
    requires files != [] && EntriesOk(files) && n < |StagedNames(files[..|files| - 1])|
    ensures var last := files[|files| - 1];
      StagedNames(files[..|files| - 1])[n] !in {last.destination, last.signature}
  {
    var last, before := files[|files| - 1], files[..|files| - 1];
    OwnNamesDiffer(last);
    StagedNameOrigin(before, n);
    var name := StagedNames(before)[n];
    if name !in {MANIFEST, MANIFEST_SIG} {
      var i :| 0 <= i < |before| && name in {before[i].destination, before[i].signature};
      assert before[i] == files[i];
      OtherEntryNamesDiffer(files[i], last);
    }
  }

  /** Staging an accepted manifest never writes one name twice. */
  lemma {:induction false} StagedNamesDistinct(files: seq<Entry>)
    requires EntriesOk(files)
    ensures Distinct(StagedNames(files))
  {
    if files == [] {
      ManifestNamesDiffer();
    } else {
      var last, before := files[|files| - 1], files[..|files| - 1];
      EntriesOkPrefix(files, |files| - 1);
      StagedNamesDistinct(before);
      OwnNamesDiffer(last);
      forall n | 0 <= n < |StagedNames(before)|
        ensures StagedNames(before)[n] != last.destination && StagedNames(before)[n] != last.signature
      {
        LastNamesAreNew(files, n);
      }
      DistinctWithTwoMore(StagedNames(before), last.destination, last.signature);
    }
  }

  lemma DistinctWithTwoMore(names: seq<string>, a: string, b: string)
    requires Distinct(names) && a != b && forall n :: 0 <= n < |names| ==> names[n] != a && names[n] != b
    ensures Distinct(names + [a, b])
  {
  }

  /** The checks on one entry that do not depend on the others. */
  predicate EntryPasses(e: Entry) {
    && SafeRelative(e.destination) && SafeRelative(e.payload) && SafeRelative(e.signature)
    && e.payload == e.destination && e.signature == e.destination + ".sig"
    && e.destination == FileName(e.role)
    && e.domain == Domain(e.role)
    && HexDigest(e.sha512)
  }

  lemma EntryPassesWhenOk(e: Entry)
    ensures EntryPasses(e) <==> EntryOk(e)
  {
    RoleNamesDiffer(e.role, e.role);
  }

  /** The file names those roles use, payloads and signatures. */
  ghost function NamesOf(roles: set<Role>): set<string> {
    (set r | r in roles :: FileName(r)) + (set r | r in roles :: FileName(r) + ".sig")
  }

  lemma NewRoleBringsNewNames(roles: set<Role>, role: Role)
    requires role !in roles
    ensures FileName(role) !in NamesOf(roles)
    ensures FileName(role) + ".sig" !in NamesOf(roles) + {FileName(role)}
    ensures NamesOf(roles + {role}) == NamesOf(roles) + {FileName(role)} + {FileName(role) + ".sig"}
  {
    forall r | r in roles
      ensures FileName(r) != FileName(role) && FileName(r) + ".sig" != FileName(role)
      ensures FileName(r) != FileName(role) + ".sig" && FileName(r) + ".sig" != FileName(role) + ".sig"
    {
      RoleNamesDiffer(r, role);
      RoleNamesDiffer(role, r);
    }
    RoleNamesDiffer(role, role);
    var wider, stepwise := NamesOf(roles + {role}), NamesOf(roles) + {FileName(role)} + {FileName(role) + ".sig"};
    assert role in roles + {role};
    forall n ensures n in wider <==> n in stepwise { }
  }

  /** The shape check in the order the parser runs it, with the three growing
      sets. The two duplicate-name checks are present as in the source and are
      never the reason for a rejection: the result depends on ShapeOk only. */
  method ValidateShape(m: Manifest) returns (ok: bool)
    ensures ok <==> ShapeOk(m)
  {
    if m.version != 1 || !HexDigest(m.setId) || (m.targetSlot != "A" && m.targetSlot != "B") {
      return false;
    }
    var roles: set<Role>, destinations: set<string>, sources: set<string> := {}, {}, {};
    for i := 0 to |m.files|
      invariant EntriesOk(m.files[..i])
      invariant roles == RolesOf(m.files[..i])
      invariant destinations <= NamesOf(roles) && sources == NamesOf(roles)
    {
      var e := m.files[i];
      EntryPassesWhenOk(e);
      assert m.files[..i + 1] == m.files[..i] + [e];
      EntriesOkSnoc(m.files[..i], e);
      assert EntriesOk(m.files) ==> EntriesOk(m.files[..i + 1]);
      if !EntryPasses(e) {
        return false;
      }
      if e.role in roles {
        return false;
      }
      NewRoleBringsNewNames(roles, e.role);
      roles := roles + {e.role};
      if e.destination in destinations {
        return false;
      }
      destinations := destinations + {e.destination};
      if e.payload in sources {
        return false;
      }
      sources := sources + {e.payload};
      if e.signature in sources {
        return false;
      }
      sources := sources + {e.signature};
    }
    assert m.files[..|m.files|] == m.files;
    ok := HasRequired(roles);
  }

  method HasRequired(roles: set<Role>) returns (ok: bool)
    ensures ok <==> forall r :: r in REQUIRED ==> r in roles
  {
    for i := 0 to |REQUIRED|
      invariant forall j :: 0 <= j < i ==> REQUIRED[j] in roles
    {
      if REQUIRED[i] !in roles {
        assert REQUIRED[i] in REQUIRED;
        return false;
      }
    }
    ok := true;
  }

  // ---------------------------------------------------------------------
  // The producer

  /** The member table of the producer, in its order: optional members last. */
  const MEMBERS: seq<(Role, bool)> :=
    [(Bootloader, true), (Kernel, true), (Initrd, true), (Rescue, true),
     (Config, true), (Network, false), (Tools, false)]

  /** The manifest entry the producer writes for one copied member. */
  function ProducedEntry(role: Role, digest: string): Entry {
    Entry(role, FileName(role), FileName(role), FileName(role) + ".sig", Domain(role), digest)
  }
}
