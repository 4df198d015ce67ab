/** The boot-set directory as the installer sees it, and what a power cut can
    leave of it.

    Every name in the directory carries the durability it has earned. A slot
    directory survives a power cut only when its own entry, its file list and
    all of its files have been synced; anything less may come back as any
    plain directory or not at all. The selector, replaced by one rename, may
    come back as any value it has had since the directory was last synced. */
module BootFiles {
  import opened Basics
  import opened Manifests
  import opened BootBundles

  datatype Slot = A | B {
    function Other(): Slot {
      if A? then B else A
    }
  }

  datatype File = File(bytes: Content, synced: bool)

  /** A directory entry; Odd is anything that is not a plain directory. */
  datatype Node = Absent | Odd | Dir(files: map<string, File>, synced: bool)

  datatype Cell = Cell(node: Node, linked: bool)

  /** A published slot, or the staging directory of a slot. */
  datatype Place = Live(slot: Slot) | Stage(slot: Slot)

  datatype Fs = Fs(liveA: Cell, liveB: Cell, stageA: Cell, stageB: Cell,
                   active: Option<File>, durable: set<Option<File>>, temporary: Option<File>) {
    function At(p: Place): Cell {
      match p
      case Live(A) => liveA
      case Live(B) => liveB
      case Stage(A) => stageA
      case Stage(B) => stageB
    }

    function With(p: Place, c: Cell): (fs: Fs)
      ensures fs.At(p) == c
      ensures forall q :: q != p ==> fs.At(q) == At(q)
      ensures fs.active == active && fs.durable == durable && fs.temporary == temporary
    {
      match p
      case Live(A) => this.(liveA := c)
      case Live(B) => this.(liveB := c)
      case Stage(A) => this.(stageA := c)
      case Stage(B) => this.(stageB := c)
    }

    /** Syncing the directory makes every entry of it durable. */
    function SyncEntries(): Fs {
      Fs(liveA.(linked := true), liveB.(linked := true), stageA.(linked := true), stageB.(linked := true),
         active, {active}, temporary)
    }
  }

  function Contents(files: map<string, File>): (plain: Files)
    ensures plain.Keys == files.Keys
    ensures forall n :: n in files ==> plain[n] == files[n].bytes
  {
    map n | n in files :: files[n].bytes
  }

  lemma ContentsPut(files: map<string, File>, name: string, file: File)
    ensures Contents(files[name := file]) == Contents(files)[name := file.bytes]
  {
  }

  /** A directory's files, all synced. */
  function Synced(plain: Files): (files: map<string, File>)
    ensures files.Keys == plain.Keys
    ensures forall n :: n in plain ==> files[n] == File(plain[n], true)
    ensures Contents(files) == plain
  {
    map n | n in plain :: File(plain[n], true)
  }

  // ---------------------------------------------------------------------
  // Selector

  function SelectorText(slot: Slot): (text: Content)
    ensures |text| == 16
    ensures text[14] == if slot.A? then 65 else 66
  {
    Ascii(if slot.A? then "set nmbl_slot=A\n" else "set nmbl_slot=B\n")
  }

  function Selector(slot: Slot): File {
    File(SelectorText(slot), true)
  }

  /** The slot a selector file names, if it is well formed. */
  function Named(selector: Option<File>): (slot: Option<Slot>)
    ensures slot.Some? ==> selector.Some? && selector.value.bytes == SelectorText(slot.value)
    ensures selector.Some? ==> forall s :: selector.value.bytes == SelectorText(s) ==> slot == Some(s)
  {
    if selector.None? then None
    else if selector.value.bytes == SelectorText(A) then Some(A)
    else if selector.value.bytes == SelectorText(B) then Some(B)
    else None
  }

  /** The slot an installer writes: B when A is active, otherwise A. */
  function Inactive(fs: Fs): Slot {
    if Named(fs.active) == Some(A) then B else A
  }

  predicate Readable(fs: Fs) {
    fs.active.None? || Named(fs.active).Some?
  }

  // ---------------------------------------------------------------------
  // Space

  ghost function NodeUse(node: Node): nat {
    if node.Dir? then TreeBlocks(Contents(node.files)) else 0
  }

  function FileUse(file: Option<File>): nat {
    if file.Some? then Blocks(file.value.bytes) else 0
  }

  ghost function Used(fs: Fs): nat {
    NodeUse(fs.liveA.node) + NodeUse(fs.liveB.node) + NodeUse(fs.stageA.node) + NodeUse(fs.stageB.node)
    + FileUse(fs.active) + FileUse(fs.temporary)
  }

  lemma UsedWith(fs: Fs, p: Place, c: Cell)
    ensures Used(fs.With(p, c)) == Used(fs) - NodeUse(fs.At(p).node) + NodeUse(c.node)
    ensures forall d :: fs.With(p, c).With(p, d) == fs.With(p, d)
    ensures fs.With(p, fs.At(p)) == fs
  {
  }

  /** Renaming a stage into an empty slot moves its blocks, and syncing moves
      nothing. */
  function Renamed(fs: Fs, slot: Slot): Fs {
    fs.With(Stage(slot), Cell(Absent, false)).With(Live(slot), Cell(fs.At(Stage(slot)).node, false))
  }

  lemma UsedRenamed(fs: Fs, slot: Slot)
    requires fs.At(Live(slot)).node.Absent?
    ensures Used(Renamed(fs, slot)) == Used(fs)
    ensures forall p: Place :: p.slot != slot ==> Renamed(fs, slot).At(p) == fs.At(p)
  {
  }

  lemma UsedSynced(fs: Fs)
    ensures Used(fs.SyncEntries()) == Used(fs)
    ensures forall p :: fs.SyncEntries().At(p) == fs.At(p).(linked := true)
  {
  }

  /** The files fit the disk, and a selector that could still come back never
      needs more room than the visible one. */
  ghost predicate Physical(fs: Fs, capacity: nat) {
    && Used(fs) <= capacity
    && fs.active in fs.durable
    && forall v :: v in fs.durable ==> FileUse(v) <= FileUse(fs.active)
  }

  ghost function Free(fs: Fs, capacity: nat): nat
    requires Physical(fs, capacity)
  {
    capacity - Used(fs)
  }

  // ---------------------------------------------------------------------
  // Power cuts

  predicate SolidNode(node: Node) {
    node.Dir? ==> node.synced && forall n :: n in node.files ==> node.files[n].synced
  }

  predicate Solid(c: Cell) {
    c.linked && SolidNode(c.node)
  }

  /** What a power cut can leave in a cell: itself when it is solid, else any
      plain directory or nothing. */
  ghost predicate CellImage(c: Cell, image: Cell) {
    && Solid(image)
    && (Solid(c) ==> image == c)
    && (!Solid(c) ==> !image.node.Odd?)
  }

  /** What a power cut can leave of one selector value. */
  ghost predicate FileImage(v: Option<File>, image: Option<File>) {
    && (v.Some? <==> image.Some?)
    && (image.Some? ==> image.value.synced && (v.value.synced ==> image == v))
  }

  ghost predicate CrashImage(fs: Fs, capacity: nat, image: Fs) {
    && (forall p :: CellImage(fs.At(p), image.At(p)))
    && (exists v :: v in fs.durable && FileImage(v, image.active))
    && image.durable == {image.active}
    && (image.temporary.Some? ==> image.temporary.value.synced)
    && Used(image) <= capacity
  }

  // ---------------------------------------------------------------------
  // Safety

  /** The slot holds a complete set. */
  ghost predicate Complete(t: Trust, node: Node) {
    node.Dir? && Accepts(t, Contents(node.files))
  }

  /** What a machine that boots from this directory needs. */
  ghost predicate Bootable(t: Trust, fs: Fs) {
    fs.active.Some? ==>
      Named(fs.active).Some? && Complete(t, fs.At(Live(Named(fs.active).value)).node)
  }

  /** A selector value that may be found after a power cut and is then backed
      by a complete slot that survives with it. */
  ghost predicate Backing(t: Trust, fs: Fs, v: Option<File>) {
    v.Some? ==>
      && v.value.synced && Named(v).Some?
      && Solid(fs.At(Live(Named(v).value)))
      && Complete(t, fs.At(Live(Named(v).value)).node)
  }

  ghost predicate Safe(t: Trust, fs: Fs) {
    forall v :: v in fs.durable ==> Backing(t, fs, v)
  }

  /** The image in which everything unsynced is lost and the selector shows a
      chosen value. */
  function LostCell(c: Cell): Cell {
    if Solid(c) then c else Cell(Absent, true)
  }

  function Lost(fs: Fs, active: Option<File>): (image: Fs)
    ensures forall p :: image.At(p) == LostCell(fs.At(p))
    ensures image.active == active
  {
    Fs(LostCell(fs.liveA), LostCell(fs.liveB), LostCell(fs.stageA), LostCell(fs.stageB), active, {active}, None)
  }

  lemma LostIsImage(fs: Fs, capacity: nat, v: Option<File>, image: Option<File>)
    requires Physical(fs, capacity) && v in fs.durable
    requires FileImage(v, image) && FileUse(image) <= FileUse(v)
    ensures CrashImage(fs, capacity, Lost(fs, image))
  {
    assert FileUse(v) <= FileUse(fs.active);
  }

  /** Safe is exactly "every power cut leaves a bootable directory". */
  lemma SafeMeansEveryCrashBoots(t: Trust, fs: Fs, capacity: nat)
    requires Physical(fs, capacity)
    ensures Safe(t, fs) <==> forall image :: CrashImage(fs, capacity, image) ==> Bootable(t, image)
  {
    if Safe(t, fs) {
      forall image | CrashImage(fs, capacity, image) ensures Bootable(t, image) {
        var v :| v in fs.durable && FileImage(v, image.active);
        assert Backing(t, fs, v);
        if v.Some? {
          assert CellImage(fs.At(Live(Named(v).value)), image.At(Live(Named(v).value)));
        }
      }
    } else {
      var v :| v in fs.durable && !Backing(t, fs, v);
      UnbackedCrash(t, fs, capacity, v);
    }
  }

  /** A selector value without backing has a power cut that does not boot. */
  lemma UnbackedCrash(t: Trust, fs: Fs, capacity: nat, v: Option<File>)
    requires Physical(fs, capacity) && v in fs.durable && !Backing(t, fs, v)
    ensures exists image :: CrashImage(fs, capacity, image) && !Bootable(t, image)
  {
    var shown := if v.value.synced then v else Some(File([], true));
    LostIsImage(fs, capacity, v, shown);
    var image := Lost(fs, shown);
    if Named(shown).Some? {
      assert image.At(Live(Named(shown).value)) == LostCell(fs.At(Live(Named(shown).value)));
    }
    assert !Bootable(t, image);
  }

  // ---------------------------------------------------------------------
  // The effect of an install, finished or not

  ghost predicate Targets(t: Trust, bundle: Files, slot: Slot)
    requires Accepts(t, bundle)
  {
    ManifestOf(t, bundle).targetSlot == if slot.A? then "A" else "B"
  }

  /** The slot holds exactly the bundle's set, durably. */
  ghost predicate Published(t: Trust, bundle: Files, slot: Slot, fs: Fs) {
    && Accepts(t, bundle) && Targets(t, bundle, slot)
    && fs.At(Live(slot)) == Cell(Dir(Synced(SetOf(t, bundle)), true), true)
  }

  /** A cell nobody wrote; syncing the directory may have linked its entry. */
  predicate Kept(before: Cell, after: Cell) {
    after == before || after == before.(linked := true)
  }

  /** A slot or stage being taken down: as it was, gone, or no longer whole on
      disk. */
  predicate Worn(before: Cell, after: Cell) {
    after == before || after == Cell(Absent, false) || (after.node.Dir? && !Solid(after))
  }

  /** Nothing but one slot and its staging directory differs. */
  ghost predicate Confined(before: Fs, after: Fs, slot: Slot) {
    && after.active == before.active && after.durable == before.durable && after.temporary == before.temporary
    && after.At(Live(slot.Other())) == before.At(Live(slot.Other()))
    && after.At(Stage(slot.Other())) == before.At(Stage(slot.Other()))
    && Worn(before.At(Live(slot)), after.At(Live(slot)))
    && NoNewOddEntry(before, after)
  }

  /** Only plain directories are made. */
  ghost predicate NoNewOddEntry(before: Fs, after: Fs) {
    forall p :: after.At(p).node.Odd? ==> before.At(p).node.Odd?
  }

  // ---------------------------------------------------------------------
  // What decides the fate of a bundle

  /** A bundle of the right shape, for the slot that would be written. */
  ghost predicate Ready(t: Trust, bundle: Files, fs: Fs) {
    Accepts(t, bundle) && Readable(fs) && Targets(t, bundle, Inactive(fs))
  }

  /** The directory runs this manifest already. */
  ghost predicate Running(t: Trust, bundle: Files, fs: Fs) {
    && Named(fs.active).Some?
    && var node := fs.At(Live(Named(fs.active).value)).node;
    && Complete(t, node)
    && Accepts(t, bundle)
    && Contents(node.files)[MANIFEST] == bundle[MANIFEST]
  }

  ghost predicate Aimed(t: Trust, bundle: Files, fs: Fs) {
    Ready(t, bundle, fs) && !Running(t, bundle, fs)
  }

  /** The set fits, if need be in the place of the old one. */
  ghost predicate SetFits(t: Trust, bundle: Files, slot: Slot, fs: Fs, capacity: nat)
    requires Physical(fs, capacity) && Accepts(t, bundle)
  {
    && !fs.At(Live(slot)).node.Odd? && !fs.At(Stage(slot)).node.Odd?
    && Free(fs, capacity) + NodeUse(fs.At(Live(slot)).node) >= Need(t, bundle)
  }

  /** One block more than preflight asks for: the temporary selector is written
      while the set already occupies its space. */
  ghost predicate SelectorFits(t: Trust, bundle: Files, slot: Slot, fs: Fs, capacity: nat)
    requires Physical(fs, capacity) && Accepts(t, bundle)
  {
    Free(fs, capacity) + NodeUse(fs.At(Live(slot)).node) + NodeUse(fs.At(Stage(slot)).node) + FileUse(fs.temporary)
    >= Need(t, bundle) + BLOCK
  }

  /** Room and plain entries for a bundle aimed at the inactive slot. */
  ghost predicate RoomFor(t: Trust, bundle: Files, fs: Fs, capacity: nat)
    requires Physical(fs, capacity) && Accepts(t, bundle)
  {
    SetFits(t, bundle, Inactive(fs), fs, capacity) && SelectorFits(t, bundle, Inactive(fs), fs, capacity)
  }

  /** The exact condition under which a fault-free install activates the
      bundle. */
  ghost predicate WillActivate(t: Trust, bundle: Files, fs: Fs, capacity: nat)
    requires Physical(fs, capacity)
  {
    Aimed(t, bundle, fs) && RoomFor(t, bundle, fs, capacity)
  }
}
