/** Booting, blessing and activating generations, one durable update at a time.

    A call may fail at any time; a power cut is a call that fails together with
    every later one, followed by Reboot. The class invariant therefore speaks
    about every run of operations with power cuts anywhere. An installed
    generation survives a power cut for certain only once a sync of the whole
    file system has followed its renaming into place; the boot side syncs the
    directory of links only. */
module GenerationRoots {
  import opened Basics
  import opened GenerationLinks

  /** What the history of a run records. */
  datatype Event = Proceeded | AttemptCleared

  /** The last event is a boot that proceeded: nothing cleared its attempt. */
  ghost predicate Waiting(log: seq<Event>) {
    log != [] && log[|log| - 1].Proceeded?
  }

  /** No boot proceeds while an earlier one is still waiting. */
  ghost predicate Alternating(log: seq<Event>) {
    log == [] ||
    (Alternating(log[..|log| - 1]) && (Waiting(log) ==> !Waiting(log[..|log| - 1])))
  }

  lemma {:induction false} AlternatingSnoc(log: seq<Event>, e: Event)
    requires Alternating(log) && (e.Proceeded? ==> !Waiting(log))
    ensures Alternating(log + [e])
  {
    assert (log + [e])[..|log|] == log;
  }

  /** Between any two boots that proceeded, a marking or an activation cleared
      the attempt. */
  lemma {:induction false} ProceedsAreSeparated(log: seq<Event>, i: nat, j: nat)
    requires Alternating(log) && i < j < |log| && log[i].Proceeded? && log[j].Proceeded?
    ensures exists k :: i < k < j && log[k].AttemptCleared?
  {
    var shorter := log[..|log| - 1];
    if j < |log| - 1 {
      ProceedsAreSeparated(shorter, i, j);
      var k :| i < k < j && shorter[k].AttemptCleared?;
      assert log[k].AttemptCleared?;
    } else {
      assert log[j - 1].AttemptCleared?;
    }
  }

  /** How the history grows in everything but a boot. */
  ghost predicate Clears(before: seq<Event>, after: seq<Event>) {
    after == before || after == before + [AttemptCleared]
  }

  /** How many boots proceeded. */
  ghost function Proceeds(log: seq<Event>): nat {
    if log == [] then 0 else Proceeds(log[..|log| - 1]) + if log[|log| - 1].Proceeded? then 1 else 0
  }

  lemma {:induction false} ProceedsSnoc(log: seq<Event>, e: Event)
    ensures Proceeds(log + [e]) == Proceeds(log) + if e.Proceeded? then 1 else 0
  {
    assert (log + [e])[..|log|] == log;
  }

  ghost predicate ClearedBetween(log: seq<Event>, i: nat, j: nat) {
    exists k :: i < k < j < |log| && log[k].AttemptCleared?
  }

  /** One operation of a run, or a power cut between operations. */
  datatype Op =
    | PowerOn(rollback: bool) | Mark | Activate(id: string) | Cut(lost: set<string>)
    | Install(id: string, bundle: Bundle)

  /** What a call is for. */
  datatype Spot = Reading | Copying | Moving | SyncingMove | Replacing | SyncingLink | Removing | SyncingRemovals

  /** Which calls of a root may fail: any, none, or exactly those for one
      purpose. */
  datatype Faults = AnyCall | Never | Just(spot: Spot)

  /** Why a generation is not installed: refused, or a failed call. */
  datatype Failure = Refused | Io(at: Spot)

  /** The generations that a power cut leaves for certain. */
  function Firm(store: Store, settled: set<string>): Store {
    map id | id in store && id in settled :: store[id]
  }

  /** The text is a link to a sound generation. */
  predicate SoundText(store: Store, digest: seq<Byte> -> string, text: string) {
    PREFIX <= text && Sound(store, digest, text[|PREFIX|..])
  }

  /** Every link names a sound generation. */
  predicate SoundLinks(store: Store, digest: seq<Byte> -> string, s: State) {
    forall key :: key in s && key != RollbackEvent ==> SoundText(store, digest, s[key])
  }

  lemma SoundIdLinks(store: Store, digest: seq<Byte> -> string, id: string)
    ensures SoundText(store, digest, LinkText(id)) <==> Sound(store, digest, id)
  {
    assert LinkText(id)[|PREFIX|..] == id;
  }

  /** A link to a generation that survives is read the same before and after
      any power cut. */
  lemma SoundLinkParses(store: Store, settled: set<string>, digest: seq<Byte> -> string, s: State, key: Key)
    requires SoundLinks(Firm(store, settled), digest, s) && key in s && key != RollbackEvent
    ensures ParseTarget(store, s[key]) == ParseTarget(Firm(store, settled), s[key])
    ensures ParseTarget(store, s[key]).Some?
    ensures Sound(Firm(store, settled), digest, ParseTarget(store, s[key]).value)
  {
  }

  /** More surviving generations make no link unsound. */
  lemma DiskSoundGrows(store: Store, settled: set<string>, more: set<string>, digest: seq<Byte> -> string,
                       durable: set<State>)
    requires settled <= more && DiskSound(Firm(store, settled), digest, durable)
    ensures DiskSound(Firm(store, more), digest, durable)
  {
    forall s | s in durable ensures SoundLinks(Firm(store, more), digest, s) {
      assert SoundLinks(Firm(store, settled), digest, s);
    }
  }

  lemma SyncedIsSound(store: Store, settled: set<string>, digest: seq<Byte> -> string, durable: set<State>, now: State)
    requires settled <= store.Keys && DiskSound(Firm(store, settled), digest, durable) && now in durable
    ensures DiskSound(Firm(store, store.Keys), digest, {now})
  {
    DiskSoundGrows(store, settled, store.Keys, digest, durable);
  }

  /** Links are sound on the surviving generations exactly when every power cut
      leaves sound links, whichever unsynced generations it takes. */
  lemma DiskSoundIffEveryCut(store: Store, settled: set<string>, digest: seq<Byte> -> string, durable: set<State>)
    requires settled <= store.Keys
    ensures DiskSound(Firm(store, settled), digest, durable)
      <==> forall s, kept :: s in durable && settled <= kept <= store.Keys ==> SoundLinks(Firm(store, kept), digest, s)
  {
    if DiskSound(Firm(store, settled), digest, durable) {
      forall s, kept | s in durable && settled <= kept <= store.Keys ensures SoundLinks(Firm(store, kept), digest, s) {
        DiskSoundGrows(store, settled, kept, digest, durable);
      }
    }
  }

  /** One update of a plan, done or not. A removal of an absent name leaves
      the directory as it was. */
  ghost predicate Stepped(was: State, wasDurable: set<State>, step: Step, done: bool, now: State, durable: set<State>) {
    && (now == was || now == Apply(was, step))
    && (done ==> now == Apply(was, step) && (durable == {now} || (durable == wasDurable && now == was)))
    && forall s :: s in durable ==> s in wasDurable || exists d :: d in wasDurable && s == Apply(d, step)
  }

  /** Some updates of a plan are made: the directory is as after the first k,
      and every directory a power cut can reveal is one it could reveal
      before, with some prefix of the plan applied. */
  ghost predicate Progressed(was: State, wasDurable: set<State>, steps: seq<Step>, k: nat, now: State,
                             durable: set<State>) {
    && k <= |steps| && now == After(was, steps, k)
    && forall s :: s in durable ==> s in wasDurable || exists d :: d in wasDurable && PrefixState(d, steps, s)
  }

  ghost predicate Partway(was: State, wasDurable: set<State>, steps: seq<Step>, now: State, durable: set<State>) {
    exists k :: Progressed(was, wasDurable, steps, k, now, durable)
  }

  lemma NothingDone(steps: seq<Step>, now: State, durable: set<State>)
    ensures Progressed(now, durable, steps, 0, now, durable)
  {
  }

  /** A plan advances by its next update, made or not. */
  lemma Advance(was: State, wasDurable: set<State>, before: State, beforeDurable: set<State>,
                steps: seq<Step>, k: nat, done: bool, now: State, durable: set<State>)
    requires k < |steps| && was in wasDurable && before == After(was, steps, k)
    requires beforeDurable == {before} || (k == 0 && beforeDurable == wasDurable)
    requires Stepped(before, beforeDurable, steps[k], done, now, durable)
    ensures Partway(was, wasDurable, steps, now, durable)
    ensures done ==> now == After(was, steps, k + 1)
  {
    assert After(was, steps, k + 1) == Apply(before, steps[k]);
    forall s | s in durable && s !in wasDurable ensures exists d :: d in wasDurable && PrefixState(d, steps, s) {
      if beforeDurable == {before} {
        assert s == After(was, steps, k) || s == After(was, steps, k + 1);
        assert PrefixState(was, steps, s);
      } else {
        var d :| d in wasDurable && s == Apply(d, steps[0]);
        assert s == After(d, steps, 1);
        assert PrefixState(d, steps, s);
      }
    }
    var done' := if now == Apply(before, steps[k]) then k + 1 else k;
    assert Progressed(was, wasDurable, steps, done', now, durable);
  }

  ghost predicate DiskSound(store: Store, digest: seq<Byte> -> string, durable: set<State>) {
    forall s :: s in durable ==> SoundLinks(store, digest, s)
  }

  /** The update stores no link, or a link to a sound generation. */
  ghost predicate SoundStep(store: Store, digest: seq<Byte> -> string, step: Step) {
    step.Put? && step.key != RollbackEvent ==> SoundText(store, digest, step.text)
  }

  /** What a power cut can reveal after one more unsynced update. */
  function Shaken(durable: set<State>, step: Step): (shaken: set<State>)
    ensures durable <= shaken
  {
    durable + set s | s in durable :: Apply(s, step)
  }

  /** Where a directory of the shaken ones comes from. */
  lemma ShakenOrigin(durable: set<State>, step: Step, t: State)
    requires t in Shaken(durable, step)
    ensures t in durable || exists s :: s in durable && t == Apply(s, step)
  {
  }

  /** The tested link names one of the allowed texts, whatever a cut reveals. */
  ghost predicate TestedIn(durable: set<State>, allowed: set<string>) {
    forall s :: s in durable && Tested in s ==> s[Tested] in allowed
  }

  ghost predicate AlwaysAttempted(durable: set<State>) {
    forall s :: s in durable ==> Attempted in s
  }

  lemma ShakenKeepsTested(durable: set<State>, step: Step, allowed: set<string>)
    requires TestedIn(durable, allowed)
    requires step.Put? && step.key == Tested ==> step.text in allowed
    ensures TestedIn(Shaken(durable, step), allowed)
  {
    forall t | t in Shaken(durable, step) && Tested in t ensures t[Tested] in allowed {
      ShakenOrigin(durable, step, t);
      if t !in durable {
        var s :| s in durable && t == Apply(s, step);
      }
    }
  }

  lemma ShakenKeepsAttempt(durable: set<State>, step: Step)
    requires step != Drop(Attempted) && AlwaysAttempted(durable)
    ensures AlwaysAttempted(Shaken(durable, step))
  {
    forall t | t in Shaken(durable, step) ensures Attempted in t {
      ShakenOrigin(durable, step, t);
      if t !in durable {
        var s :| s in durable && t == Apply(s, step);
      }
    }
  }

  lemma ShakenKeepsSound(store: Store, digest: seq<Byte> -> string, durable: set<State>, step: Step)
    ensures DiskSound(store, digest, durable) && SoundStep(store, digest, step) ==>
      DiskSound(store, digest, Shaken(durable, step))
  {
    if DiskSound(store, digest, durable) && SoundStep(store, digest, step) {
      forall t | t in Shaken(durable, step) ensures SoundLinks(store, digest, t) {
        ShakenOrigin(durable, step, t);
        if t !in durable {
          var s :| s in durable && t == Apply(s, step);
          assert SoundLinks(store, digest, s);
        }
      }
    }
  }

  /** The history after one update: a dropped attempt is recorded. */
  ghost function Logged(log: seq<Event>, now: State, step: Step): seq<Event> {
    if step == Drop(Attempted) && Attempted in now then log + [AttemptCleared] else log
  }

  lemma {:induction false} UpdateKeeps(now: State, durable: set<State>, log: seq<Event>, allowed: set<string>,
                                       step: Step)
    requires now in durable && Alternating(log) && (Waiting(log) ==> AlwaysAttempted(durable))
    requires TestedIn(durable, allowed) && (step.Put? && step.key == Tested ==> step.text in allowed)
    ensures Apply(now, step) in Shaken(durable, step) && TestedIn(Shaken(durable, step), allowed)
    ensures Alternating(Logged(log, now, step))
    ensures Waiting(Logged(log, now, step)) ==> AlwaysAttempted(Shaken(durable, step))
  {
    ShakenKeepsTested(durable, step, allowed);
    AlternatingSnoc(log, AttemptCleared);
    if Waiting(log) && step != Drop(Attempted) {
      ShakenKeepsAttempt(durable, step);
    }
  }

  /** The members of a bundle that are delivered, and the file added to them. */
  const DELIVERABLE: seq<string> :=
    [IMAGE, SIGNATURE, "system", "config.toml", "config.toml.sig", "kernel.sig", "initrd.sig", "rescue.sfs",
     "rescue.sfs.sig", "network.erofs", "network.erofs.sig", "rescue-tools.erofs", "rescue-tools.erofs.sig"]

  const GENERATION_FILE := "generation"

  /** What is installed of a bundle: its deliverable members, unchanged, and
      the file that names the id. */
  function Delivered(bundle: Bundle, id: string): (files: Bundle)
    ensures IMAGE in files <==> IMAGE in bundle
    ensures SIGNATURE in files <==> SIGNATURE in bundle
    ensures IMAGE in bundle ==> files[IMAGE] == bundle[IMAGE]
  {
    assert DELIVERABLE[0] == IMAGE && DELIVERABLE[1] == SIGNATURE;
    (map name | name in bundle && name in DELIVERABLE :: bundle[name])[GENERATION_FILE := Ascii(id + "\n")]
  }

  /** How a new generation arrives: durably, visibly when only the sync after
      its renaming failed, or not at all. */
  predicate Arrived(before: Store, wasSettled: set<string>, id: string, files: Bundle, r: Result<(), Failure>,
                    after: Store, settled: set<string>) {
    if r == Err(Io(SyncingMove)) then after == before[id := files] && settled == wasSettled
    else
      || (after == before[id := files] && settled == after.Keys)
      || (r.Err? && after == before && settled == wasSettled)
  }

  lemma ArrivedKeeps(before: Store, wasSettled: set<string>, id: string, files: Bundle, r: Result<(), Failure>,
                     after: Store, settled: set<string>)
    requires id !in before && wasSettled <= before.Keys && Arrived(before, wasSettled, id, files, r, after, settled)
    ensures before.Keys <= after.Keys && (forall i :: i in before ==> after[i] == before[i])
    ensures wasSettled <= settled
    ensures r != Err(Io(SyncingMove)) ==> after.Keys == before.Keys || settled == after.Keys
    ensures r.Ok? ==> after.Keys == before.Keys + {id} && settled == after.Keys && after[id] == files
  {
  }

  /** The image of a bundle is the one its id names. */
  predicate Genuine(bundle: Bundle, digest: seq<Byte> -> string, id: string) {
    IMAGE in bundle && digest(bundle[IMAGE]) == id
  }

  /** A marking keeps its attempt until last. */
  lemma {:induction false} MarkedSoFar(s: State, active: string)
    requires Attempted in s
    ensures var t := After(s, SuccessPlan(active), 3);
      Attempted in t && Tested in t && t[Tested] == LinkText(active)
  {
    FourSteps(s, SuccessPlan(active));
  }

  class GenerationRoot {
    const digest: seq<Byte> -> string
    var plan: Faults
    var store: Store
    /** The generations whose directory has been synced in its place. */
    var settled: set<string>
    var now: State
    /** The directories a power cut can reveal. */
    var durable: set<State>
    ghost var faulted: bool
    ghost var log: seq<Event>
    /** Link texts that were attempted and active at the same time. */
    ghost var tried: set<string>
    /** Link texts a marking stored in the tested link. */
    ghost var blessed: set<string>
    /** The tested link the run started with, if any. */
    ghost const origin: set<string>

    ghost predicate Valid()
      reads this
    {
      && now in durable && settled <= store.Keys
      && Alternating(log)
      && (Waiting(log) ==> AlwaysAttempted(durable))
      && (Active in now && Attempted in now && now[Active] == now[Attempted] ==> now[Active] in tried)
      && TestedIn(durable, blessed + origin)
      && blessed <= tried
    }

    /** Every directory a power cut can reveal has only links to sound
        generations that the cut leaves as well. */
    ghost predicate AllSound()
      reads this`store, this`settled, this`durable
    {
      DiskSound(Firm(store, settled), digest, durable)
    }

    /** A sound generation that survives power cuts. */
    ghost predicate Settled(id: string)
      reads this`store, this`settled
    {
      Sound(Firm(store, settled), digest, id)
    }

    ghost predicate SoundUpdate(step: Step)
      reads this`store, this`settled
    {
      SoundStep(Firm(store, settled), digest, step)
    }

    constructor (digest: seq<Byte> -> string, store: Store, links: State)
      ensures Valid() && now == links && durable == {links} && log == [] && blessed == {}
      ensures this.digest == digest && this.store == store && settled == store.Keys && plan == AnyCall
      ensures Tested !in links ==> origin == {}
      ensures SoundLinks(store, digest, links) ==> AllSound()
    {
      this.digest, this.store, settled, now, durable, plan := digest, store, store.Keys, links, {links}, AnyCall;
      faulted, log, blessed := false, [], {};
      tried :=
        if Active in links && Attempted in links && links[Active] == links[Attempted] then {links[Active]} else {};
      origin := if Tested in links then {links[Tested]} else {};
    }

    /** One call: unless the plan says otherwise it can fail at any time. */
    method Call(spot: Spot) returns (ok: bool)
      modifies this`faulted
      ensures faulted == (old(faulted) || !ok)
      ensures plan == Never ==> ok
      ensures plan.Just? ==> (ok <==> plan.spot != spot)
    {
      ok := *;
      match plan {
        case AnyCall =>
        case Never => ok := true;
        case Just(bad) => ok := spot != bad;
      }
      if !ok {
        faulted := true;
      }
    }

    /** Power returns: the directory is one of those a cut can reveal, and with
        the synced generations any others may be there. */
    method Reboot(image: State, kept: set<string>)
      requires Valid() && image in durable && settled <= kept <= store.Keys
      modifies this`now, this`durable, this`store, this`settled, this`tried
      ensures Valid() && now == image && durable == {image}
      ensures store == Firm(old(store), kept) && settled == store.Keys
      ensures old(AllSound()) ==> AllSound()
    {
      if AllSound() {
        DiskSoundGrows(store, settled, kept, digest, durable);
      }
      store, settled := Firm(store, kept), kept;
      assert Firm(store, settled) == store;
      now, durable := image, {image};
      Note();
    }

    /** Record an attempt of the active generation. */
    ghost method Note()
      modifies this`tried
      ensures tried == old(tried) +
        if Active in now && Attempted in now && now[Active] == now[Attempted] then {now[Active]} else {}
    {
      if Active in now && Attempted in now && now[Active] == now[Attempted] {
        tried := tried + {now[Active]};
      }
    }

    // -------------------------------------------------------------------
    // Single updates

    /** One rename or removal takes effect; until the next sync a power cut
        may lose it. */
    method Update(step: Step)
      requires Valid()
      requires step.Put? && step.key == Tested ==> step.text in blessed + origin
      modifies this`now, this`durable, this`log, this`tried
      ensures Valid() && now == Apply(old(now), step)
      ensures durable == Shaken(old(durable), step)
      ensures log == Logged(old(log), old(now), step)
      ensures old(AllSound() && SoundUpdate(step)) ==> AllSound()
    {
      UpdateKeeps(now, durable, log, blessed + origin, step);
      ShakenKeepsSound(Firm(store, settled), digest, durable, step);
      log := Logged(log, now, step);
      now, durable := Apply(now, step), Shaken(durable, step);
      Note();
    }

    /** The directory of links becomes durable as it is seen. */
    method Sync() returns (ok: bool)
      requires Valid()
      modifies this`faulted, this`durable
      ensures Valid() && faulted == (old(faulted) || !ok)
      ensures durable == if ok then {now} else old(durable)
      ensures old(AllSound()) ==> AllSound()
      ensures plan == Never ==> ok
    {
      ok := Call(SyncingLink);
      if ok {
        durable := {now};
      }
    }

    /** Everything becomes durable as it is seen. */
    method SyncAll(spot: Spot) returns (ok: bool)
      requires Valid()
      modifies this`faulted, this`durable, this`settled
      ensures Valid() && faulted == (old(faulted) || !ok)
      ensures durable == if ok then {now} else old(durable)
      ensures settled == if ok then store.Keys else old(settled)
      ensures old(AllSound()) ==> AllSound()
      ensures plan == Never ==> ok
      ensures plan.Just? ==> (ok <==> plan.spot != spot)
    {
      ok := Call(spot);
      if ok {
        if AllSound() {
          SyncedIsSound(store, settled, digest, durable, now);
        }
        durable, settled := {now}, store.Keys;
      }
    }

    /** Replace a link or the event file by rename, then sync the links. */
    method Store(key: Key, text: string) returns (ok: bool)
      requires Valid() && (key == Tested ==> text in blessed + origin)
      modifies this`now, this`durable, this`log, this`tried, this`faulted
      ensures Valid() && Stepped(old(now), old(durable), Put(key, text), ok, now, durable) && (ok ==> durable == {now})
      ensures faulted == (old(faulted) || !ok)
      ensures log == old(log)
      ensures old(AllSound() && SoundUpdate(Put(key, text))) ==> AllSound()
      ensures plan == Never ==> ok
    {
      ok := Call(Replacing);
      if ok {
        Update(Put(key, text));
        ok := Sync();
      }
    }

    /** Replace a link by rename, then sync the whole file system. */
    method Relink(key: Key, text: string) returns (ok: bool)
      requires Valid() && (key == Tested ==> text in blessed + origin)
      modifies this`now, this`durable, this`settled, this`log, this`tried, this`faulted
      ensures Valid() && Stepped(old(now), old(durable), Put(key, text), ok, now, durable)
      ensures ok ==> durable == {now} && settled == store.Keys
      ensures !ok ==> settled == old(settled)
      ensures faulted == (old(faulted) || !ok)
      ensures log == old(log)
      ensures old(AllSound() && SoundUpdate(Put(key, text))) ==> AllSound()
      ensures plan == Just(SyncingLink) ==> !ok && now == Apply(old(now), Put(key, text))
      ensures plan == Never ==> ok
    {
      ok := Call(Replacing);
      if ok {
        Update(Put(key, text));
        ok := SyncAll(SyncingLink);
      }
    }

    /** Remove a name if it is there, then sync. */
    method Remove(key: Key) returns (ok: bool)
      requires Valid()
      modifies this`now, this`durable, this`log, this`tried, this`faulted
      ensures Valid() && Stepped(old(now), old(durable), Drop(key), ok, now, durable)
      ensures faulted == (old(faulted) || !ok)
      ensures key != Attempted || Attempted in now ==> log == old(log)
      ensures Clears(old(log), log)
      ensures ok && key == Attempted && Attempted in old(now) ==> log == old(log) + [AttemptCleared]
      ensures old(AllSound()) ==> AllSound()
      ensures plan == Never ==> ok
    {
      ok := Call(Removing);
      if !ok {
        return;
      }
      if key !in now {
        assert Apply(now, Drop(key)) == now;
        return;
      }
      Update(Drop(key));
      ok := Sync();
    }

    // -------------------------------------------------------------------
    // Operations

    /** Make update k of a plan. */
    method Next(ghost was: State, ghost wasDurable: set<State>, ghost steps: seq<Step>, ghost k: nat, step: Step)
      returns (ok: bool)
      requires Valid() && k < |steps| && step == steps[k] && was in wasDurable
      requires now == After(was, steps, k) && (durable == {now} || (k == 0 && durable == wasDurable))
      requires step.Put? && step.key == Tested ==> step.text in blessed + origin
      requires k == 0 ==> step.Put?
      modifies this`now, this`durable, this`log, this`tried, this`faulted
      ensures Valid() && Partway(was, wasDurable, steps, now, durable)
      ensures faulted == (old(faulted) || !ok)
      ensures step != Drop(Attempted) || Attempted in now ==> log == old(log)
      ensures Clears(old(log), log)
      ensures ok && step == Drop(Attempted) && Attempted in old(now) ==> log == old(log) + [AttemptCleared]
      ensures ok ==> now == After(was, steps, k + 1) && durable == {now}
      ensures old(AllSound() && SoundUpdate(step)) ==> AllSound()
      ensures plan == Never ==> ok
    {
      if step.Put? {
        ok := Store(step.key, step.text);
      } else {
        ok := Remove(step.key);
      }
      Advance(was, wasDurable, old(now), old(durable), steps, k, ok, now, durable);
    }

    /** Point active and attempted back at the good generation. */
    method RollBack(failed: string, good: string) returns (ok: bool)
      requires Valid()
      modifies this`now, this`durable, this`log, this`tried, this`faulted
      ensures Valid() && log == old(log)
      ensures old(AllSound() && Settled(good)) ==> AllSound()
      ensures faulted == (old(faulted) || !ok)
      ensures Partway(old(now), old(durable), RollbackPlan(failed, good), now, durable)
      ensures ok ==> now == ApplyAll(old(now), RollbackPlan(failed, good)) && durable == {now}
      ensures plan == Never ==> ok
    {
      ghost var was, wasDurable, steps := now, durable, RollbackPlan(failed, good);
      SoundIdLinks(Firm(store, settled), digest, good);
      ok := Next(was, wasDurable, steps, 0, Put(Active, LinkText(good)));
      if !ok { return; }
      ok := Next(was, wasDurable, steps, 1, Put(Attempted, LinkText(good)));
      if !ok { return; }
      ok := Next(was, wasDurable, steps, 2, Drop(Pending));
      if !ok { return; }
      ok := Next(was, wasDurable, steps, 3, Put(RollbackEvent, EventText(failed, good)));
    }

    /** Record the attempt of a boot that proceeds. */
    method Attempt(active: string) returns (ok: bool)
      requires Valid() && !Waiting(log)
      modifies this`now, this`durable, this`log, this`tried, this`faulted
      ensures Valid() && log == old(log) + if ok then [Proceeded] else []
      ensures old(AllSound() && Settled(active)) ==> AllSound()
      ensures faulted == (old(faulted) || !ok)
      ensures Partway(old(now), old(durable), [Put(Attempted, LinkText(active))], now, durable)
      ensures ok ==> now == ApplyAll(old(now), [Put(Attempted, LinkText(active))]) && durable == {now}
      ensures plan == Never ==> ok
    {
      ghost var was, wasDurable, steps := now, durable, [Put(Attempted, LinkText(active))];
      SoundIdLinks(Firm(store, settled), digest, active);
      ok := Next(was, wasDurable, steps, 0, Put(Attempted, LinkText(active)));
      if ok {
        assert now == After(was, steps, 1) == Apply(was, steps[0]);
        Proceeding();
      }
    }

    /** Note that the boot proceeds. */
    ghost method Proceeding()
      requires Valid() && !Waiting(log) && durable == {now} && Attempted in now
      modifies this`log
      ensures Valid() && log == old(log) + [Proceeded]
    {
      AlternatingSnoc(log, Proceeded);
      log := log + [Proceeded];
    }

    /** Decide what to boot, and record it. */
    method PrepareBoot(rollback: bool) returns (r: Result<Outcome, ()>)
      requires Valid()
      modifies this`now, this`durable, this`log, this`tried, this`faulted
      ensures Valid() && (old(AllSound()) ==> AllSound())
      ensures log == old(log) + if r == Ok(Proceed) then [Proceeded] else []
      ensures Followed(Decide(store, old(now), rollback), old(now), old(durable), r, faulted, now, durable)
      ensures r == Ok(RolledBack) ==> BackOnBlessed(old(now))
      ensures r.Ok? ==> LinksRead(store, old(now))
      ensures r == Ok(Proceed) ==> Attempted !in old(now) && now == old(now)[Attempted := old(now)[Active]]
      ensures r == Ok(RolledBack) ==>
        && rollback && {Attempted, Pending, Tested} <= old(now).Keys
        && old(now)[Pending] == old(now)[Attempted] != old(now)[Tested]
        && Pending !in now && {Active, Attempted, RollbackEvent} <= now.Keys
        && now[Active] == now[Attempted] == old(now)[Tested]
        && now[RollbackEvent] == old(now)[Attempted][12..] + " " + old(now)[Tested][12..] + "\n"
        && now - {Active, Attempted, RollbackEvent} == old(now) - {Active, Attempted, RollbackEvent, Pending}
      ensures r == Ok(Failed) ==> Attempted in old(now) && !(rollback && CanRollBack(old(now))) && now == old(now)
      ensures plan == Never && LinksRead(store, old(now)) ==> r.Ok?
    {
      ghost var was, wasDurable := now, durable;
      var decision := ReadLinks(rollback);
      if decision.Err? {
        NoDecision(rollback);
        return Err(());
      }
      r := Follow(decision.value, rollback);
      if r.Ok? {
        OutcomeTold(store, was, wasDurable, rollback, r, faulted, now, durable);
      }
    }

    lemma NoDecision(rollback: bool)
      requires now in durable
      ensures Followed(Decide(store, now, rollback), now, durable, Err(()), true, now, durable)
      ensures Decide(store, now, rollback).Err? <==> !LinksRead(store, now)
    {
      BootBranches(store, now, rollback);
      var planned := Decide(store, now, rollback);
      NothingDone(if planned.Ok? then planned.value.Plan() else [], now, durable);
    }

    /** The outcome of a boot, told from the links before it. */
    static lemma OutcomeTold(store: Store, was: State, wasDurable: set<State>, rollback: bool,
                             r: Result<Outcome, ()>, faulted: bool, now: State, durable: set<State>)
      requires Followed(Decide(store, was, rollback), was, wasDurable, r, faulted, now, durable) && r.Ok?
      ensures LinksRead(store, was)
      ensures r == Ok(Proceed) ==> Attempted !in was && now == was[Attempted := was[Active]]
      ensures r == Ok(RolledBack) ==>
        && rollback && CanRollBack(was) && Pending !in now && {Active, Attempted, RollbackEvent} <= now.Keys
        && now[Active] == now[Attempted] == was[Tested]
        && now[RollbackEvent] == was[Attempted][12..] + " " + was[Tested][12..] + "\n"
        && now - {Active, Attempted, RollbackEvent} == was - {Active, Attempted, RollbackEvent, Pending}
      ensures r == Ok(Failed) ==> Attempted in was && !(rollback && CanRollBack(was)) && now == was
    {
      BootBranches(store, was, rollback);
      BootLands(store, was, rollback);
    }

    /** Follow a decision. */
    method Follow(decision: Decision, ghost rollback: bool) returns (r: Result<Outcome, ()>)
      requires Valid() && Decide(store, now, rollback) == Ok(decision) && (decision.Restore? ==> rollback)
      modifies this`now, this`durable, this`log, this`tried, this`faulted
      ensures Valid() && (old(AllSound()) ==> AllSound())
      ensures log == old(log) + if r == Ok(Proceed) then [Proceeded] else []
      ensures Followed(Ok(decision), old(now), old(durable), r, faulted, now, durable)
      ensures r == Ok(RolledBack) ==> BackOnBlessed(old(now))
      ensures plan == Never ==> r.Ok?
    {
      match decision {
        case GiveUp =>
          NothingDone([], now, durable);
          r := Ok(Failed);
        case Restore(failed, good) =>
          r := FallBack(failed, good);
        case Boot(active) =>
          if AllSound() { SoundLinkParses(store, settled, digest, now, Active); }
          var ok := Attempt(active);
          r := if ok then Ok(Proceed) else Err(());
      }
    }

    /** Read the links and choose a branch. */
    method ReadLinks(rollback: bool) returns (d: Result<Decision, ()>)
      modifies this`faulted
      ensures old(faulted) ==> faulted
      ensures d.Err? ==> (faulted && plan != Never) || Decide(store, now, rollback).Err?
      ensures d.Ok? ==> Decide(store, now, rollback) == d
      ensures d.Ok? && d.value.Restore? ==> rollback
      ensures d.Ok? && d.value.Boot? ==>
        Attempted !in now && Active in now && ParseTarget(store, now[Active]) == Some(d.value.active)
    {
      var ok := Call(Reading);
      if !ok {
        return Err(());
      }
      var active, attempted := OptionalId(store, now, Active), OptionalId(store, now, Attempted);
      var pending, tested := OptionalId(store, now, Pending), OptionalId(store, now, Tested);
      if active.Err? || active.value.None? || attempted.Err? || pending.Err? || tested.Err? {
        return Err(());
      }
      if attempted.value.Some? {
        if pending.value == attempted.value {
          if rollback && tested.value.Some? && tested.value != attempted.value {
            return Ok(Restore(attempted.value.value, tested.value.value));
          }
          return Ok(GiveUp);
        }
        return Ok(GiveUp);
      }
      d := Ok(Boot(active.value.value));
    }

    /** The outcome of a boot follows its decision. */
    static ghost predicate Followed(d: Result<Decision, ()>, was: State, wasDurable: set<State>,
                                    r: Result<Outcome, ()>, faulted: bool, now: State, durable: set<State>) {
      && (r.Ok? ==> d.Ok? && d.value.Result() == r.value && now == ApplyAll(was, d.value.Plan())
                    && (r.value != Failed ==> durable == {now}))
      && (r.Err? ==> faulted || d.Err?)
      && (if d.Err? then now == was && durable == wasDurable
          else Partway(was, wasDurable, d.value.Plan(), now, durable))
    }

    /** Active and attempted name one generation, blessed earlier, and it is
        not the one whose attempt failed. */
    ghost predicate BackOnBlessed(was: State)
      reads this`now, this`blessed
    {
      && {Active, Attempted} <= now.Keys && now[Active] == now[Attempted]
      && now[Active] in blessed + origin
      && Attempted in was && now[Active] != was[Attempted]
    }

    /** The rollback branch. */
    method FallBack(failed: string, good: string) returns (r: Result<Outcome, ()>)
      requires Valid() && Decide(store, now, true) == Ok(Restore(failed, good))
      modifies this`now, this`durable, this`log, this`tried, this`faulted
      ensures Valid() && (old(AllSound()) ==> AllSound()) && log == old(log)
      ensures r.Err? ==> faulted
      ensures r.Ok? ==> r.value == RolledBack && BackOnBlessed(old(now)) && durable == {now}
      ensures r.Ok? ==> now == ApplyAll(old(now), RollbackPlan(failed, good))
      ensures Partway(old(now), old(durable), RollbackPlan(failed, good), now, durable)
      ensures plan == Never ==> r.Ok?
    {
      RollbackLands(store, now, Restore(failed, good));
      if AllSound() { SoundLinkParses(store, settled, digest, now, Tested); }
      var ok := RollBack(failed, good);
      r := if ok then Ok(RolledBack) else Err(());
    }

    /** Bless the running generation: it becomes the tested one and its attempt
        is cleared, last of all. */
    method MarkSuccess() returns (r: Result<(), ()>)
      requires Valid()
      modifies this`now, this`durable, this`log, this`tried, this`faulted, this`blessed
      ensures Valid() && (old(AllSound()) ==> AllSound())
      ensures var plan := MarkPlan(store, old(now));
        && (r.Ok? ==> plan.Ok? && now == ApplyAll(old(now), plan.value) && durable == {now}
                      && log == old(log) + [AttemptCleared] && Tested in now && now[Tested] in blessed)
        && (r.Err? ==> faulted || plan.Err?)
        && (if plan.Err? then now == old(now) && durable == old(durable) && blessed == old(blessed)
            else Partway(old(now), old(durable), plan.value, now, durable))
      ensures Clears(old(log), log) && (Attempted in now ==> log == old(log))
      ensures r.Ok? ==>
        && {Active, Attempted} <= old(now).Keys && old(now)[Active] == old(now)[Attempted]
        && now == old(now)[Tested := old(now)[Active]] - {Pending, RollbackEvent, Attempted}
      ensures (plan == Never && {Active, Attempted} <= old(now).Keys && old(now)[Active] == old(now)[Attempted]
               && Whole(store, old(now)[Active])) ==> r.Ok?
    {
      MarkingLands(store, now);
      var ok := Call(Reading);
      if !ok {
        if MarkPlan(store, now).Ok? { NothingDone(MarkPlan(store, now).value, now, durable); }
        return Err(());
      }
      var active, attempted := OptionalId(store, now, Active), OptionalId(store, now, Attempted);
      if active.Err? || active.value.None? || attempted.Err? || attempted.value.None? {
        return Err(());
      }
      if active.value != attempted.value {
        return Err(());
      }
      blessed := blessed + {now[Active]};
      if AllSound() { SoundLinkParses(store, settled, digest, now, Active); }
      ok := Bless(active.value.value);
      r := if ok then Ok(()) else Err(());
    }

    method Bless(active: string) returns (ok: bool)
      requires Valid() && LinkText(active) in blessed && Attempted in now
      modifies this`now, this`durable, this`log, this`tried, this`faulted
      ensures Valid() && (old(AllSound() && Settled(active)) ==> AllSound())
      ensures faulted == (old(faulted) || !ok)
      ensures Partway(old(now), old(durable), SuccessPlan(active), now, durable)
      ensures ok ==> now == ApplyAll(old(now), SuccessPlan(active)) && durable == {now}
      ensures ok ==> log == old(log) + [AttemptCleared] && Tested in now && now[Tested] == LinkText(active)
      ensures Clears(old(log), log) && (Attempted in now ==> log == old(log))
      ensures plan == Never ==> ok
    {
      ghost var was, wasDurable, steps := now, durable, SuccessPlan(active);
      ok := Promote(active);
      if !ok { return; }
      ok := Next(was, wasDurable, steps, 3, Drop(Attempted));
    }

    /** The first three updates of a marking: everything but the attempt. */
    method Promote(active: string) returns (ok: bool)
      requires Valid() && LinkText(active) in blessed && Attempted in now
      modifies this`now, this`durable, this`log, this`tried, this`faulted
      ensures Valid() && (old(AllSound() && Settled(active)) ==> AllSound())
      ensures faulted == (old(faulted) || !ok) && log == old(log)
      ensures Partway(old(now), old(durable), SuccessPlan(active), now, durable)
      ensures ok ==> now == After(old(now), SuccessPlan(active), 3) && durable == {now}
      ensures ok ==> Attempted in now && Tested in now && now[Tested] == LinkText(active)
      ensures plan == Never ==> ok
    {
      ghost var was, wasDurable, steps := now, durable, SuccessPlan(active);
      SoundIdLinks(Firm(store, settled), digest, active);
      ok := Next(was, wasDurable, steps, 0, Put(Tested, LinkText(active)));
      if !ok { return; }
      ok := Next(was, wasDurable, steps, 1, Drop(Pending));
      if !ok { return; }
      ok := Next(was, wasDurable, steps, 2, Drop(RollbackEvent));
      MarkedSoFar(was, active);
    }

    // -------------------------------------------------------------------
    // Receiving and activating

    /** Publish a received generation unless the id is already there, then
        validate what is installed. Installed generations never change. The
        renaming into place is made durable by a sync of its own; when that
        fails, the generation is there and may not survive a power cut, and
        installing it again neither renames nor syncs. */
    method InstallGeneration(id: string, bundle: Bundle) returns (r: Result<(), Failure>)
      requires Valid()
      modifies this`store, this`settled, this`durable, this`faulted
      ensures Valid() && (old(AllSound()) ==> AllSound())
      ensures old(store.Keys) <= store.Keys && forall i :: i in old(store) ==> store[i] == old(store)[i]
      ensures old(settled) <= settled
      ensures id in old(store) ==> store == old(store) && settled == old(settled) && durable == old(durable)
      ensures r.Ok? ==> Sound(store, digest, id) && store.Keys == old(store.Keys) + {id}
      ensures r.Ok? ==> "nix.erofs" in bundle && digest(bundle["nix.erofs"]) == id
      ensures r.Ok? && id !in old(store) ==> settled == store.Keys && store[id] == Delivered(bundle, id)
      ensures r != Err(Io(SyncingMove)) ==> store.Keys == old(store.Keys) || settled == store.Keys
      ensures r.Err? ==> faulted || !Genuine(bundle, digest, id) || !Sound(store, digest, id)
      ensures plan == Just(SyncingMove) && id !in old(store) && Genuine(bundle, digest, id) ==>
        r == Err(Io(SyncingMove))
      ensures plan == Never && Sound(store, digest, id) && Genuine(bundle, digest, id) ==> r.Ok?
      ensures r == Err(Io(SyncingMove)) ==>
        && id !in old(store) && store == old(store)[id := Delivered(bundle, id)]
        && settled == old(settled) && durable == old(durable)
    {
      var ok := Call(Reading);
      if !ok {
        return Err(Io(Reading));
      }
      if IMAGE !in bundle || digest(bundle[IMAGE]) != id {
        return Err(Refused);
      }
      r := Publish(id, bundle);
      if id !in old(store) {
        ArrivedKeeps(old(store), old(settled), id, Delivered(bundle, id), r, store, settled);
      }
    }

    /** Put a generation in place unless the id is already there, and validate
        what is there. */
    method Publish(id: string, bundle: Bundle) returns (r: Result<(), Failure>)
      requires Valid() && Genuine(bundle, digest, id)
      modifies this`store, this`settled, this`durable, this`faulted
      ensures Valid() && (old(AllSound()) ==> AllSound()) && (old(faulted) ==> faulted)
      ensures id in old(store) ==> store == old(store) && settled == old(settled) && durable == old(durable)
      ensures id !in old(store) ==> Arrived(old(store), old(settled), id, Delivered(bundle, id), r, store, settled)
      ensures r == Err(Io(SyncingMove)) ==> id !in old(store) && durable == old(durable)
      ensures r.Ok? ==> Sound(store, digest, id)
      ensures r.Err? ==> faulted || !Sound(store, digest, id)
      ensures plan == Just(SyncingMove) && id !in old(store) ==> r == Err(Io(SyncingMove))
      ensures plan == Never && Sound(store, digest, id) ==> r.Ok?
    {
      if id !in store {
        r := MoveIn(id, bundle);
        if r.Err? {
          return;
        }
      }
      r := Validate(id);
    }

    /** Copy a generation beside the others, rename it into place, and sync.
        A failure before the renaming leaves nothing under its id. */
    method MoveIn(id: string, bundle: Bundle) returns (r: Result<(), Failure>)
      requires Valid() && id !in store
      modifies this`store, this`settled, this`durable, this`faulted
      ensures Valid() && (old(AllSound()) ==> AllSound()) && old(settled) <= settled
      ensures old(faulted) ==> faulted
      ensures r.Ok? ==> store == old(store)[id := Delivered(bundle, id)] && settled == store.Keys
      ensures r.Err? ==> faulted && settled == old(settled) && durable == old(durable)
      ensures r.Err? ==> r.error in {Io(Copying), Io(Moving), Io(SyncingMove)}
      ensures r.Err? ==>
        store == if r.error == Io(SyncingMove) then old(store)[id := Delivered(bundle, id)] else old(store)
      ensures plan == Just(SyncingMove) ==> r == Err(Io(SyncingMove))
      ensures plan == Never ==> r.Ok?
    {
      var incoming := CopyMembers(id, bundle);
      if incoming.Err? {
        return Err(incoming.error);
      }
      var ok := Call(Moving);
      if !ok {
        return Err(Io(Moving));
      }
      store := store[id := incoming.value];
      assert Firm(store, settled) == Firm(old(store), settled);
      ok := SyncAll(SyncingMove);
      r := if ok then Ok(()) else Err(Io(SyncingMove));
    }

    /** Copy every member that is there into a private directory and add the
        file that names the id. */
    method CopyMembers(id: string, bundle: Bundle) returns (r: Result<Bundle, Failure>)
      modifies this`faulted
      ensures old(faulted) ==> faulted
      ensures r.Ok? ==> r.value == Delivered(bundle, id) && faulted == old(faulted)
      ensures r.Err? ==> r.error == Io(Copying) && faulted && plan != Never && plan != Just(SyncingMove)
    {
      var incoming: Bundle := map[];
      for k := 0 to |DELIVERABLE|
        invariant incoming == map name | name in bundle && name in DELIVERABLE[..k] :: bundle[name]
        invariant faulted == old(faulted)
      {
        var name := DELIVERABLE[k];
        assert DELIVERABLE[..k + 1] == DELIVERABLE[..k] + [name];
        if name in bundle {
          var ok := Call(Copying);
          if !ok {
            return Err(Io(Copying));
          }
          incoming := incoming[name := bundle[name]];
        }
      }
      assert DELIVERABLE[..|DELIVERABLE|] == DELIVERABLE;
      var ok := Call(Copying);
      r := if ok then Ok(incoming[GENERATION_FILE := Ascii(id + "\n")]) else Err(Io(Copying));
    }

    /** The checks an activation repeats on an installed generation. */
    method Validate(id: string) returns (r: Result<(), Failure>)
      modifies this`faulted
      ensures old(faulted) ==> faulted
      ensures r.Ok? ==> Sound(store, digest, id)
      ensures r.Ok? ==> Intact(store, digest, id)
      ensures r == Err(Refused) ==> !Intact(store, digest, id)
      ensures r.Err? ==>
        || (r.error == Io(Reading) && faulted && plan != Never && (plan.Just? ==> plan.spot == Reading))
        || (r.error == Refused && !Sound(store, digest, id))
    {
      SoundIsIntact(store, digest, id);
      if !ValidId(id) {
        return Err(Refused);
      }
      var ok := Call(Reading);
      if !ok {
        return Err(Io(Reading));
      }
      if id !in store || IMAGE !in store[id] || SIGNATURE !in store[id] {
        return Err(Refused);
      }
      r := if digest(store[id][IMAGE]) == id then Ok(()) else Err(Refused);
    }

    /** The generation survives power cuts if it is there at all, or another
        one is still active, so that keeping its link syncs everything first. */
    ghost predicate Anchored(id: string)
      reads this`store, this`settled, this`now
    {
      || id in settled || id !in store
      || (TargetId(store, now, Active).Some? && TargetId(store, now, Active).value != id)
    }

    /** Make a sound generation active. The attempt of its predecessor is
        cleared only after the new link is durable, and those last removals
        are synced together. */
    method Activate(id: string) returns (r: Result<(), Failure>)
      requires Valid()
      modifies this`now, this`durable, this`settled, this`log, this`tried, this`faulted
      ensures Valid() && (old(AllSound() && Anchored(id)) ==> AllSound())
      ensures old(settled) <= settled
      ensures r.Ok? ==> Sound(store, digest, id) && durable == {now} && settled == store.Keys
      ensures r.Ok? ==> now == ApplyAll(old(now), ActivatePlan(store, old(now), id))
      ensures r.Err? ==>
        faulted || (!Sound(store, digest, id) && now == old(now) && durable == old(durable) && settled == old(settled))
      ensures old(durable) == {old(now)} ==> forall s :: s in durable ==> Superseding(old(now), s, id)
      ensures Clears(old(log), log)
      ensures plan == Just(SyncingLink) && Sound(store, digest, id) ==>
        && now == Apply(old(now), ActivatePlan(store, old(now), id)[0])
        && settled == old(settled)
      ensures r.Ok? ==> now == Activated(store, old(now), id)
      ensures plan == Never && Sound(store, digest, id) ==> r.Ok?
    {
      r := Validate(id);
      if r.Err? {
        return;
      }
      ActivationLands(store, now, id);
      var tested := TargetId(store, now, Tested);
      var ok := KeepPrevious(id);
      if ok {
        ok := Supersede(id, tested == Some(id));
      }
      r := if ok then Ok(()) else Err(Io(SyncingLink));
    }

    /** Keep the link being replaced, unless it names the same generation. */
    method KeepPrevious(id: string) returns (ok: bool)
      requires Valid()
      modifies this`now, this`durable, this`settled, this`log, this`tried, this`faulted
      ensures Valid() && (old(AllSound()) ==> AllSound())
      ensures old(settled) <= settled && faulted == (old(faulted) || !ok)
      ensures var current := TargetId(store, old(now), Active);
        if current.Some? && current.value != id then
          && (ok ==> now == old(now)[Previous := LinkText(current.value)] && settled == store.Keys)
          && (plan == Just(SyncingLink) ==>
                !ok && now == old(now)[Previous := LinkText(current.value)] && settled == old(settled))
        else ok && now == old(now) && durable == old(durable) && settled == old(settled)
      ensures old(durable) == {old(now)} ==> forall s :: s in durable ==> s - {Previous} == old(now) - {Previous}
      ensures log == old(log)
      ensures plan == Never ==> ok
    {
      var current := TargetId(store, now, Active);
      ok := true;
      if current.Some? && current.value != id {
        if AllSound() { CurrentIsSound(current.value); }
        ok := Relink(Previous, LinkText(current.value));
      }
    }

    lemma CurrentIsSound(id: string)
      requires now in durable && AllSound() && TargetId(store, now, Active) == Some(id)
      ensures SoundText(Firm(store, settled), digest, LinkText(id))
    {
      assert now[Active] == LinkText(id);
    }

    /** A directory a power cut can reveal inside an activation: the links as
        they were, but for the previous one, or the new generation active. */
    static ghost predicate Superseding(was: State, s: State, id: string) {
      s - {Previous} == was - {Previous} || Selects(s, id)
    }

    static ghost predicate Selects(s: State, id: string) {
      Active in s && s[Active] == LinkText(id)
    }

    /** The part of an activation after the previous link. */
    method Supersede(id: string, alreadyTested: bool) returns (ok: bool)
      requires Valid() && Sound(store, digest, id)
      modifies this`now, this`durable, this`settled, this`log, this`tried, this`faulted
      ensures Valid() && (old(AllSound()) && id in old(settled) ==> AllSound())
      ensures old(settled) <= settled && faulted == (old(faulted) || !ok)
      ensures ok ==> durable == {now} && settled == store.Keys
      ensures ok ==> now == Cleared(if alreadyTested then old(now)[Active := LinkText(id)] - {Pending}
                                    else old(now)[Active := LinkText(id)][Pending := LinkText(id)])
      ensures forall s :: s in durable ==> s in old(durable) || Selects(s, id)
      ensures Clears(old(log), log)
      ensures plan == Just(SyncingLink) ==>
        !ok && now == Apply(old(now), Put(Active, LinkText(id))) && settled == old(settled)
      ensures plan == Never ==> ok
    {
      SoundIdLinks(Firm(store, settled), digest, id);
      ok := Relink(Active, LinkText(id));
      if !ok { return; }
      ok := SetPending(id, alreadyTested);
      if ok {
        ok := ClearAttempt(id);
      }
    }

    /** The new generation is pending unless it is the tested one. */
    method SetPending(id: string, alreadyTested: bool) returns (ok: bool)
      requires Valid() && Sound(store, digest, id) && id in settled && durable == {now} && Selects(now, id)
      modifies this`now, this`durable, this`settled, this`log, this`tried, this`faulted
      ensures Valid() && (old(AllSound()) ==> AllSound())
      ensures old(settled) <= settled && faulted == (old(faulted) || !ok) && log == old(log)
      ensures ok ==> now == if alreadyTested then old(now) - {Pending} else old(now)[Pending := LinkText(id)]
      ensures forall s :: s in durable ==> Selects(s, id)
      ensures plan == Never ==> ok
    {
      SoundIdLinks(Firm(store, settled), digest, id);
      if alreadyTested {
        ok := RemoveUnsynced(Pending, id);
      } else {
        ok := Relink(Pending, LinkText(id));
      }
    }

    static function Cleared(s: State): State {
      s - {Attempted} - {RollbackEvent}
    }

    /** The final removals of an activation, synced together. */
    method ClearAttempt(ghost id: string) returns (ok: bool)
      requires Valid() && forall s :: s in durable ==> Selects(s, id)
      modifies this`now, this`durable, this`settled, this`log, this`tried, this`faulted
      ensures Valid() && (old(AllSound()) ==> AllSound())
      ensures old(settled) <= settled && faulted == (old(faulted) || !ok)
      ensures ok ==> durable == {now} && settled == store.Keys && now == Cleared(old(now))
      ensures forall s :: s in durable ==> Selects(s, id)
      ensures Clears(old(log), log)
      ensures plan == Never ==> ok
    {
      ok := RemoveUnsynced(Attempted, id);
      if !ok { return; }
      ok := RemoveUnsynced(RollbackEvent, id);
      if !ok { return; }
      ok := SyncAll(SyncingRemovals);
    }

    /** Remove a name if it is there, without syncing. */
    method RemoveUnsynced(key: Key, ghost id: string) returns (ok: bool)
      requires Valid() && key != Active && forall s :: s in durable ==> Selects(s, id)
      modifies this`now, this`durable, this`log, this`tried, this`faulted
      ensures Valid() && faulted == (old(faulted) || !ok)
      ensures ok ==> now == old(now) - {key}
      ensures forall s :: s in durable ==> Selects(s, id)
      ensures if key == Attempted then Clears(old(log), log) else log == old(log)
      ensures old(AllSound()) ==> AllSound()
      ensures plan == Never ==> ok
    {
      ok := Call(Removing);
      if ok && key in now {
        Update(Drop(key));
      }
    }

    /** The anchor is needed: an activation of a generation that is neither
        synced nor preceded by another active one, and that fails only at its
        first sync, leaves a directory that some power cut makes unsound. */
    method UnanchoredActivationBreaks(id: string) returns (r: Result<(), Failure>)
      requires Valid() && AllSound() && Sound(store, digest, id) && !Anchored(id)
      modifies this`plan, this`now, this`durable, this`settled, this`log, this`tried, this`faulted
      ensures r.Err? && Valid() && !AllSound()
      ensures Selects(now, id) && now in durable && settled == old(settled)
    {
      plan := Just(SyncingLink);
      r := Activate(id);
      SoundIdLinks(Firm(store, settled), digest, id);
      assert !SoundLinks(Firm(store, settled), digest, now);
    }

    // -------------------------------------------------------------------
    // Whole runs

    /** One operation, or a power cut. `anchored` tells whether an activation
        was anchored when it was tried, `unsynced` whether an install left its
        generation in place without its sync. */
    method Perform(op: Op) returns (proceeded: bool, ghost anchored: bool, unsynced: bool)
      requires Valid()
      modifies this
      ensures Valid() && (old(AllSound()) && anchored ==> AllSound())
      ensures anchored == (op.Activate? ==> old(Anchored(op.id)))
      ensures unsynced ==> op.Install?
      ensures !unsynced && old(settled == store.Keys) ==> settled == store.Keys
      ensures Proceeds(log) == Proceeds(old(log)) + if proceeded then 1 else 0
    {
      proceeded, unsynced := false, false;
      anchored := op.Activate? ==> Anchored(op.id);
      ProceedsSnoc(log, AttemptCleared);
      match op {
        case PowerOn(rollback) =>
          ProceedsSnoc(log, Proceeded);
          var r := PrepareBoot(rollback);
          proceeded := r == Ok(Proceed);
          assert proceeded || log == old(log);
        case Mark =>
          var _ := MarkSuccess();
        case Activate(id) =>
          var _ := Activate(id);
        case Install(id, bundle) =>
          var r := InstallGeneration(id, bundle);
          unsynced := r == Err(Io(SyncingMove));
        case Cut(lost) =>
          var image :| image in durable;
          Reboot(image, store.Keys - (lost - settled));
      }
    }

    /** Any run of boots, markings, receptions and activations, each of which
        may fail at any call, with power cuts anywhere that take any unsynced
        generations: no second boot proceeds before a marking or an activation
        cleared the attempt of the first, and the tested link only ever names
        generations that were attempted while active. Every link names a sound
        generation that is really there, provided each activation was anchored
        when it was tried; and each is when no install failed at its sync. */
    method Run(ops: seq<Op>) returns (proceeded: nat, ghost anchored: bool, unsynced: bool)
      requires Valid()
      modifies this
      ensures Valid() && (old(AllSound()) && anchored ==> AllSound())
      ensures !unsynced && old(settled == store.Keys) && old(AllSound()) ==> AllSound()
      ensures Proceeds(log) == Proceeds(old(log)) + proceeded
      ensures forall i, j :: 0 <= i < j < |log| && log[i].Proceeded? && log[j].Proceeded? ==> ClearedBetween(log, i, j)
      ensures forall s :: s in durable && Tested in s ==> s[Tested] in tried + origin
    {
      proceeded, anchored, unsynced := 0, true, false;
      for n := 0 to |ops|
        invariant Valid() && (old(AllSound()) && anchored ==> AllSound())
        invariant !unsynced && old(settled == store.Keys) ==>
          settled == store.Keys && (old(AllSound()) ==> AllSound())
        invariant Proceeds(log) == Proceeds(old(log)) + proceeded
      {
        var one, firm, failed := Perform(ops[n]);
        proceeded := proceeded + if one then 1 else 0;
        anchored, unsynced := anchored && firm, unsynced || failed;
      }
      forall i, j | 0 <= i < j < |log| && log[i].Proceeded? && log[j].Proceeded? ensures ClearedBetween(log, i, j) {
        ProceedsAreSeparated(log, i, j);
      }
    }
  }
}
