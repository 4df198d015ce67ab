/** The persistent selection state of signed generations
    (src/generation_state.rs and activate in nmbl-host-tools/src/receive.rs).

    The state directory holds five symbolic links and one event file. Every
    operation is a short plan of single updates. `durable` is the set of
    directories a power cut can reveal: an update that has not been synced may
    or may not have reached the disk, independently of the others. */
module GenerationLinks {
  import opened Basics

  datatype Key = Active | Attempted | Pending | Tested | Previous | RollbackEvent

  /** What each name holds: the target text of a link, or the event text. */
  type State = map<Key, string>

  datatype Step = Put(key: Key, text: string) | Drop(key: Key)

  datatype Outcome = Proceed | RolledBack | Failed

  /** The files of an installed generation directory. */
  type Bundle = map<string, seq<Byte>>

  type Store = map<string, Bundle>

  const IMAGE := "nix.erofs"
  const SIGNATURE := "nix.erofs.sig"

  const PREFIX := "generations/"

  predicate ValidId(id: string) {
    |id| == 128 && forall i :: 0 <= i < |id| ==> '0' <= id[i] <= '9' || 'a' <= id[i] <= 'f'
  }

  function LinkText(id: string): string {
    PREFIX + id
  }

  /** The id a link names: safe target, content id, complete bundle. */
  function ParseTarget(store: Store, text: string): (id: Option<string>)
    ensures id.Some? ==> text == LinkText(id.value) && ValidId(id.value) && id.value in store
  {
    if !(PREFIX <= text) then None
    else
      var id := text[|PREFIX|..];
      if ValidId(id) && id in store && IMAGE in store[id] && SIGNATURE in store[id] then Some(id) else None
  }

  /** A link read: absent, or named, or refused. */
  function OptionalId(store: Store, s: State, key: Key): Result<Option<string>, ()> {
    if key !in s then Ok(None)
    else
      var id := ParseTarget(store, s[key]);
      if id.None? then Err(()) else Ok(id)
  }

  function Apply(s: State, step: Step): State {
    match step
    case Put(key, text) => s[key := text]
    case Drop(key) => s - {key}
  }

  /** The state after the first k updates of a plan. */
  function After(s: State, steps: seq<Step>, k: nat): State
    requires k <= |steps|
  {
    if k == 0 then s else Apply(After(s, steps, k - 1), steps[k - 1])
  }

  function ApplyAll(s: State, steps: seq<Step>): State {
    After(s, steps, |steps|)
  }

  // ---------------------------------------------------------------------
  // The plans

  function EventText(failed: string, good: string): string {
    failed + " " + good + "\n"
  }

  function RollbackPlan(failed: string, good: string): seq<Step> {
    [Put(Active, LinkText(good)), Put(Attempted, LinkText(good)), Drop(Pending),
     Put(RollbackEvent, EventText(failed, good))]
  }

  /** The branches of a boot decision. */
  datatype Decision = Boot(active: string) | Restore(failed: string, good: string) | GiveUp {
    function Result(): Outcome {
      match this
      case Boot(_) => Proceed
      case Restore(_, _) => RolledBack
      case GiveUp => Failed
    }

    /** The updates the branch makes, in order. */
    function Plan(): seq<Step> {
      match this
      case Boot(active) => [Put(Attempted, LinkText(active))]
      case Restore(failed, good) => RollbackPlan(failed, good)
      case GiveUp => []
    }
  }

  /** What a boot decides; Err is a refused or missing link, and then nothing
      is written. */
  function Decide(store: Store, s: State, rollback: bool): Result<Decision, ()> {
    var active, attempted := OptionalId(store, s, Active), OptionalId(store, s, Attempted);
    var pending, tested := OptionalId(store, s, Pending), OptionalId(store, s, Tested);
    if active.Err? || active.value.None? || attempted.Err? || pending.Err? || tested.Err? then Err(())
    else if attempted.value.None? then Ok(Boot(active.value.value))
    else if pending.value == attempted.value && rollback && tested.value.Some? && tested.value != attempted.value then
      Ok(Restore(attempted.value.value, tested.value.value))
    else Ok(GiveUp)
  }

  // ---------------------------------------------------------------------
  // The decisions, from the texts of the links and the files behind them

  /** The text of a link to a generation that has its image and signature. */
  predicate Whole(store: Store, text: string) {
    && |text| == 140 && text[..12] == "generations/"
    && (forall i :: 12 <= i < 140 ==> '0' <= text[i] <= '9' || 'a' <= text[i] <= 'f')
    && text[12..] in store && "nix.erofs" in store[text[12..]] && "nix.erofs.sig" in store[text[12..]]
  }

  /** There is an active link, and no link is broken. */
  predicate LinksRead(store: Store, s: State) {
    && Active in s && Whole(store, s[Active])
    && (Attempted in s ==> Whole(store, s[Attempted]))
    && (Pending in s ==> Whole(store, s[Pending])) && (Tested in s ==> Whole(store, s[Tested]))
  }

  lemma WholeIsParsed(store: Store, text: string)
    ensures ParseTarget(store, text).Some? <==> Whole(store, text)
    ensures Whole(store, text) ==> ParseTarget(store, text) == Some(text[12..]) && text == LinkText(text[12..])
  {
    if |text| >= 12 {
      var id := text[12..];
      assert forall i :: 0 <= i < |id| ==> id[i] == text[i + 12];
      assert forall i :: 12 <= i < |text| ==> text[i] == id[i - 12];
      assert text == text[..12] + id;
    }
  }

  /** An untested generation failed, and another one is known to work. */
  predicate CanRollBack(s: State) {
    && {Attempted, Pending, Tested} <= s.Keys
    && s[Pending] == s[Attempted] && s[Tested] != s[Attempted]
  }

  /** What a boot decides: nothing when a link is broken; to proceed exactly
      when nothing is attempted; to roll back exactly when that is on, the
      attempted generation is pending and another one is tested; and otherwise
      to give up. */
  lemma BootBranches(store: Store, s: State, rollback: bool)
    ensures Decide(store, s, rollback).Err? <==> !LinksRead(store, s)
    ensures Decide(store, s, rollback).Ok? ==>
      Decide(store, s, rollback).value.Result()
      == (if Attempted !in s then Proceed else if rollback && CanRollBack(s) then RolledBack else Failed)
  {
    forall key | key in s && key != RollbackEvent
      ensures ParseTarget(store, s[key]).Some? <==> Whole(store, s[key])
      ensures Whole(store, s[key]) ==>
        ParseTarget(store, s[key]) == Some(s[key][12..]) && s[key] == LinkText(s[key][12..])
    {
      WholeIsParsed(store, s[key]);
    }
  }

  /** What a boot leaves when it has made its updates. */
  lemma BootLands(store: Store, s: State, rollback: bool)
    requires Decide(store, s, rollback).Ok?
    ensures var d := Decide(store, s, rollback).value;
      ApplyAll(s, d.Plan()) == match d.Result()
        case Proceed => s[Attempted := s[Active]]
        case RolledBack =>
          s[Active := s[Tested]][Attempted := s[Tested]]
           [RollbackEvent := s[Attempted][12..] + " " + s[Tested][12..] + "\n"]
          - {Pending}
        case Failed => s
  {
    BootBranches(store, s, rollback);
    WholeIsParsed(store, s[Active]);
    var d := Decide(store, s, rollback).value;
    if d.Boot? {
      assert After(s, d.Plan(), 1) == Apply(s, d.Plan()[0]);
    } else if d.Restore? {
      WholeIsParsed(store, s[Attempted]);
      WholeIsParsed(store, s[Tested]);
      RollbackEnd(s, d.failed, d.good);
    }
  }

  /** A marking is possible exactly when active and attempted are one whole
      generation, and leaves it tested, with nothing pending or attempted and
      no rollback event. */
  lemma MarkingLands(store: Store, s: State)
    ensures MarkPlan(store, s).Ok?
      <==> {Active, Attempted} <= s.Keys && s[Active] == s[Attempted] && Whole(store, s[Active])
    ensures MarkPlan(store, s).Ok? ==>
      ApplyAll(s, MarkPlan(store, s).value) == s[Tested := s[Active]] - {Pending, RollbackEvent, Attempted}
  {
    if Active in s { WholeIsParsed(store, s[Active]); }
    if Attempted in s { WholeIsParsed(store, s[Attempted]); }
    if MarkPlan(store, s).Ok? {
      FourSteps(s, MarkPlan(store, s).value);
    }
  }

  function SuccessPlan(active: string): seq<Step> {
    [Put(Tested, LinkText(active)), Drop(Pending), Drop(RollbackEvent), Drop(Attempted)]
  }

  /** Marking success needs an attempt of the active generation. */
  function MarkPlan(store: Store, s: State): Result<seq<Step>, ()> {
    var active, attempted := OptionalId(store, s, Active), OptionalId(store, s, Attempted);
    if active.Err? || active.value.None? || attempted.Err? || attempted.value.None? then Err(())
    else if active.value != attempted.value then Err(())
    else Ok(SuccessPlan(active.value.value))
  }

  /** The id a link names as the receiver reads it: no check of the files. */
  function TargetId(store: Store, s: State, key: Key): Option<string> {
    if key !in s || !(PREFIX <= s[key]) then None
    else
      var id := s[key][|PREFIX|..];
      if ValidId(id) && id in store then Some(id) else None
  }

  /** Image and signature are there and the image hashes to the id. */
  predicate Sound(store: Store, digest: seq<Byte> -> string, id: string) {
    && ValidId(id) && id in store
    && IMAGE in store[id] && SIGNATURE in store[id]
    && digest(store[id][IMAGE]) == id
  }

  /** The same with every name and format written out. */
  predicate Intact(store: Store, digest: seq<Byte> -> string, id: string) {
    && |id| == 128 && (forall i :: 0 <= i < 128 ==> '0' <= id[i] <= '9' || 'a' <= id[i] <= 'f')
    && id in store && "nix.erofs" in store[id] && "nix.erofs.sig" in store[id]
    && digest(store[id]["nix.erofs"]) == id
  }

  lemma SoundIsIntact(store: Store, digest: seq<Byte> -> string, id: string)
    ensures Sound(store, digest, id) <==> Intact(store, digest, id)
  {
  }

  function ActivatePlan(store: Store, s: State, id: string): seq<Step> {
    var current, tested := TargetId(store, s, Active), TargetId(store, s, Tested);
    (if current.Some? && current.value != id then [Put(Previous, LinkText(current.value))] else [])
    + [Put(Active, LinkText(id))]
    + [if tested == Some(id) then Drop(Pending) else Put(Pending, LinkText(id))]
    + [Drop(Attempted), Drop(RollbackEvent)]
  }

  // ---------------------------------------------------------------------
  // Partial runs

  /** The states of a run that made only some of its updates. */
  ghost predicate PrefixState(s: State, steps: seq<Step>, t: State) {
    exists k: nat :: k <= |steps| && t == After(s, steps, k)
  }

  /** The states after one to four updates, written out. */
  lemma {:induction false} FourSteps(s: State, steps: seq<Step>)
    requires |steps| >= 4
    ensures After(s, steps, 1) == Apply(s, steps[0])
    ensures After(s, steps, 2) == Apply(Apply(s, steps[0]), steps[1])
    ensures After(s, steps, 3) == Apply(Apply(Apply(s, steps[0]), steps[1]), steps[2])
    ensures After(s, steps, 4) == Apply(Apply(Apply(Apply(s, steps[0]), steps[1]), steps[2]), steps[3])
  {
    assert After(s, steps, 1) == Apply(s, steps[0]);
    assert After(s, steps, 2) == Apply(After(s, steps, 1), steps[1]);
    assert After(s, steps, 3) == Apply(After(s, steps, 2), steps[2]);
  }

  lemma FourPrefixes(s: State, steps: seq<Step>, t: State)
    requires |steps| == 4 && PrefixState(s, steps, t)
    ensures t in {s, Apply(s, steps[0]), Apply(Apply(s, steps[0]), steps[1]),
      Apply(Apply(Apply(s, steps[0]), steps[1]), steps[2]),
      Apply(Apply(Apply(Apply(s, steps[0]), steps[1]), steps[2]), steps[3])}
    ensures ApplyAll(s, steps) == Apply(Apply(Apply(Apply(s, steps[0]), steps[1]), steps[2]), steps[3])
  {
    FourSteps(s, steps);
    var k: nat :| k <= 4 && t == After(s, steps, k);
    assert k == 0 || k == 1 || k == 2 || k == 3 || k == 4;
  }

  /** A power cut inside the rollback branch, then another boot with rollback
      on: it rolls back to the same good generation again, or reports Failed
      with the good one already active. It never proceeds. */
  lemma CutRollbackNeverProceeds(store: Store, s: State, d: Decision, cut: State)
    requires Decide(store, s, true) == Ok(d) && d.Restore?
    requires PrefixState(s, d.Plan(), cut)
    ensures
      || (Decide(store, cut, true) == Ok(d) && ApplyAll(cut, d.Plan()) == ApplyAll(s, d.Plan()))
      || (Decide(store, cut, true) == Ok(GiveUp) && Active in cut && cut[Active] == LinkText(d.good))
  {
    FourPrefixes(s, d.Plan(), cut);
    RollbackAbsorbs(s, d.failed, d.good, cut);
    assert LinkText(d.good)[|PREFIX|..] == d.good;
  }

  /** Running the whole plan again from any of its prefixes ends the same. */
  lemma RollbackAbsorbs(s: State, failed: string, good: string, cut: State)
    requires PrefixState(s, RollbackPlan(failed, good), cut)
    ensures ApplyAll(cut, RollbackPlan(failed, good)) == ApplyAll(s, RollbackPlan(failed, good))
  {
    FourPrefixes(s, RollbackPlan(failed, good), cut);
    RollbackEnd(s, failed, good);
    RollbackEnd(cut, failed, good);
  }

  lemma RollbackEnd(s: State, failed: string, good: string)
    ensures ApplyAll(s, RollbackPlan(failed, good))
      == s[Active := LinkText(good)][Attempted := LinkText(good)][RollbackEvent := EventText(failed, good)] - {Pending}
  {
    FourSteps(s, RollbackPlan(failed, good));
  }

  /** A completed rollback: the good generation is active and attempted, it is
      the tested one and differs from the failed one, and the event names
      both. */
  lemma RollbackLands(store: Store, s: State, d: Decision)
    requires Decide(store, s, true) == Ok(d) && d.Restore?
    ensures var t := ApplyAll(s, d.Plan());
      && {Active, Attempted, Tested, RollbackEvent} <= t.Keys && Pending !in t
      && t[Active] == t[Attempted] == t[Tested] == LinkText(d.good)
      && t[RollbackEvent] == EventText(d.failed, d.good)
    ensures {Attempted, Tested} <= s.Keys
    ensures s[Attempted] == LinkText(d.failed) && s[Tested] == LinkText(d.good)
    ensures s[Attempted] != s[Tested]
  {
    assert ApplyAll(s, d.Plan()) == After(s, d.Plan(), 4);
    FourPrefixes(s, d.Plan(), ApplyAll(s, d.Plan()));
    assert LinkText(d.failed)[|PREFIX|..] == d.failed && LinkText(d.good)[|PREFIX|..] == d.good;
  }

  /** A marking cut short that still has its attempt can be run again and
      reaches the same links. */
  lemma CutMarkingResumes(store: Store, s: State, steps: seq<Step>, cut: State)
    requires MarkPlan(store, s) == Ok(steps)
    requires PrefixState(s, steps, cut) && Attempted in cut
    ensures MarkPlan(store, cut) == Ok(steps)
    ensures ApplyAll(cut, steps) == ApplyAll(s, steps)
  {
    FourPrefixes(s, steps, cut);
    assert cut == After(cut, steps, 0);
    FourPrefixes(cut, steps, cut);
  }

  /** What an activation leaves: the old active link as previous, the new one
      active, pending unless it is the tested one, no attempt and no event. */
  function Activated(store: Store, s: State, id: string): State {
    var current, tested := TargetId(store, s, Active), TargetId(store, s, Tested);
    var kept := if current.Some? && current.value != id then s[Previous := LinkText(current.value)] else s;
    var selected := kept[Active := LinkText(id)];
    (if tested == Some(id) then selected - {Pending} else selected[Pending := LinkText(id)])
    - {Attempted} - {RollbackEvent}
  }

  /** The text of a link to a generation that is there, whole or not. */
  predicate Points(store: Store, text: string) {
    && |text| == 140 && text[..12] == "generations/"
    && (forall i :: 12 <= i < 140 ==> '0' <= text[i] <= '9' || 'a' <= text[i] <= 'f')
    && text[12..] in store
  }

  lemma PointsIsTarget(store: Store, s: State, key: Key)
    ensures TargetId(store, s, key).Some? <==> key in s && Points(store, s[key])
    ensures key in s && Points(store, s[key]) ==>
      TargetId(store, s, key) == Some(s[key][12..]) && s[key] == LinkText(s[key][12..])
  {
    if key in s && |s[key]| >= 12 {
      var text := s[key];
      var id := text[12..];
      assert forall i :: 0 <= i < |id| ==> id[i] == text[i + 12];
      assert forall i :: 12 <= i < |text| ==> text[i] == id[i - 12];
      assert text == text[..12] + id;
    }
  }

  predicate SameAt(s: State, t: State, key: Key) {
    (key in t <==> key in s) && (key in t ==> t[key] == s[key])
  }

  /** The links after an activation, from the texts before it. The link that
      is replaced becomes the previous one, unless it names the same generation
      or none that is there. */
  lemma ActivatedLinks(store: Store, s: State, id: string)
    requires ValidId(id) && id in store
    ensures var t, mine := Activated(store, s, id), "generations/" + id;
      && Active in t && t[Active] == mine && {Attempted, RollbackEvent} !! t.Keys && SameAt(s, t, Tested)
      && (if Tested in s && s[Tested] == mine then Pending !in t else Pending in t && t[Pending] == mine)
      && (if Active in s && s[Active] != mine && Points(store, s[Active]) then Previous in t && t[Previous] == s[Active]
          else SameAt(s, t, Previous))
  {
    PointsIsTarget(store, s, Active);
    PointsIsTarget(store, s, Tested);
    var mine := "generations/" + id;
    assert mine[..12] == "generations/" && mine[12..] == id;
    assert forall i :: 12 <= i < |mine| ==> mine[i] == id[i - 12];
  }

  lemma ActivationLands(store: Store, s: State, id: string)
    ensures ApplyAll(s, ActivatePlan(store, s, id)) == Activated(store, s, id)
  {
    var steps := ActivatePlan(store, s, id);
    FourSteps(s, steps);
  }
}
