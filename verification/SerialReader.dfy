/** The serial reader with idle flush (vm-serial-man-rs/src/manager/pty.rs).

    Bytes arrive in chunks, or the line stays idle for a while. A newline
    completes the current line; an idle moment shows what is pending without
    ending the line. */
module SerialReaders {
  import opened Basics
  import opened Lines

  /** What is handed to `emit`: bytes, and whether a newline followed them. */
  datatype Fragment = Fragment(bytes: seq<Byte>, ended: bool)

  datatype Event = Chunk(bytes: seq<Byte>) | Idle

  /** The bytes of all chunks. */
  function Received(events: seq<Event>): seq<Byte> {
    if events == [] then []
    else Received(Init(events)) + if Last(events).Chunk? then Last(events).bytes else []
  }

  // ---------------------------------------------------------------------
  // What the fragments say

  /** The fragments with their newlines restored. */
  function Restored(fragments: seq<Fragment>): seq<Byte> {
    if fragments == [] then []
    else Restored(Init(fragments)) + Last(fragments).bytes + if Last(fragments).ended then [NEWLINE] else []
  }

  /** The lines the fragments form: those that ended, and what was shown of the
      line still open. */
  function Grouped(fragments: seq<Fragment>): (lines: seq<seq<Byte>>)
    ensures lines != []
  {
    if fragments == [] then [[]]
    else
      var before := Grouped(Init(fragments));
      Init(before) + [Last(before) + Last(fragments).bytes] + if Last(fragments).ended then [[]] else []
  }

  function Join(pieces: seq<seq<Byte>>): seq<Byte>
    requires pieces != []
  {
    if |pieces| == 1 then pieces[0] else Join(Init(pieces)) + [NEWLINE] + Last(pieces)
  }

  lemma {:induction false} JoinGrouped(fragments: seq<Fragment>)
    ensures Join(Grouped(fragments)) == Restored(fragments)
  {
    if fragments != [] {
      JoinGrouped(Init(fragments));
      var before, last := Grouped(Init(fragments)), Last(fragments);
      JoinLonger(before, last.bytes);
      var longer := Init(before) + [Last(before) + last.bytes];
      if last.ended {
        assert Init(longer + [[]]) == longer;
      } else {
        assert longer + [] == longer;
      }
    }
  }

  lemma {:induction false} JoinLonger(pieces: seq<seq<Byte>>, more: seq<Byte>)
    requires pieces != []
    ensures Join(Init(pieces) + [Last(pieces) + more]) == Join(pieces) + more
  {
    var longer := Init(pieces) + [Last(pieces) + more];
    if |pieces| > 1 {
      assert Init(longer) == Init(pieces);
    }
  }

  /** Joining the pieces of a split gives the bytes back. */
  lemma {:induction false} JoinSplit(s: seq<Byte>)
    ensures Join(Split(s)) == s
  {
    if s != [] {
      JoinSplit(s[1..]);
      var rest := Split(s[1..]);
      if s[0] == NEWLINE {
        JoinFront([], rest);
        assert Split(s) == [[]] + rest;
        assert [] + [NEWLINE] + s[1..] == s;
      } else {
        assert Split(s) == [[s[0]] + rest[0]] + rest[1..];
        JoinHead(s[0], rest);
      }
    }
  }

  lemma {:induction false} JoinFront(first: seq<Byte>, rest: seq<seq<Byte>>)
    requires rest != []
    ensures Join([first] + rest) == first + [NEWLINE] + Join(rest)
  {
    if |rest| == 1 {
      assert Init([first] + rest) == [first];
    } else {
      assert Init([first] + rest) == [first] + Init(rest);
      JoinFront(first, Init(rest));
    }
  }

  lemma {:induction false} JoinHead(head: Byte, rest: seq<seq<Byte>>)
    requires rest != []
    ensures Join([[head] + rest[0]] + rest[1..]) == [head] + Join(rest)
  {
    var longer := [[head] + rest[0]] + rest[1..];
    if |rest| > 1 {
      JoinHead(head, Init(rest));
      assert Init(longer) == [[head] + Init(rest)[0]] + Init(rest)[1..];
    }
  }

  // ---------------------------------------------------------------------
  // The reader

  /** The reader has seen exactly `seen`: the ended lines are the finished
      pieces of it, `pending` is the piece still open, and the first `flushed`
      bytes of it have been shown. */
  ghost predicate Tracks(pending: seq<Byte>, flushed: nat, emitted: seq<Fragment>, seen: seq<Byte>) {
    && flushed <= |pending|
    && Init(Grouped(emitted)) + [pending] == Split(seen)
    && Last(Grouped(emitted)) == pending[..flushed]
  }

  /** Each byte is shown once, in order: what was emitted, newlines restored,
      and what is still to be shown make up the bytes read so far. */
  lemma {:induction false} TracksConserves(pending: seq<Byte>, flushed: nat, emitted: seq<Fragment>, seen: seq<Byte>)
    requires Tracks(pending, flushed, emitted, seen)
    ensures Restored(emitted) + pending[flushed..] == seen
  {
    JoinGrouped(emitted);
    JoinSplit(seen);
    JoinLonger(Grouped(emitted), pending[flushed..]);
    assert pending[..flushed] + pending[flushed..] == pending;
  }

  lemma EndLine(pending: seq<Byte>, flushed: nat, emitted: seq<Fragment>, seen: seq<Byte>, head: seq<Byte>)
    requires Tracks(pending, flushed, emitted, seen) && NEWLINE !in head
    ensures Tracks([], 0, emitted + [Fragment((pending + head)[flushed..], true)], seen + head + [NEWLINE])
  {
    var line := pending + head;
    var f := Fragment(line[flushed..], true);
    assert Init(emitted + [f]) == emitted;
    assert pending[..flushed] + line[flushed..] == line;
    PiecesHaveNoNewline(seen);
    assert Last(Split(seen)) == pending;
    assert NEWLINE !in line;
    SplitAppend(seen, head + [NEWLINE]);
    assert seen + (head + [NEWLINE]) == seen + head + [NEWLINE];
    assert pending + (head + [NEWLINE]) == line + [NEWLINE] + [];
    SplitFirst(line, []);
    assert Init(Split(seen)) == Init(Grouped(emitted));
    assert Init(Grouped(emitted + [f])) == Init(Grouped(emitted)) + [line];
  }

  lemma Extend(pending: seq<Byte>, flushed: nat, emitted: seq<Fragment>, seen: seq<Byte>, rest: seq<Byte>)
    requires Tracks(pending, flushed, emitted, seen) && NEWLINE !in rest
    ensures Tracks(pending + rest, flushed, emitted, seen + rest)
  {
    PiecesHaveNoNewline(seen);
    assert Last(Split(seen)) == pending;
    SplitAppend(seen, rest);
    SplitNone(pending + rest);
    assert Init(Split(seen)) == Init(Grouped(emitted));
    assert (pending + rest)[..flushed] == pending[..flushed];
  }

  lemma Flush(pending: seq<Byte>, flushed: nat, emitted: seq<Fragment>, seen: seq<Byte>)
    requires Tracks(pending, flushed, emitted, seen)
    ensures Tracks(pending, |pending|, emitted + [Fragment(pending[flushed..], false)], seen)
  {
    var f := Fragment(pending[flushed..], false);
    assert Init(emitted + [f]) == emitted;
    assert pending[..flushed] + pending[flushed..] == pending;
    assert Init(Grouped(emitted + [f])) == Init(Grouped(emitted));
    assert pending[..|pending|] == pending;
  }

  // ---------------------------------------------------------------------
  // What is shown when

  /** The first fragments are exactly the first n bytes. */
  ghost predicate ShownAt(emitted: seq<Fragment>, n: nat) {
    exists j :: 0 <= j <= |emitted| && |Restored(emitted[..j])| == n
  }

  /** A fragment that ends no line ends at an idle moment, and is not empty. */
  ghost predicate PausedAt(emitted: seq<Fragment>, j: nat, pauses: set<nat>)
    requires j < |emitted|
  {
    emitted[j].ended || (emitted[j].bytes != [] && |Restored(emitted[..j + 1])| in pauses)
  }

  /** At each idle moment everything that had arrived was shown, and nothing
      was shown before its newline but at such a moment. */
  ghost predicate Paced(emitted: seq<Fragment>, pauses: set<nat>) {
    && (forall n :: n in pauses ==> ShownAt(emitted, n))
    && forall j :: 0 <= j < |emitted| ==> PausedAt(emitted, j, pauses)
  }

  /** One more fragment: the end of a line, or what an idle moment shows. */
  lemma {:induction false} PacedNext(emitted: seq<Fragment>, pauses: set<nat>, f: Fragment, more: set<nat>)
    requires Paced(emitted, pauses) && pauses <= more <= pauses + {|Restored(emitted + [f])|}
    requires f.ended || (f.bytes != [] && |Restored(emitted + [f])| in more)
    ensures Paced(emitted + [f], more)
  {
    var longer := emitted + [f];
    assert longer[..|longer|] == longer;
    forall n | n in more ensures ShownAt(longer, n) {
      if n in pauses {
        assert ShownAt(emitted, n);
        var j :| 0 <= j <= |emitted| && |Restored(emitted[..j])| == n;
        assert longer[..j] == emitted[..j];
      } else {
        assert |Restored(longer[..|longer|])| == n;
      }
    }
    forall j | 0 <= j < |longer| ensures PausedAt(longer, j, more) {
      if j < |emitted| {
        assert longer[..j + 1] == emitted[..j + 1] && PausedAt(emitted, j, pauses);
      } else {
        assert longer[..j + 1] == longer;
      }
    }
  }

  /** An idle moment with nothing new to show. */
  lemma {:induction false} PacedStill(emitted: seq<Fragment>, pauses: set<nat>)
    requires Paced(emitted, pauses)
    ensures Paced(emitted, pauses + {|Restored(emitted)|})
  {
    assert emitted[..|emitted|] == emitted;
    forall j | 0 <= j < |emitted| ensures PausedAt(emitted, j, pauses + {|Restored(emitted)|}) {
      assert PausedAt(emitted, j, pauses);
    }
  }

  /** Lines emitted without any idle moment. */
  function WholeLines(lines: seq<seq<Byte>>): (fragments: seq<Fragment>)
    ensures |fragments| == |lines|
    ensures forall i :: 0 <= i < |lines| ==> fragments[i] == Fragment(lines[i], true)
  {
    seq(|lines|, i requires 0 <= i < |lines| => Fragment(lines[i], true))
  }

  lemma NothingSeen()
    ensures Tracks([], 0, [], []) && WholeLines(Init(Split([]))) == []
  {
    var none: seq<Byte> := [];
    assert Split(none) == [none] && Init([none]) == [];
    assert Grouped([]) == [none];
  }

  class SerialReader {
    var pending: seq<Byte>
    var flushed: nat
    var emitted: seq<Fragment>
    /** Everything read so far. */
    ghost var seen: seq<Byte>
    /** How many bytes had arrived at each idle moment. */
    ghost var pauses: set<nat>
    /** No idle moment showed anything yet. */
    ghost var undisturbed: bool

    ghost predicate Valid()
      reads this
    {
      && Tracks(pending, flushed, emitted, seen) && Paced(emitted, pauses)
      && (undisturbed ==> flushed == 0 && emitted == WholeLines(Init(Split(seen))))
    }

    constructor ()
      ensures Valid() && seen == [] && pauses == {} && undisturbed
    {
      pending, flushed, emitted := [], 0, [];
      seen, pauses, undisturbed := [], {}, true;
      NothingSeen();
    }

    /** Bytes arrived. */
    method Read(chunk: seq<Byte>)
      requires Valid()
      modifies this
      ensures Valid() && seen == old(seen) + chunk && pauses == old(pauses) && undisturbed == old(undisturbed)
      ensures NEWLINE !in chunk ==> emitted == old(emitted)
    {
      var rest := chunk;
      var nl: nat := Position(rest);
      while nl < |rest|
        invariant Valid() && seen + rest == old(seen) + chunk
        invariant pauses == old(pauses) && undisturbed == old(undisturbed)
        invariant nl <= |rest| && NEWLINE !in rest[..nl] && (nl < |rest| ==> rest[nl] == NEWLINE)
        invariant NEWLINE !in chunk ==> emitted == old(emitted) && NEWLINE !in rest
        decreases |rest|
      {
        assert rest == rest[..nl] + [NEWLINE] + rest[nl + 1..];
        Complete(rest[..nl]);
        rest := rest[nl + 1..];
        nl := Position(rest);
      }
      assert rest[..nl] == rest;
      Stash(rest);
    }

    /** The rest of the current line and its newline arrived. */
    method Complete(head: seq<Byte>)
      requires Valid() && NEWLINE !in head
      modifies this
      ensures Valid() && seen == old(seen) + head + [NEWLINE]
      ensures pauses == old(pauses) && undisturbed == old(undisturbed)
      ensures pending == [] && emitted == old(emitted) + [Fragment((old(pending) + head)[old(flushed)..], true)]
    {
      EndLine(pending, flushed, emitted, seen, head);
      EndWhole(seen, head, pending);
      PacedNext(emitted, pauses, Fragment((pending + head)[flushed..], true), pauses);
      pending := pending + head;
      emitted := emitted + [Fragment(pending[flushed..], true)];
      seen := seen + head + [NEWLINE];
      pending, flushed := [], 0;
    }

    /** Bytes without a newline arrived. */
    method Stash(rest: seq<Byte>)
      requires Valid() && NEWLINE !in rest
      modifies this
      ensures Valid() && seen == old(seen) + rest && pauses == old(pauses) && undisturbed == old(undisturbed)
      ensures pending == old(pending) + rest && flushed == old(flushed) && emitted == old(emitted)
    {
      Extend(pending, flushed, emitted, seen, rest);
      ExtendWhole(seen, rest, pending);
      pending, seen := pending + rest, seen + rest;
    }

    /** The read timed out: show what is pending and was not shown yet. */
    method OnIdle()
      requires Valid()
      modifies this
      ensures Valid() && seen == old(seen) && flushed == |pending| && pending == old(pending)
      ensures pauses == old(pauses) + {|seen|} && Restored(emitted) == seen
      ensures emitted ==
        if old(flushed) < |pending| then old(emitted) + [Fragment(pending[old(flushed)..], false)] else old(emitted)
    {
      ghost var was := emitted;
      if flushed < |pending| {
        Flush(pending, flushed, emitted, seen);
        emitted := emitted + [Fragment(pending[flushed..], false)];
        flushed := |pending|;
        undisturbed := false;
      }
      TracksConserves(pending, flushed, emitted, seen);
      assert Restored(emitted) == seen;
      if emitted == was {
        PacedStill(emitted, pauses);
      } else {
        PacedNext(was, pauses, Last(emitted), pauses + {|seen|});
      }
      pauses := pauses + {|seen|};
    }
  }

  /** The index of the first newline, or the length. */
  method Position(rest: seq<Byte>) returns (nl: nat)
    ensures nl <= |rest| && NEWLINE !in rest[..nl] && (nl < |rest| ==> rest[nl] == NEWLINE)
  {
    nl := 0;
    while nl < |rest| && rest[nl] != NEWLINE
      invariant nl <= |rest| && NEWLINE !in rest[..nl]
    {
      nl := nl + 1;
    }
  }

  lemma {:induction false} EndWhole(seen: seq<Byte>, head: seq<Byte>, pending: seq<Byte>)
    requires NEWLINE !in head && Last(Split(seen)) == pending
    ensures Init(Split(seen + head + [NEWLINE])) == Init(Split(seen)) + [pending + head]
    ensures WholeLines(Init(Split(seen + head + [NEWLINE])))
      == WholeLines(Init(Split(seen))) + [Fragment(pending + head, true)]
  {
    PiecesHaveNoNewline(seen);
    SplitAppend(seen, head + [NEWLINE]);
    assert seen + (head + [NEWLINE]) == seen + head + [NEWLINE];
    assert pending + (head + [NEWLINE]) == (pending + head) + [NEWLINE] + [];
    SplitFirst(pending + head, []);
  }

  lemma {:induction false} ExtendWhole(seen: seq<Byte>, rest: seq<Byte>, pending: seq<Byte>)
    requires NEWLINE !in rest && Last(Split(seen)) == pending
    ensures Init(Split(seen + rest)) == Init(Split(seen))
  {
    PiecesHaveNoNewline(seen);
    SplitAppend(seen, rest);
    SplitNone(pending + rest);
  }

  /** What one more event adds to the bytes received. */
  lemma ReceivedNext(events: seq<Event>, i: nat)
    requires i < |events|
    ensures Received(events[..i + 1]) == Received(events[..i]) + if events[i].Chunk? then events[i].bytes else []
  {
    assert Init(events[..i + 1]) == events[..i];
  }

  /** How many bytes had arrived at each of the idle moments. */
  ghost function Pauses(events: seq<Event>): set<nat> {
    set k | 0 <= k < |events| && events[k].Idle? :: |Received(events[..k])|
  }

  lemma {:induction false} PausesNext(events: seq<Event>, i: nat)
    requires i < |events|
    ensures Pauses(events[..i + 1])
      == Pauses(events[..i]) + if events[i].Idle? then {|Received(events[..i])|} else {}
  {
    forall k | 0 <= k < i
      ensures events[..i + 1][k] == events[..i][k] && events[..i + 1][..k] == events[..i][..k] == events[..k]
    {
    }
    assert events[..i + 1][..i] == events[..i];
    var before, after := Pauses(events[..i]), Pauses(events[..i + 1]);
    if events[i].Idle? {
      assert events[..i + 1][i].Idle?;
    }
  }

  /** Any interleaving of chunks and idle moments: each byte is emitted once, in
      order, and the fragments group into exactly the lines of the input. At
      every idle moment all that had arrived has been shown, and no part of a
      line is shown at any other time before its newline. When nothing was ever
      flushed early the fragments are those lines, whatever the chunks were. */
  method Drain(events: seq<Event>) returns (emitted: seq<Fragment>, open: seq<Byte>, shown: nat)
    ensures shown <= |open|
    ensures Restored(emitted) + open[shown..] == Received(events)
    ensures Init(Grouped(emitted)) + [open] == Split(Received(events))
    ensures Last(Grouped(emitted)) == open[..shown]
    ensures forall k :: 0 <= k < |events| && events[k].Idle? ==>
      exists j :: 0 <= j <= |emitted| && |Restored(emitted[..j])| == |Received(events[..k])|
    ensures forall j :: 0 <= j < |emitted| && !emitted[j].ended ==>
      && emitted[j].bytes != []
      && exists k :: 0 <= k < |events| && events[k].Idle? && |Received(events[..k])| == |Restored(emitted[..j + 1])|
    ensures Idle !in events ==> emitted == WholeLines(Init(Split(Received(events)))) && shown == 0
  {
    var reader := new SerialReader();
    for i := 0 to |events|
      invariant reader.Valid() && reader.seen == Received(events[..i])
      invariant reader.pauses == Pauses(events[..i])
      invariant Idle !in events ==> reader.undisturbed
    {
      ReceivedNext(events, i);
      PausesNext(events, i);
      match events[i] {
        case Chunk(bytes) => reader.Read(bytes);
        case Idle => reader.OnIdle();
      }
    }
    assert events[..|events|] == events;
    TracksConserves(reader.pending, reader.flushed, reader.emitted, reader.seen);
    emitted, open, shown := reader.emitted, reader.pending, reader.flushed;
    PacedMeans(emitted, events);
  }

  lemma PacedMeans(emitted: seq<Fragment>, events: seq<Event>)
    requires Paced(emitted, Pauses(events))
    ensures forall k :: 0 <= k < |events| && events[k].Idle? ==> ShownAt(emitted, |Received(events[..k])|)
    ensures forall j :: 0 <= j < |emitted| && !emitted[j].ended ==>
      && emitted[j].bytes != []
      && exists k :: 0 <= k < |events| && events[k].Idle? && |Received(events[..k])| == |Restored(emitted[..j + 1])|
  {
    forall k | 0 <= k < |events| && events[k].Idle? ensures ShownAt(emitted, |Received(events[..k])|) {
      assert |Received(events[..k])| in Pauses(events);
    }
    forall j | 0 <= j < |emitted| && !emitted[j].ended
      ensures emitted[j].bytes != []
      ensures exists k ::
        0 <= k < |events| && events[k].Idle? && |Received(events[..k])| == |Restored(emitted[..j + 1])|
    {
      assert PausedAt(emitted, j, Pauses(events));
    }
  }
}
