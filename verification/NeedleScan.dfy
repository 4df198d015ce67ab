/** The search for leaked key bytes in a file that is read in chunks
    (testing/scan-private-key.py). */
module NeedleScans {
  import opened Basics

  /** The bytes of the first `count` chunks. */
  function Delivered(chunks: seq<seq<Byte>>, count: nat): seq<Byte>
    requires count <= |chunks|
  {
    if count == 0 then [] else Delivered(chunks, count - 1) + chunks[count - 1]
  }

  /** `needle` is a substring of `data`. */
  predicate Occurs(needle: seq<Byte>, data: seq<Byte>) {
    exists i :: 0 <= i <= |data| && Stands(data, i, needle)
  }

  predicate AnyOccurs(needles: seq<seq<Byte>>, data: seq<Byte>) {
    exists k :: 0 <= k < |needles| && Occurs(needles[k], data)
  }

  /** That is: there are bytes before and after it that make up the data. */
  lemma OccursIff(needle: seq<Byte>, data: seq<Byte>)
    ensures Occurs(needle, data) <==> exists before, after :: data == before + needle + after
  {
    if i :| 0 <= i <= |data| && Stands(data, i, needle) {
      assert data == data[..i] + needle + data[i + |needle|..];
    }
    if before, after :| data == before + needle + after {
      assert data[|before|..|before| + |needle|] == needle;
      assert Stands(data, |before|, needle);
    }
  }

  /** The last `count` bytes, or all when there are not so many. */
  function Tail(data: seq<Byte>, count: nat): seq<Byte> {
    if count < |data| then data[|data| - count..] else data
  }

  lemma OccursInLonger(needle: seq<Byte>, before: seq<Byte>, data: seq<Byte>, after: seq<Byte>)
    requires Occurs(needle, data)
    ensures Occurs(needle, before + data + after)
  {
    var i :| 0 <= i <= |data| && Stands(data, i, needle);
    var whole := before + data + after;
    assert whole[|before| + i..|before| + i + |needle|] == data[i..i + |needle|];
    assert Stands(whole, |before| + i, needle);
  }

  /** Looking only at the tail and the new chunk misses nothing: an occurrence
      that touches the chunk starts at most overlap bytes before it. */
  lemma WindowSuffices(needle: seq<Byte>, read: seq<Byte>, chunk: seq<Byte>, overlap: nat)
    requires needle != [] && |needle| <= overlap + 1
    ensures Occurs(needle, read + chunk) <==> Occurs(needle, read) || Occurs(needle, Tail(read, overlap) + chunk)
  {
    var skipped := |read| - |Tail(read, overlap)|;
    var window := Tail(read, overlap) + chunk;
    assert read + chunk == read[..skipped] + window + [];
    assert read + chunk == [] + read + chunk;
    if Occurs(needle, read) {
      OccursInLonger(needle, [], read, chunk);
    }
    if Occurs(needle, window) {
      OccursInLonger(needle, read[..skipped], window, []);
    }
    if Occurs(needle, read + chunk) {
      var i :| 0 <= i <= |read + chunk| && Stands(read + chunk, i, needle);
      if i + |needle| <= |read| {
        assert read[i..i + |needle|] == (read + chunk)[i..i + |needle|];
        assert Stands(read, i, needle);
      } else {
        WindowAt(needle, read + chunk, skipped, i, window);
      }
    }
  }

  lemma WindowAt(needle: seq<Byte>, whole: seq<Byte>, skipped: nat, i: nat, window: seq<Byte>)
    requires skipped <= i && skipped <= |whole| && window == whole[skipped..] && Stands(whole, i, needle)
    ensures Occurs(needle, window)
  {
    assert window[i - skipped..i - skipped + |needle|] == whole[i..i + |needle|];
    assert Stands(window, i - skipped, needle);
  }

  lemma AnyWindowSuffices(needles: seq<seq<Byte>>, read: seq<Byte>, chunk: seq<Byte>, overlap: nat)
    requires forall k :: 0 <= k < |needles| ==> 0 < |needles[k]| <= overlap + 1
    ensures AnyOccurs(needles, read + chunk)
      <==> AnyOccurs(needles, read) || AnyOccurs(needles, Tail(read, overlap) + chunk)
  {
    forall k | 0 <= k < |needles|
      ensures Occurs(needles[k], read + chunk)
        <==> Occurs(needles[k], read) || Occurs(needles[k], Tail(read, overlap) + chunk)
    {
      WindowSuffices(needles[k], read, chunk, overlap);
    }
  }

  /** The tail can be kept from window to window. */
  lemma TailOfWindow(read: seq<Byte>, chunk: seq<Byte>, overlap: nat)
    ensures Tail(Tail(read, overlap) + chunk, overlap) == Tail(read + chunk, overlap)
  {
    var skipped := |read| - |Tail(read, overlap)|;
    assert Tail(read, overlap) + chunk == (read + chunk)[skipped..];
  }

  lemma {:induction false} LaterChunksKeep(needles: seq<seq<Byte>>, chunks: seq<seq<Byte>>, i: nat, count: nat)
    requires i <= count <= |chunks| && AnyOccurs(needles, Delivered(chunks, i))
    ensures AnyOccurs(needles, Delivered(chunks, count))
  {
    if i < count {
      LaterChunksKeep(needles, chunks, i, count - 1);
      var before := Delivered(chunks, count - 1);
      var k :| 0 <= k < |needles| && Occurs(needles[k], before);
      OccursInLonger(needles[k], [], before, chunks[count - 1]);
      assert [] + before + chunks[count - 1] == Delivered(chunks, count);
    }
  }

  /** One round of the scan. */
  lemma NextWindow(needles: seq<seq<Byte>>, chunks: seq<seq<Byte>>, i: nat, overlap: nat)
    requires i < |chunks| && forall k :: 0 <= k < |needles| ==> 0 < |needles[k]| <= overlap + 1
    ensures var window := Tail(Delivered(chunks, i), overlap) + chunks[i];
      && Tail(window, overlap) == Tail(Delivered(chunks, i + 1), overlap)
      && (AnyOccurs(needles, Delivered(chunks, i + 1))
          <==> AnyOccurs(needles, Delivered(chunks, i)) || AnyOccurs(needles, window))
  {
    AnyWindowSuffices(needles, Delivered(chunks, i), chunks[i], overlap);
    TailOfWindow(Delivered(chunks, i), chunks[i], overlap);
  }

  method Longest(needles: seq<seq<Byte>>) returns (longest: nat)
    requires needles != []
    ensures forall k :: 0 <= k < |needles| ==> |needles[k]| <= longest
    ensures exists k :: 0 <= k < |needles| && |needles[k]| == longest
  {
    longest := |needles[0]|;
    for i := 1 to |needles|
      invariant forall k :: 0 <= k < i ==> |needles[k]| <= longest
      invariant exists k :: 0 <= k < i && |needles[k]| == longest
    {
      if |needles[i]| > longest {
        longest := |needles[i]|;
      }
    }
  }

  /** Whether a needle occurs in the file whose reads delivered these chunks
      before the end, or before an error stopped them: true exactly when some
      needle is a substring of everything delivered, however it was cut. */
  method Contains(chunks: seq<seq<Byte>>, needles: seq<seq<Byte>>) returns (found: bool)
    requires needles != [] && forall k :: 0 <= k < |needles| ==> needles[k] != []
    ensures found <==> AnyOccurs(needles, Delivered(chunks, |chunks|))
  {
    var longest := Longest(needles);
    assert forall k :: 0 <= k < |needles| ==> 0 < |needles[k]|;
    var overlap: nat := longest - 1;
    var tail: seq<Byte> := [];
    for i := 0 to |chunks|
      invariant tail == Tail(Delivered(chunks, i), overlap)
      invariant !AnyOccurs(needles, Delivered(chunks, i))
    {
      var data := tail + chunks[i];
      NextWindow(needles, chunks, i, overlap);
      if AnyOccurs(needles, data) {
        LaterChunksKeep(needles, chunks, i + 1, |chunks|);
        return true;
      }
      tail := if overlap == 0 then [] else Tail(data, overlap);
    }
    found := false;
  }
}
