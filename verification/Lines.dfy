/** Splitting bytes on newlines. */
module Lines {
  import opened Basics

  const NEWLINE: Byte := 10

  /** The pieces between newlines; there is always one more piece than
      newlines. */
  function Split(s: seq<Byte>): (pieces: seq<seq<Byte>>)
    ensures pieces != []
  {
    if s == [] then [[]]
    else
      var rest := Split(s[1..]);
      if s[0] == NEWLINE then [[]] + rest else [[s[0]] + rest[0]] + rest[1..]
  }

  /** A piece up to the first newline comes off the front. */
  lemma {:induction false} SplitFirst(piece: seq<Byte>, rest: seq<Byte>)
    requires NEWLINE !in piece
    ensures Split(piece + [NEWLINE] + rest) == [piece] + Split(rest)
  {
    var s := piece + [NEWLINE] + rest;
    if piece == [] {
      assert s[1..] == rest;
    } else {
      SplitFirst(piece[1..], rest);
      assert s[1..] == piece[1..] + [NEWLINE] + rest;
      assert s[0] in piece;
      assert [s[0]] + piece[1..] == piece;
    }
  }

  lemma {:induction false} SplitNone(piece: seq<Byte>)
    requires NEWLINE !in piece
    ensures Split(piece) == [piece]
  {
    if piece != [] {
      SplitNone(piece[1..]);
      assert piece[0] in piece;
      assert [piece[0]] + piece[1..] == piece;
    }
  }

  /** Appending bytes continues the last piece. */
  lemma {:induction false} SplitAppend(a: seq<Byte>, b: seq<Byte>)
    ensures Split(a + b) == Init(Split(a)) + Split(Last(Split(a)) + b)
  {
    if a == [] {
      assert a + b == b && [] + b == b;
    } else {
      assert (a + b)[1..] == a[1..] + b;
      SplitAppend(a[1..], b);
      SplitAppendStep(a[0], Split(a[1..]), b);
    }
  }

  lemma {:induction false} SplitAppendStep(head: Byte, tail: seq<seq<Byte>>, b: seq<Byte>)
    requires tail != []
    ensures var rest := Init(tail) + Split(Last(tail) + b);
      var whole := if head == NEWLINE then [[]] + tail else [[head] + tail[0]] + tail[1..];
      (if head == NEWLINE then [[]] + rest else [[head] + rest[0]] + rest[1..]) == Init(whole) + Split(Last(whole) + b)
  {
    if head != NEWLINE && |tail| == 1 {
      var piece := tail[0] + b;
      assert [head] + tail[0] + b == [head] + piece;
      assert ([head] + piece)[1..] == piece;
      assert Split([head] + piece) == [[head] + Split(piece)[0]] + Split(piece)[1..];
    }
  }

  function Init<T>(s: seq<T>): seq<T>
    requires s != []
  {
    s[..|s| - 1]
  }

  function Last<T>(s: seq<T>): T
    requires s != []
  {
    s[|s| - 1]
  }

  lemma {:induction false} PiecesHaveNoNewline(s: seq<Byte>)
    ensures forall i :: 0 <= i < |Split(s)| ==> NEWLINE !in Split(s)[i]
  {
    if s != [] {
      PiecesHaveNoNewline(s[1..]);
    }
  }

  /** The first place of a byte, or the length. */
  function IndexOf(s: seq<Byte>, b: Byte): (n: nat)
    ensures n <= |s| && b !in s[..n] && (n < |s| ==> s[n] == b)
  {
    if s == [] || s[0] == b then 0
    else
      var n := 1 + IndexOf(s[1..], b);
      assert s[..n] == [s[0]] + s[1..][..n - 1];
      n
  }

  lemma {:induction false} IndexOfAfter(s: seq<Byte>, b: Byte, rest: seq<Byte>)
    requires b !in s
    ensures IndexOf(s + [b] + rest, b) == |s|
  {
    var whole := s + [b] + rest;
    if s != [] {
      assert whole[0] == s[0] && s[0] in s;
      assert whole[1..] == s[1..] + [b] + rest;
      IndexOfAfter(s[1..], b, rest);
    }
  }

  lemma {:induction false} IndexOfNone(s: seq<Byte>, b: Byte)
    requires b !in s
    ensures IndexOf(s, b) == |s|
  {
  }
}
