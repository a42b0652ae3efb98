/** The frames of a message and the numbers in them. */
module Frames {

  /** A frame and its flag: do more frames of the same message follow? */
  datatype Frame = Frame(bytes: string, more: bool)

  const ID_SIZE: nat := 8
  const REQUEST_ID_SIZE: nat := 16

  function Pow256(k: nat): nat {
    if k == 0 then 1 else 256 * Pow256(k - 1)
  }

  /** A number in `k` bytes, the lowest one first. */
  function Bytes(n: nat, k: nat): (s: string)
    ensures |s| == k
  {
    if k == 0 then "" else [(n % 256) as char] + Bytes(n / 256, k - 1)
  }

  function Number(s: string): (n: nat)
    ensures n < Pow256(|s|)
  {
    if s == "" then 0 else s[0] as int % 256 + 256 * Number(s[1..])
  }

  lemma {:induction false} NumberOfBytes(n: nat, k: nat)
    requires n < Pow256(k)
    ensures Number(Bytes(n, k)) == n
  {
    if k > 0 {
      assert Bytes(n, k)[1..] == Bytes(n / 256, k - 1);
      NumberOfBytes(n / 256, k - 1);
    }
  }

  /** Bytes further behind count for more. */
  lemma {:induction false} NumberConcat(a: string, b: string)
    ensures Number(a + b) == Number(a) + Pow256(|a|) * Number(b)
    decreases |a|
  {
    if a == "" {
      assert a + b == b;
    } else {
      assert (a + b)[1..] == a[1..] + b;
      NumberConcat(a[1..], b);
      Shifted(a[0] as int % 256, Number(a[1..]), Pow256(|a| - 1), Number(b));
    }
  }

  lemma Shifted(c: int, x: int, m: int, y: int)
    ensures c + 256 * (x + m * y) == (c + 256 * x) + (256 * m) * y
  {
  }

  /** One whole message: only the last frame is not followed by another one. */
  predicate Complete(frames: seq<Frame>) {
    frames != [] && forall i :: 0 <= i < |frames| ==> (frames[i].more <==> i < |frames| - 1)
  }

  /** What waits at a socket are whole messages: a frame that announces another one is followed by it. */
  predicate Whole(inbox: seq<Frame>) {
    inbox != [] ==> !inbox[|inbox| - 1].more
  }

  /** The frames that a socket takes, up to the first one that it refuses. */
  function Taken(frames: seq<Frame>, accepts: nat -> bool): seq<Frame> {
    TakenFrom(frames, accepts, 0)
  }

  function TakenFrom(frames: seq<Frame>, accepts: nat -> bool, k: nat): seq<Frame> {
    if frames == [] || !accepts(k) then [] else [frames[0]] + TakenFrom(frames[1..], accepts, k + 1)
  }

  lemma {:induction false} AllTaken(frames: seq<Frame>, accepts: nat -> bool, k: nat)
    requires forall i :: k <= i < k + |frames| ==> accepts(i)
    ensures TakenFrom(frames, accepts, k) == frames
    decreases |frames|
  {
    if frames != [] {
      AllTaken(frames[1..], accepts, k + 1);
    }
  }

  /** One more frame. */
  lemma TakenStep(frames: seq<Frame>, accepts: nat -> bool, k: nat)
    requires k < |frames|
    ensures frames[..k] + TakenFrom(frames[k..], accepts, k) ==
      if !accepts(k) then frames[..k] else frames[..k + 1] + TakenFrom(frames[k + 1..], accepts, k + 1)
  {
    assert frames[k..][1..] == frames[k + 1..];
  }

  /** One frame or two. */
  lemma TakenReply(frames: seq<Frame>, accepts: nat -> bool)
    requires 1 <= |frames| <= 2
    ensures Taken(frames, accepts) ==
      if !accepts(0) then [] else if |frames| == 2 && !accepts(1) then frames[..1] else frames
  {
    TakenStep(frames, accepts, 0);
    if |frames| == 2 {
      TakenStep(frames, accepts, 1);
    }
    assert frames[0..] == frames;
  }

  /** Three frames or four. */
  lemma TakenPrefix(frames: seq<Frame>, accepts: nat -> bool)
    requires 3 <= |frames| <= 4
    ensures Taken(frames, accepts) ==
      if !accepts(0) then [] else if !accepts(1) then frames[..1] else if !accepts(2) then frames[..2]
      else if |frames| == 4 && !accepts(3) then frames[..3] else frames
  {
    TakenStep(frames, accepts, 0);
    TakenStep(frames, accepts, 1);
    TakenStep(frames, accepts, 2);
    if |frames| == 4 {
      TakenStep(frames, accepts, 3);
    }
    assert frames[0..] == frames;
  }

  /** A reply socket keeps the frames up to the first empty one as the envelope of the request. */
  function Envelope(frames: seq<Frame>): seq<Frame> {
    if frames == [] then []
    else if frames[0].bytes == "" then [frames[0]]
    else [frames[0]] + Envelope(frames[1..])
  }

  /** It hands out the rest, and puts the envelope in front of the frames that are sent back. */
  function Contents(frames: seq<Frame>): seq<Frame> {
    if frames == [] then []
    else if frames[0].bytes == "" then frames[1..]
    else Contents(frames[1..])
  }
}
