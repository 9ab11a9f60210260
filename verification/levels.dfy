/** Operations on level sequences (`seq<bool>`, `true` = high) that both the
    synthesizer and the transfer engine use. */
module Levels {

  /** Number of high levels in `s`. */
  function CountTrue(s: seq<bool>): (r: nat)
    ensures r <= |s|
  {
    if |s| == 0 then 0 else (if s[0] then 1 else 0) + CountTrue(s[1..])
  }

  lemma {:induction false} CountTrueConcat(a: seq<bool>, b: seq<bool>)
    ensures CountTrue(a + b) == CountTrue(a) + CountTrue(b)
  {
    if |a| > 0 {
      assert (a + b)[1..] == a[1..] + b;
      CountTrueConcat(a[1..], b);
    } else {
      assert a + b == b;
    }
  }

  /** The levels of `levels` at the positions where `triggers` is high, in
      order: the bits the transfer loop appends to its result. */
  function Capture(triggers: seq<bool>, levels: seq<bool>): (r: seq<bool>)
    requires |triggers| == |levels|
    ensures |r| == CountTrue(triggers)
  {
    if |triggers| == 0 then []
    else (if triggers[0] then [levels[0]] else []) + Capture(triggers[1..], levels[1..])
  }

  lemma {:induction false} CaptureConcat(t1: seq<bool>, l1: seq<bool>, t2: seq<bool>, l2: seq<bool>)
    requires |t1| == |l1| && |t2| == |l2|
    ensures Capture(t1 + t2, l1 + l2) == Capture(t1, l1) + Capture(t2, l2)
  {
    if |t1| > 0 {
      assert (t1 + t2)[1..] == t1[1..] + t2;
      assert (l1 + l2)[1..] == l1[1..] + l2;
      CaptureConcat(t1[1..], l1[1..], t2, l2);
    } else {
      assert t1 + t2 == t2 && l1 + l2 == l2;
    }
  }

  /** Capture only looks at the triggered positions: two level sequences that
      agree there capture the same bits. */
  lemma {:induction false} CaptureAgrees(t: seq<bool>, l1: seq<bool>, l2: seq<bool>)
    requires |t| == |l1| == |l2|
    requires forall i :: 0 <= i < |t| && t[i] ==> l1[i] == l2[i]
    ensures Capture(t, l1) == Capture(t, l2)
  {
    if |t| > 0 {
      CaptureAgrees(t[1..], l1[1..], l2[1..]);
    }
  }
}
