/**
 * The per-station receipt-ordered buffer, a `deque(maxlen=capacity)`, and the
 * newest-first scan that the trailing-window average makes over it.
 */
module RecentBuffer {
  import opened Wrappers
  import opened Samples

  /** The newest `cap` entries of `s`, or all of `s` when it is shorter. */
  function Newest<T>(s: seq<T>, cap: nat): (r: seq<T>)
    ensures |r| == if |s| < cap then |s| else cap
    ensures r == s[|s| - |r|..]
  {
    if |s| <= cap then s else s[|s| - cap..]
  }

  /** `deque.append` on a deque bounded by `cap`: when full, the oldest entry is dropped first. */
  function Push(buf: seq<Sample>, s: Sample, cap: nat): (r: seq<Sample>)
    requires |buf| <= cap
    ensures |r| <= cap
    ensures |r| == if |buf| < cap then |buf| + 1 else cap
    ensures cap > 0 ==> r[|r| - 1] == s
    ensures |buf| < cap ==> r == buf + [s]
    ensures 0 < |buf| == cap ==> r == buf[1..] + [s]
  {
    if |buf| < cap then buf + [s]
    else if cap == 0 then []
    else buf[1..] + [s]
  }

  /** A push keeps exactly the newest `cap` entries of the buffer followed by the new sample. */
  lemma PushIsNewest(buf: seq<Sample>, s: Sample, cap: nat)
    requires |buf| <= cap
    ensures Push(buf, s, cap) == Newest(buf + [s], cap)
  {
    if |buf| == cap && cap > 0 {
      assert buf + [s] == [buf[0]] + (buf[1..] + [s]);
    }
  }

  /** The buffer after appending every sample of `ss`, oldest first. */
  function PushAll(buf: seq<Sample>, ss: seq<Sample>, cap: nat): (r: seq<Sample>)
    requires |buf| <= cap
    ensures |r| <= cap
  {
    if ss == [] then buf else Push(PushAll(buf, ss[..|ss| - 1], cap), ss[|ss| - 1], cap)
  }

  /** Trimming before an append and trimming after it keep the same entries. */
  lemma NewestAppend<T>(s: seq<T>, x: T, cap: nat)
    ensures Newest(Newest(s, cap) + [x], cap) == Newest(s + [x], cap)
  {
    var kept := Newest(s, cap);
    var r1, r2 := Newest(kept + [x], cap), Newest(s + [x], cap);
    assert |r1| == |r2|;
    forall i | 0 <= i < |r1| ensures r1[i] == r2[i] {
      if i < |r1| - 1 {
        assert r1[i] == (kept + [x])[|kept| + 1 - |r1| + i] == kept[|kept| + 1 - |r1| + i];
        assert r2[i] == (s + [x])[|s| + 1 - |r2| + i] == s[|s| + 1 - |r2| + i];
      }
    }
  }

  /** However many samples arrive, the buffer holds exactly the newest `cap` of everything received. */
  lemma {:induction false} PushAllKeepsNewest(buf: seq<Sample>, ss: seq<Sample>, cap: nat)
    requires |buf| <= cap
    ensures PushAll(buf, ss, cap) == Newest(buf + ss, cap)
    decreases |ss|
  {
    if ss == [] {
      assert buf + ss == buf;
    } else {
      var init, last := ss[..|ss| - 1], ss[|ss| - 1];
      assert ss == init + [last];
      assert buf + ss == (buf + init) + [last];
      PushAllKeepsNewest(buf, init, cap);
      PushIsNewest(PushAll(buf, init, cap), last, cap);
      NewestAppend(buf + init, last, cap);
    }
  }

  /**
   * The entries the newest-first scan visits: the longest run at the end of
   * `buf` whose receive times are not before `cutoff`.
   */
  function Window(buf: seq<Sample>, cutoff: int): seq<Sample>
  {
    if buf == [] || buf[|buf| - 1].recvAt < cutoff then []
    else Window(buf[..|buf| - 1], cutoff) + [buf[|buf| - 1]]
  }

  /**
   * The window is a suffix of the buffer, holds only entries received at or
   * after the cutoff, and is preceded (if by anything) by one received before it.
   */
  lemma {:induction false} WindowShape(buf: seq<Sample>, cutoff: int)
    ensures var w := Window(buf, cutoff);
            && |w| <= |buf| && w == buf[|buf| - |w|..]
            && (forall i :: 0 <= i < |w| ==> w[i].recvAt >= cutoff)
            && (|w| < |buf| ==> buf[|buf| - |w| - 1].recvAt < cutoff)
    decreases |buf|
  {
    if buf != [] && buf[|buf| - 1].recvAt >= cutoff {
      var init := buf[..|buf| - 1];
      WindowShape(init, cutoff);
      var w0 := Window(init, cutoff);
      assert init[|init| - |w0|..] + [buf[|buf| - 1]] == buf[|buf| - |w0| - 1..];
    }
  }

  /** Where a newest-first scan stops is where `Window` begins. */
  lemma WindowFrom(buf: seq<Sample>, cutoff: int, i: int)
    requires 0 <= i <= |buf|
    requires forall j :: i <= j < |buf| ==> buf[j].recvAt >= cutoff
    requires i > 0 ==> buf[i - 1].recvAt < cutoff
    ensures Window(buf, cutoff) == buf[i..]
  {
    WindowShape(buf, cutoff);
  }

  /** Every entry received at or after `cutoff`, wherever it sits in the buffer. */
  function Since(buf: seq<Sample>, cutoff: int): (w: seq<Sample>)
    ensures |w| <= |buf|
  {
    if buf == [] then []
    else Since(buf[..|buf| - 1], cutoff) + (if buf[|buf| - 1].recvAt >= cutoff then [buf[|buf| - 1]] else [])
  }

  ghost predicate Nondecreasing(buf: seq<Sample>)
  {
    forall i, j :: 0 <= i < j < |buf| ==> buf[i].recvAt <= buf[j].recvAt
  }

  lemma {:induction false} SinceNone(buf: seq<Sample>, cutoff: int)
    requires forall i :: 0 <= i < |buf| ==> buf[i].recvAt < cutoff
    ensures Since(buf, cutoff) == []
    decreases |buf|
  {
    if buf != [] {
      SinceNone(buf[..|buf| - 1], cutoff);
    }
  }

  /**
   * When receive times never go backwards, stopping at the first entry older
   * than the cutoff loses nothing: the scan sees exactly the entries inside
   * the window.
   */
  lemma {:induction false} WindowIsSince(buf: seq<Sample>, cutoff: int)
    requires Nondecreasing(buf)
    ensures Window(buf, cutoff) == Since(buf, cutoff)
    decreases |buf|
  {
    if buf != [] {
      var init := buf[..|buf| - 1];
      if buf[|buf| - 1].recvAt < cutoff {
        SinceNone(init, cutoff);
      } else {
        WindowIsSince(init, cutoff);
      }
    }
  }

  /** The sum of the present values of `q` over the window, taken entry by entry as the scan does. */
  function WindowSum(buf: seq<Sample>, cutoff: int, q: Quantity): real
  {
    if buf == [] || buf[|buf| - 1].recvAt < cutoff then 0.0
    else WindowSum(buf[..|buf| - 1], cutoff, q) + Sum(Present(Reading(buf[|buf| - 1], q)))
  }

  /** The number of present values of `q` in the window. */
  function WindowCount(buf: seq<Sample>, cutoff: int, q: Quantity): nat
  {
    if buf == [] || buf[|buf| - 1].recvAt < cutoff then 0
    else WindowCount(buf[..|buf| - 1], cutoff, q) + |Present(Reading(buf[|buf| - 1], q))|
  }

  /** The trailing-window average of `q`; absent when the window holds no value of `q`. */
  function WindowMean(buf: seq<Sample>, cutoff: int, q: Quantity): Option<real>
  {
    var n := WindowCount(buf, cutoff, q);
    if n == 0 then None else Some(WindowSum(buf, cutoff, q) / (n as real))
  }

  /** The window's values are those of the window without its newest entry, then that entry's. */
  lemma WindowValuesStep(buf: seq<Sample>, cutoff: int, q: Quantity)
    requires buf != [] && buf[|buf| - 1].recvAt >= cutoff
    ensures Values(Window(buf, cutoff), q)
            == Values(Window(buf[..|buf| - 1], cutoff), q) + Present(Reading(buf[|buf| - 1], q))
  {
    var w0 := Window(buf[..|buf| - 1], cutoff);
    var w := w0 + [buf[|buf| - 1]];
    assert w[..|w| - 1] == w0;
  }

  /** The running sum and count are those of the window's values. */
  lemma {:induction false} WindowTotals(buf: seq<Sample>, cutoff: int, q: Quantity)
    ensures WindowSum(buf, cutoff, q) == Sum(Values(Window(buf, cutoff), q))
    ensures WindowCount(buf, cutoff, q) == |Values(Window(buf, cutoff), q)|
    decreases |buf|
  {
    if buf != [] && buf[|buf| - 1].recvAt >= cutoff {
      var init, p := buf[..|buf| - 1], Present(Reading(buf[|buf| - 1], q));
      WindowTotals(init, cutoff, q);
      WindowValuesStep(buf, cutoff, q);
      SumConcat(Values(Window(init, cutoff), q), p);
      assert WindowSum(buf, cutoff, q) == WindowSum(init, cutoff, q) + Sum(p);
      assert WindowCount(buf, cutoff, q) == WindowCount(init, cutoff, q) + |p|;
    }
  }

  /** The trailing-window average is the mean of the values in the window. */
  lemma WindowMeanIsMean(buf: seq<Sample>, cutoff: int, q: Quantity)
    ensures WindowMean(buf, cutoff, q) == Mean(Values(Window(buf, cutoff), q))
  {
    WindowTotals(buf, cutoff, q);
  }

  /** A sample received no earlier than the newest buffered one keeps receive times in order. */
  lemma PushKeepsNondecreasing(buf: seq<Sample>, s: Sample, cap: nat)
    requires |buf| <= cap && Nondecreasing(buf)
    requires buf != [] ==> buf[|buf| - 1].recvAt <= s.recvAt
    ensures Nondecreasing(Push(buf, s, cap))
  {
    var r := Push(buf, s, cap);
    forall i, j | 0 <= i < j < |r|
      ensures r[i].recvAt <= r[j].recvAt
    {
      if |buf| == cap && cap > 0 {
        if j < |r| - 1 {
          assert r[i] == buf[i + 1] && r[j] == buf[j + 1];
        } else {
          assert r[i] == buf[i + 1];
        }
      }
    }
  }

  /**
   * With receive times in order, the trailing-window average is the mean of
   * every buffered value received at or after the cutoff, and absent
   * exactly when there is none.
   */
  lemma RecentAverage(buf: seq<Sample>, cutoff: int, q: Quantity)
    requires Nondecreasing(buf)
    ensures WindowMean(buf, cutoff, q) == Mean(Values(Since(buf, cutoff), q))
    ensures WindowMean(buf, cutoff, q).None? <==> Values(Since(buf, cutoff), q) == []
  {
    WindowIsSince(buf, cutoff);
    WindowMeanIsMean(buf, cutoff, q);
  }
}
