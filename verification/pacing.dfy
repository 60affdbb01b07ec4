/**
  Batching and pacing of the job runners, with the random sleeps replaced by events in
  a log. Rows are taken in windows of `k` consecutive rows; after every row that was
  looked up comes an item pause, and after every window except the last a batch pause.
  Both back ends follow this schedule; they differ only in which rows are looked up.
*/
module Pacing {

  /** A pause of the runner: after looked-up row `row`, or after window number `batch` (from 1). */
  datatype Pause = ItemPause(row: nat) | BatchPause(batch: nat)

  /** `(n - 1) / k + 1` windows for `n >= 1` rows, none for no rows. */
  function NumWindows(n: nat, k: nat): nat
    requires k > 0
  {
    if n == 0 then 0 else (n - 1) / k + 1
  }

  function Flatten<T>(w: seq<seq<T>>): seq<T> {
    if w == [] then [] else w[0] + Flatten(w[1..])
  }

  lemma MulMono(x: int, y: int, k: int)
    requires x <= y && k >= 0
    ensures x * k <= y * k
  {
    assert y * k - x * k == (y - x) * k;
  }

  /** Integer division is determined by the bracket `q * k <= a < q * k + k`. */
  lemma DivUnique(a: int, k: int, q: int)
    requires k > 0 && q * k <= a < q * k + k
    ensures a / k == q
  {
    var d := a / k;
    assert a == d * k + a % k;
    assert 0 <= a % k < k;
    if d < q {
      MulMono(d + 1, q, k);
    } else if d > q {
      MulMono(q + 1, d, k);
    }
  }

  lemma DivStep(a: nat, k: nat)
    requires k > 0
    ensures (a + k) / k == a / k + 1
  {
    var q := a / k;
    assert a == q * k + a % k;
    DivUnique(a + k, k, q + 1);
  }

  lemma DivSmall(a: nat, k: nat)
    requires a < k
    ensures a / k == 0
  {
  }

  /** One more full window of rows makes one more window. */
  lemma NumWindowsStep(n: nat, k: nat)
    requires k > 0 && n > k
    ensures NumWindows(n, k) == NumWindows(n - k, k) + 1
    ensures NumWindows(n - k, k) >= 1
  {
    DivStep(n - k - 1, k);
  }

  /** Up to `k` rows (and at least one) make exactly one window. */
  lemma NumWindowsOne(n: nat, k: nat)
    requires 0 < n <= k
    ensures NumWindows(n, k) == 1
  {
    DivSmall(n - 1, k);
  }

  /** The windows of a row sequence: slices of `k` consecutive rows, the last possibly shorter. */
  function Windows<T>(s: seq<T>, k: nat): seq<seq<T>>
    requires k > 0
    decreases |s|
  {
    if s == [] then []
    else if |s| <= k then [s]
    else [s[..k]] + Windows(s[k..], k)
  }

  /**
    The windows give back the rows in order, each holds 1 to `k` rows, all but the last
    hold exactly `k`, and there are `NumWindows` of them.
  */
  lemma {:induction false} WindowsShape<T>(s: seq<T>, k: nat)
    requires k > 0
    ensures Flatten(Windows(s, k)) == s
    ensures forall j :: 0 <= j < |Windows(s, k)| ==> 0 < |Windows(s, k)[j]| <= k
    ensures forall j :: 0 <= j < |Windows(s, k)| - 1 ==> |Windows(s, k)[j]| == k
    ensures |Windows(s, k)| == NumWindows(|s|, k)
    decreases |s|
  {
    if s == [] {
    } else if |s| <= k {
      NumWindowsOne(|s|, k);
    } else {
      NumWindowsStep(|s|, k);
      WindowsShape(s[k..], k);
      var w := Windows(s, k);
      var rest := Windows(s[k..], k);
      assert w == [s[..k]] + rest;
      assert w[1..] == rest;
      assert s == s[..k] + s[k..];
      forall j | 0 <= j < |w| ensures 0 < |w[j]| <= k {
        if j > 0 {
          assert w[j] == rest[j - 1];
        }
      }
      forall j | 0 <= j < |w| - 1 ensures |w[j]| == k {
        if j > 0 {
          assert w[j] == rest[j - 1];
        }
      }
    }
  }

  /** Twelve rows in windows of five: three windows of 5, 5 and 2 rows. */
  lemma TwelveRowsMakeThreeWindows<T>(s: seq<T>)
    requires |s| == 12
    ensures |Windows(s, 5)| == 3
    ensures Windows(s, 5) == [s[..5], s[5..10], s[10..]]
  {
    var w := Windows(s, 5);
    assert w == [s[..5]] + Windows(s[5..], 5);
    assert Windows(s[5..], 5) == [s[5..][..5]] + Windows(s[5..][5..], 5);
    assert s[5..][5..] == s[10..];
    assert Windows(s[10..], 5) == [s[10..]];
    assert s[5..][..5] == s[5..10];
  }

  /** The end of the window that starts at row `i`. */
  function WindowEnd(n: nat, k: nat, i: nat): nat {
    if i + k < n then i + k else n
  }

  /**
    The windows a runner visits from row `i` on: rows `i` up to `WindowEnd`, then the
    windows from row `i + k`, as the loops `for i := 0; i < n; i += k` of both runners
    step through the rows.
  */
  function RunWindows<T>(s: seq<T>, k: nat, i: nat): seq<seq<T>>
    requires k > 0
    decreases |s| - i
  {
    if i >= |s| then [] else [s[i .. WindowEnd(|s|, k, i)]] + RunWindows(s, k, i + k)
  }

  /** The windows a runner visits from row `i` on are the windows of the rows from `i` on. */
  lemma {:induction false} RunWindowsAreWindows<T>(s: seq<T>, k: nat, i: nat)
    requires k > 0 && i <= |s|
    ensures RunWindows(s, k, i) == Windows(s[i..], k)
    decreases |s| - i
  {
    if i < |s| {
      var t := s[i..];
      if |t| <= k {
        assert s[i .. WindowEnd(|s|, k, i)] == t;
        assert RunWindows(s, k, i) == [t] + RunWindows(s, k, i + k);
        assert Windows(t, k) == [t];
      } else {
        RunWindowsAreWindows(s, k, i + k);
        assert t[k..] == s[i + k..];
        assert t[..k] == s[i .. i + k];
        assert Windows(t, k) == [t[..k]] + Windows(t[k..], k);
      }
    }
  }

  /** The item pauses of rows `lo` up to `hi`: one after each looked-up row, in row order. */
  function ItemPauses(looked: seq<bool>, lo: nat, hi: nat): seq<Pause>
    requires lo <= hi <= |looked|
    decreases hi - lo
  {
    if hi == lo then []
    else ItemPauses(looked, lo, hi - 1) + (if looked[hi - 1] then [ItemPause(hi - 1)] else [])
  }

  /** The batch pause after the window that starts at row `i`: one, numbered `i / k + 1`, when rows remain. */
  function BatchAfter(n: nat, k: nat, i: nat): seq<Pause>
    requires k > 0
  {
    if i + k < n then [BatchPause(i / k + 1)] else []
  }

  /**
    The pause log of a run from the window starting at row `i` to the end: the item
    pauses of that window, a batch pause numbered `i / k + 1` when rows remain after it,
    and then the log of the next window.
  */
  function PauseLog(looked: seq<bool>, k: nat, i: nat): seq<Pause>
    requires k > 0
    decreases |looked| - i
  {
    if i >= |looked| then []
    else
      ItemPauses(looked, i, WindowEnd(|looked|, k, i))
      + BatchAfter(|looked|, k, i)
      + PauseLog(looked, k, i + k)
  }

  /** Number of batch pauses in a log. */
  function BatchPauses(log: seq<Pause>): nat {
    if log == [] then 0 else (if log[0].BatchPause? then 1 else 0) + BatchPauses(log[1..])
  }

  /** The rows of the item pauses of a log, in log order. */
  function ItemRows(log: seq<Pause>): seq<nat> {
    if log == [] then [] else (if log[0].ItemPause? then [log[0].row] else []) + ItemRows(log[1..])
  }

  /** The looked-up rows among `lo` up to `hi`, in increasing order. */
  function LookedRows(looked: seq<bool>, lo: nat, hi: nat): seq<nat>
    requires lo <= hi <= |looked|
    decreases hi - lo
  {
    if hi == lo then [] else LookedRows(looked, lo, hi - 1) + (if looked[hi - 1] then [hi - 1] else [])
  }

  /**
    `LookedRows` lists exactly the looked-up rows of its range: every listed row is
    looked up, every looked-up row is listed, and the list is strictly increasing.
  */
  lemma {:induction false} LookedRowsExact(looked: seq<bool>, lo: nat, hi: nat)
    requires lo <= hi <= |looked|
    ensures forall x :: x in LookedRows(looked, lo, hi) ==> lo <= x < hi && looked[x]
    ensures forall j :: lo <= j < hi && looked[j] ==> j in LookedRows(looked, lo, hi)
    ensures forall a, b :: 0 <= a < b < |LookedRows(looked, lo, hi)| ==>
              LookedRows(looked, lo, hi)[a] < LookedRows(looked, lo, hi)[b]
    decreases hi - lo
  {
    if hi > lo {
      LookedRowsExact(looked, lo, hi - 1);
      var prev := LookedRows(looked, lo, hi - 1);
      var tail: seq<nat> := if looked[hi - 1] then [hi - 1] else [];
      var r := prev + tail;
      assert LookedRows(looked, lo, hi) == r;
      forall x | x in r ensures lo <= x < hi && looked[x] {
        if x !in prev {
          assert x in tail;
        }
      }
      forall j | lo <= j < hi && looked[j] ensures j in r {
        if j == hi - 1 {
          assert r[|r| - 1] == j;
        } else {
          assert j in prev;
        }
      }
      forall a, b | 0 <= a < b < |r| ensures r[a] < r[b] {
        if b >= |prev| {
          assert r[a] == prev[a] && prev[a] in prev;
        }
      }
    }
  }

  lemma {:induction false} BatchPausesAppend(a: seq<Pause>, b: seq<Pause>)
    ensures BatchPauses(a + b) == BatchPauses(a) + BatchPauses(b)
  {
    if a == [] {
      assert a + b == b;
    } else {
      assert (a + b)[0] == a[0];
      assert (a + b)[1..] == a[1..] + b;
      BatchPausesAppend(a[1..], b);
    }
  }

  lemma {:induction false} ItemRowsAppend(a: seq<Pause>, b: seq<Pause>)
    ensures ItemRows(a + b) == ItemRows(a) + ItemRows(b)
  {
    if a == [] {
      assert a + b == b;
    } else {
      assert (a + b)[0] == a[0];
      assert (a + b)[1..] == a[1..] + b;
      ItemRowsAppend(a[1..], b);
    }
  }

  /** A window's item pauses hold no batch pause and name exactly its looked-up rows. */
  lemma {:induction false} ItemPausesContent(looked: seq<bool>, lo: nat, hi: nat)
    requires lo <= hi <= |looked|
    ensures BatchPauses(ItemPauses(looked, lo, hi)) == 0
    ensures ItemRows(ItemPauses(looked, lo, hi)) == LookedRows(looked, lo, hi)
    decreases hi - lo
  {
    if hi > lo {
      ItemPausesContent(looked, lo, hi - 1);
      var prev := ItemPauses(looked, lo, hi - 1);
      var tail: seq<Pause> := if looked[hi - 1] then [ItemPause(hi - 1)] else [];
      assert ItemPauses(looked, lo, hi) == prev + tail;
      BatchPausesAppend(prev, tail);
      ItemRowsAppend(prev, tail);
      assert BatchPauses(tail) == 0;
      assert ItemRows(tail) == if looked[hi - 1] then [hi - 1] else [];
    }
  }

  lemma {:induction false} LookedRowsSplit(looked: seq<bool>, lo: nat, mid: nat, hi: nat)
    requires lo <= mid <= hi <= |looked|
    ensures LookedRows(looked, lo, hi) == LookedRows(looked, lo, mid) + LookedRows(looked, mid, hi)
    decreases hi - mid
  {
    if hi > mid {
      LookedRowsSplit(looked, lo, mid, hi - 1);
    }
  }

  /** The first window's item pauses, its batch pause if rows remain, then the rest. */
  lemma PauseLogUnfold(looked: seq<bool>, k: nat, i: nat)
    requires k > 0 && i < |looked|
    ensures PauseLog(looked, k, i)
            == ItemPauses(looked, i, WindowEnd(|looked|, k, i))
               + BatchAfter(|looked|, k, i)
               + PauseLog(looked, k, i + k)
  {
  }

  /**
    The runner's loop step: when `done` is the log of the windows before row `i`,
    appending this window's item pauses and its batch pause leaves the log of the
    windows from `i + k` on still to come.
  */
  lemma PauseLogAdvance(looked: seq<bool>, k: nat, i: nat, done: seq<Pause>, items: seq<Pause>, batch: seq<Pause>)
    requires k > 0 && i < |looked|
    requires done + PauseLog(looked, k, i) == PauseLog(looked, k, 0)
    requires items == ItemPauses(looked, i, WindowEnd(|looked|, k, i))
    requires batch == BatchAfter(|looked|, k, i)
    ensures done + items + batch + PauseLog(looked, k, i + k) == PauseLog(looked, k, 0)
  {
    PauseLogUnfold(looked, k, i);
    var rest := PauseLog(looked, k, i + k);
    assert done + (items + batch + rest) == done + items + batch + rest;
  }

  /** A window adds one batch pause to the log after it exactly when rows remain. */
  lemma PauseLogBatchStep(looked: seq<bool>, k: nat, i: nat)
    requires k > 0 && i < |looked|
    ensures BatchPauses(PauseLog(looked, k, i))
            == BatchPauses(PauseLog(looked, k, i + k)) + (if i + k < |looked| then 1 else 0)
  {
    var e := WindowEnd(|looked|, k, i);
    var items := ItemPauses(looked, i, e);
    var batch := BatchAfter(|looked|, k, i);
    var rest := PauseLog(looked, k, i + k);
    PauseLogUnfold(looked, k, i);
    ItemPausesContent(looked, i, e);
    BatchPausesAppend(items + batch, rest);
    BatchPausesAppend(items, batch);
  }

  /** From the window starting at row `i`: one batch pause fewer than there are windows left. */
  lemma {:induction false} PauseLogBatches(looked: seq<bool>, k: nat, i: nat)
    requires k > 0 && i <= |looked|
    ensures BatchPauses(PauseLog(looked, k, i)) == if i == |looked| then 0 else NumWindows(|looked| - i, k) - 1
    decreases |looked| - i
  {
    var n := |looked|;
    if i < n {
      PauseLogBatchStep(looked, k, i);
      if i + k < n {
        PauseLogBatches(looked, k, i + k);
        NumWindowsStep(n - i, k);
      } else {
        NumWindowsOne(n - i, k);
      }
    }
  }

  /** From the window starting at row `i`: an item pause for exactly the looked-up rows from `i` on, in row order. */
  lemma {:induction false} PauseLogItems(looked: seq<bool>, k: nat, i: nat)
    requires k > 0 && i <= |looked|
    ensures ItemRows(PauseLog(looked, k, i)) == LookedRows(looked, i, |looked|)
    decreases |looked| - i
  {
    var n := |looked|;
    if i < n {
      var e := WindowEnd(n, k, i);
      var items := ItemPauses(looked, i, e);
      var batch := BatchAfter(n, k, i);
      var rest := PauseLog(looked, k, i + k);
      PauseLogUnfold(looked, k, i);
      ItemPausesContent(looked, i, e);
      ItemRowsAppend(items + batch, rest);
      ItemRowsAppend(items, batch);
      assert ItemRows(batch) == [];
      if i + k < n {
        PauseLogItems(looked, k, i + k);
        LookedRowsSplit(looked, i, i + k, n);
      } else {
        assert rest == [];
        assert e == n;
      }
    }
  }

  /**
    A whole run: `NumWindows - 1` batch pauses (none for an empty table), and an item
    pause after every looked-up row and no other, in row order.
  */
  lemma PauseLogSummary(looked: seq<bool>, k: nat)
    requires k > 0
    ensures BatchPauses(PauseLog(looked, k, 0)) == if looked == [] then 0 else NumWindows(|looked|, k) - 1
    ensures ItemRows(PauseLog(looked, k, 0)) == LookedRows(looked, 0, |looked|)
  {
    PauseLogBatches(looked, k, 0);
    PauseLogItems(looked, k, 0);
  }

  /** Twelve rows in windows of five: two batch pauses. */
  lemma TwelveRowsTwoBatchPauses(looked: seq<bool>)
    requires |looked| == 12
    ensures BatchPauses(PauseLog(looked, 5, 0)) == 2
  {
    PauseLogSummary(looked, 5);
    assert NumWindows(12, 5) == 3;
  }
}
