/** The held-turns rule of `ui/hooks/use-stream-chat.ts`: the `turns` channel drops out of the stream
    during a run, and the rows seen last must outlive the gap. */
module HeldTurns {
  import opened Text
  import Json

  type Rows = seq<Json.Value>

  datatype Held = Held(thread: Option<string>, rows: Rows)

  /** One render: the thread on screen and what the stream carries of its channel. */
  datatype Reading = Reading(thread: Option<string>, live: Rows)

  function HeldRows(held: Held, r: Reading): Rows {
    if held.thread == r.thread then held.rows else []
  }

  function Next(held: Held, r: Reading): Held {
    if held.thread != r.thread || |r.live| > |HeldRows(held, r)| then Held(r.thread, r.live) else held
  }

  /** The rows the transcript is built from. */
  function Used(held: Held, r: Reading): Rows {
    if |r.live| >= |HeldRows(held, r)| then r.live else HeldRows(held, r)
  }

  /** The state cell after the first `n` renders; it starts from the first reading. */
  function HeldAfter(seen: seq<Reading>, n: nat): Held
    requires n <= |seen| && seen != []
  {
    if n == 0 then Held(seen[0].thread, seen[0].live) else Next(HeldAfter(seen, n - 1), seen[n - 1])
  }

  /** Renders `a` up to `b` all show one thread, and the render before them another. */
  ghost predicate Stretch(seen: seq<Reading>, a: nat, b: nat) {
    && a < b <= |seen|
    && (forall i :: a <= i < b ==> seen[i].thread == seen[a].thread)
    && (a > 0 ==> seen[a - 1].thread != seen[a].thread)
  }

  /** The channel of a thread is append-only: of two readings one extends the other. */
  ghost predicate AppendOnly(seen: seq<Reading>) {
    forall i, j :: 0 <= i < |seen| && 0 <= j < |seen| && seen[i].thread == seen[j].thread
      ==> seen[i].live <= seen[j].live || seen[j].live <= seen[i].live
  }

  ghost predicate LongestOf(seen: seq<Reading>, a: nat, b: nat, rows: Rows)
    requires a <= b <= |seen|
  {
    && (exists i :: a <= i < b && seen[i].live == rows)
    && (forall i :: a <= i < b ==> seen[i].live <= rows)
  }

  lemma {:induction false} HeldIsThread(seen: seq<Reading>, n: nat)
    requires 0 < n <= |seen|
    ensures HeldAfter(seen, n).thread == seen[n - 1].thread
  {
    if n > 1 {
      HeldIsThread(seen, n - 1);
    }
  }

  /** While a thread stays open the cell holds the longest reading seen of it. */
  lemma {:induction false} HeldIsLongest(seen: seq<Reading>, a: nat, b: nat) returns (i: nat)
    requires Stretch(seen, a, b) && AppendOnly(seen)
    ensures a <= i < b && seen[i].live == HeldAfter(seen, b).rows
    ensures forall j :: a <= j < b ==> seen[j].live <= HeldAfter(seen, b).rows
    decreases b
  {
    var n := b - 1;
    i := n;
    if n > 0 {
      HeldIsThread(seen, n);
    }
    if n > a {
      var k := HeldIsLongest(seen, a, n);
      assert seen[k].thread == seen[n].thread;
      if |seen[n].live| <= |seen[k].live| {
        i := k;
      }
    }
  }

  /** The rows in use are the rows the cell is about to hold. */
  lemma UsedIsHeld(seen: seq<Reading>, a: nat, b: nat)
    requires Stretch(seen, a, b) && AppendOnly(seen)
    ensures Used(HeldAfter(seen, b - 1), seen[b - 1]) == HeldAfter(seen, b).rows
  {
    var n := b - 1;
    if n > 0 {
      HeldIsThread(seen, n);
    }
    if n > a {
      var k := HeldIsLongest(seen, a, n);
      assert seen[k].thread == seen[n].thread;
    }
  }

  /** Every render uses the longest reading its thread has had since it was opened: rows never shrink
      while it stays open, and never come from another thread. */
  lemma UsedIsLongest(seen: seq<Reading>, a: nat, b: nat)
    requires Stretch(seen, a, b) && AppendOnly(seen)
    ensures LongestOf(seen, a, b, Used(HeldAfter(seen, b - 1), seen[b - 1]))
  {
    hide Used, HeldAfter, Stretch, AppendOnly;
    var i := HeldIsLongest(seen, a, b);
    UsedIsHeld(seen, a, b);
  }
}
