/** When the window is told its drag ended: after its drops, or before one of them. */
module DragEnds {

  // What changes it: a drop to be received, a drop finished at once, a receipt that ends, and JavaScript run.
  datatype Happening = Received | AtOnce | Closed | Ran

  /** Where the window's drag is, as far as its drops go: none told of, one on its way, or one to tell the end of. */
  datatype Phase = Quiet | Dropped | Delivered

  predicate Dropping(e: Happening) { e.Received? || e.AtOnce? }

  function Next(p: Phase, e: Happening): Phase {
    match e
    case Received => Dropped
    case AtOnce => Delivered
    case Closed => if p == Dropped then Delivered else p
    case Ran => if p == Delivered then Quiet else p
  }

  /** Where it is after the first `n` of them. */
  function PhaseAt(h: seq<Happening>, n: nat): Phase
    requires n <= |h|
  {
    if n == 0 then Quiet else Next(PhaseAt(h, n - 1), h[n - 1])
  }

  /** How many drops are being received then. */
  function PendingAt(h: seq<Happening>, n: nat): int
    requires n <= |h|
  {
    if n == 0 then 0
    else PendingAt(h, n - 1) + if h[n - 1].Received? then 1 else if h[n - 1].Closed? then -1 else 0
  }

  /** JavaScript has run and the window is told its drag ended, with a drop of it still being received. */
  predicate EndsEarly(h: seq<Happening>, k: nat)
    requires k < |h|
  {
    h[k] == Ran && PhaseAt(h, k) == Delivered && PendingAt(h, k) > 0
  }

  lemma {:induction false} AfterMore(h: seq<Happening>, e: Happening, n: nat)
    requires n <= |h|
    ensures PhaseAt(h + [e], n) == PhaseAt(h, n) && PendingAt(h + [e], n) == PendingAt(h, n)
  {
    if n > 0 { AfterMore(h, e, n - 1); }
  }

  // Which interleavings of drops, receipts' ends and JavaScript's runs come to that.

  /** A drop to be received at `j`, and since then no other drop, and none received. */
  predicate Waits(h: seq<Happening>, j: nat, n: nat)
    requires n <= |h|
  {
    j < n && h[j].Received? && forall l :: j < l < n ==> !Dropping(h[l]) && !h[l].Closed?
  }

  /** The last drop's end comes at `e`: finished at once, or the first receipt to end after it, whichever that is of. */
  ghost predicate Settles(h: seq<Happening>, e: nat)
    requires e < |h|
  {
    h[e].AtOnce? || (h[e].Closed? && exists j :: Waits(h, j, e))
  }

  /** And the window is still to be told. */
  ghost predicate Settled(h: seq<Happening>, e: nat, n: nat)
    requires n <= |h|
  {
    e < n && Settles(h, e) && forall l :: e < l < n ==> !Dropping(h[l]) && h[l] != Ran
  }

  lemma {:induction false} DroppedExactly(h: seq<Happening>, n: nat)
    requires n <= |h|
    ensures PhaseAt(h, n) == Dropped <==> exists j :: Waits(h, j, n)
  {
    if n > 0 {
      var before: nat := n - 1;
      DroppedExactly(h, before);
      var e := h[before];
      forall j: nat | Waits(h, j, before) && !Dropping(e) && !e.Closed? ensures Waits(h, j, n) {
      }
      forall j: nat | Waits(h, j, n) && j < before ensures Waits(h, j, before) {
      }
      if e.Received? { assert Waits(h, before, n); }
    }
  }

  lemma {:induction false} DeliveredExactly(h: seq<Happening>, n: nat)
    requires n <= |h|
    ensures PhaseAt(h, n) == Delivered <==> exists e :: Settled(h, e, n)
  {
    if n > 0 {
      var before: nat := n - 1;
      DroppedExactly(h, before);
      DeliveredExactly(h, before);
      var last := h[before];
      forall e: nat | Settled(h, e, before) && !Dropping(last) && last != Ran ensures Settled(h, e, n) {
      }
      forall e: nat | Settled(h, e, n) && e < before ensures Settled(h, e, before) {
      }
      if Settles(h, before) { assert Settled(h, before, n); }
    }
  }

  /**
   The end is told early exactly when JavaScript runs after the last drop's, before any other, with one being received.
   */
  lemma {:induction false} EndsEarlyExactly(h: seq<Happening>, k: nat)
    requires k < |h|
    ensures EndsEarly(h, k) <==> h[k] == Ran && PendingAt(h, k) > 0 && exists e :: Settled(h, e, k)
  {
    DeliveredExactly(h, k);
  }

  /** Every drop comes with nothing being received. */
  predicate OneAtATime(h: seq<Happening>) { forall k :: 0 <= k < |h| && Dropping(h[k]) ==> PendingAt(h, k) <= 0 }

  lemma {:induction false} OnePending(h: seq<Happening>, n: nat)
    requires OneAtATime(h) && n <= |h|
    ensures PendingAt(h, n) <= if PhaseAt(h, n) == Dropped then 1 else 0
  {
    if n > 0 {
      OnePending(h, n - 1);
      if Dropping(h[n - 1]) { assert PendingAt(h, n - 1) <= 0; }
    }
  }

  /** With one drop at a time, the window's end waits for its drop in every run. */
  lemma EndWaits(h: seq<Happening>, k: nat)
    requires OneAtATime(h) && k < |h|
    ensures !EndsEarly(h, k)
  {
    OnePending(h, k);
  }

  /** And with a drop while another is received it need not: one of them ends, JavaScript runs, and the end is early. */
  lemma SecondDropEndsEarly(h: seq<Happening>, drop: Happening) returns (more: seq<Happening>)
    requires PendingAt(h, |h|) > 0 && Dropping(drop)
    ensures forall e :: e in more ==> e == Closed || e == Ran
    ensures more != [] && EndsEarly(h + [drop] + more, |h + [drop] + more| - 1)
  {
    AfterMore(h, drop, |h|);
    var g := h + [drop];
    if drop.AtOnce? {
      more := [Ran];
      AfterMore(g, Ran, |g|);
      assert g + more == g + [Ran];
    } else {
      more := [Closed, Ran];
      AfterMore(g, Closed, |g|);
      AfterMore(g + [Closed], Ran, |g| + 1);
      assert g + more == g + [Closed] + [Ran];
    }
  }
}
