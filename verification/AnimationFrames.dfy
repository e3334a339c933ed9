/** requestAnimationFrame: each callback run at most once, in the order asked, in a frame after the one that asked. */
module AnimationFrames {
  import opened Optional

  type Handle = int

  /** A callback's task on JavaScript's queue, and the frame it is of. */
  datatype Task = Task(handle: Handle, frame: nat)

  predicate Ascending(tasks: seq<Task>) { forall i, j :: 0 <= i < j < |tasks| ==> tasks[i].handle < tasks[j].handle }

  function HandlesOf(tasks: seq<Task>): set<Handle> { set i | 0 <= i < |tasks| :: tasks[i].handle }

  /** Where a handle is: in one place, in none, or in more than one. */
  datatype Where = Nowhere | Waiting | Running | Ran | Cancelled | Torn

  function WhereIs(h: Handle, waiting: set<Handle>, running: set<Handle>, ran: set<Handle>,
      cancelled: set<Handle>): Where {
    if h in waiting then if h in running || h in ran || h in cancelled then Torn else Waiting
    else if h in running then if h in ran || h in cancelled then Torn else Running
    else if h in ran then if h in cancelled then Torn else Ran
    else if h in cancelled then Cancelled
    else Nowhere
  }

  /** A handle given out is waiting for a frame, in one, run or cancelled, and only one of these; no other is any. */
  ghost predicate OnePlace(waiting: set<Handle>, running: set<Handle>, ran: set<Handle>, cancelled: set<Handle>,
      next: nat) {
    forall h ::
      if 0 < h < next then WhereIs(h, waiting, running, ran, cancelled) !in {Nowhere, Torn}
      else WhereIs(h, waiting, running, ran, cancelled) == Nowhere
  }

  lemma PlaceOf(w: set<Handle>, r: set<Handle>, n: set<Handle>, c: set<Handle>, next: nat, h: Handle)
    requires OnePlace(w, r, n, c, next)
    ensures var place := WhereIs(h, w, r, n, c);
            if 0 < h < next then place !in {Nowhere, Torn} else place == Nowhere
  {
  }

  lemma PlaceRequested(w: set<Handle>, r: set<Handle>, n: set<Handle>, c: set<Handle>, next: nat)
    requires OnePlace(w, r, n, c, next) && next > 0
    ensures OnePlace(w + {next}, r, n, c, next + 1) && next !in w + r + n + c
  {
    forall h
      ensures var place := WhereIs(h, w + {next}, r, n, c);
              if 0 < h < next + 1 then place !in {Nowhere, Torn} else place == Nowhere
    {
      PlaceOf(w, r, n, c, next, h);
    }
    PlaceOf(w, r, n, c, next, next);
  }

  lemma PlaceCancelled(w: set<Handle>, r: set<Handle>, n: set<Handle>, c: set<Handle>, next: nat, gone: set<Handle>)
    requires OnePlace(w, r, n, c, next)
    ensures OnePlace(w - gone, r - gone, n, c + gone * (w + r), next)
  {
    forall h
      ensures var place := WhereIs(h, w - gone, r - gone, n, c + gone * (w + r));
              if 0 < h < next then place !in {Nowhere, Torn} else place == Nowhere
    {
      PlaceOf(w, r, n, c, next, h);
    }
  }

  lemma PlaceTicked(w: set<Handle>, r: set<Handle>, n: set<Handle>, c: set<Handle>, next: nat)
    requires OnePlace(w, r, n, c, next)
    ensures OnePlace({}, r + w, n, c, next) && forall h :: h in w ==> 0 < h < next
  {
    forall h
      ensures h in w ==> 0 < h < next
      ensures var place := WhereIs(h, {}, r + w, n, c);
              if 0 < h < next then place !in {Nowhere, Torn} else place == Nowhere
    {
      PlaceOf(w, r, n, c, next, h);
    }
  }

  lemma PlaceRun(w: set<Handle>, r: set<Handle>, n: set<Handle>, c: set<Handle>, next: nat, handle: Handle)
    requires OnePlace(w, r, n, c, next) && handle in r
    ensures OnePlace(w, r - {handle}, n + {handle}, c, next)
  {
    forall h
      ensures var place := WhereIs(h, w, r - {handle}, n + {handle}, c);
              if 0 < h < next then place !in {Nowhere, Torn} else place == Nowhere
    {
      PlaceOf(w, r, n, c, next, h);
    }
  }

  /** What was asked later is run later: those run, then those with a task, then those waiting. */
  ghost predicate InOrder(ran: seq<Task>, tasks: seq<Task>, waiting: set<Handle>, next: nat) {
    Ascending(ran + tasks) && (forall t, h :: t in ran + tasks && h in waiting ==> t.handle < h) &&
    (forall t :: t in ran + tasks ==> 0 < t.handle < next)
  }

  /** A task is of a frame after its callback was asked for. */
  ghost predicate Later(tasks: seq<Task>, asked: map<Handle, nat>, frames: nat) {
    forall t :: t in tasks ==> t.handle in asked && asked[t.handle] < t.frame <= frames
  }

  /** Frames are a period apart, or more. */
  predicate Spaced(times: seq<int>, period: int) { forall i :: 0 < i < |times| ==> times[i] - times[i - 1] >= period }

  class AnimationFrames {
    const period: int
    var next: nat
    var waiting: set<Handle>
    var running: set<Handle>
    var last: Option<int>
    /** JavaScript's queue, as the executor runs it. */
    var tasks: seq<Task>
    /** When each frame began. */
    var times: seq<int>
    /** The callbacks run, the handles cancelled, and how many frames there had been when each handle was given. */
    ghost var ran: seq<Task>
    ghost var cancelled: set<Handle>
    ghost var asked: map<Handle, nat>

    ghost predicate Valid()
      reads this
    {
      OnePlace(waiting, running, HandlesOf(ran), cancelled, next) && InOrder(ran, tasks, waiting, next) &&
      Later(ran + tasks, asked, |times|) && Spaced(times, period) && running <= HandlesOf(tasks) &&
      next > 0 && (forall h :: h in asked <==> 0 < h < next) && (forall h :: h in asked ==> asked[h] <= |times|) &&
      (last.None? <==> times == []) && (last.Some? ==> last.value == times[|times| - 1])
    }

    constructor (refresh: int)
      ensures Valid() && period == refresh && next == 1 && tasks == [] && ran == [] && times == []
    {
      period, next, waiting, running, last, tasks := refresh, 1, {}, {}, None, [];
      ran, cancelled, times, asked := [], {}, [], map[];
    }

    /** requestAnimationFrame */
    method Request() returns (handle: Handle)
      requires Valid()
      modifies this`next, this`waiting, this`asked
      ensures Valid() && handle == old(next) && next == old(next) + 1 && waiting == old(waiting) + {handle}
      ensures handle !in old(waiting) + running + HandlesOf(ran) + cancelled && asked == old(asked)[handle := |times|]
    {
      PlaceRequested(waiting, running, HandlesOf(ran), cancelled, next);
      hide OnePlace;
      handle := next;
      next := next + 1;
      waiting := waiting + {handle};
      asked := asked[handle := |times|];
    }

    /** cancelAnimationFrame: a callback not run yet never is; one run, or never asked for, is left as it is. */
    method Cancel(handle: Handle)
      requires Valid()
      modifies this`waiting, this`running, this`cancelled
      ensures Valid() && waiting == old(waiting) - {handle} && running == old(running) - {handle}
      ensures cancelled == old(cancelled) + (if handle in old(waiting) + old(running) then {handle} else {})
    {
      PlaceCancelled(waiting, running, HandlesOf(ran), cancelled, next, {handle});
      hide OnePlace;
      assert cancelled + {handle} * (waiting + running) ==
        if handle in waiting + running then cancelled + {handle} else cancelled;
      if handle in waiting + running { cancelled := cancelled + {handle}; }
      waiting := waiting - {handle};
      running := running - {handle};
    }

    /** tick: a frame, once one is due and something waits for it, with a task for each callback. */
    method Tick(ready: bool, now: int) returns (began: bool)
      requires Valid()
      modifies this`waiting, this`running, this`last, this`tasks, this`times
      ensures Valid()
      ensures began <==> old(waiting) != {} && ready && (old(last).None? || now - old(last).value >= period)
      ensures !began ==>
        waiting == old(waiting) && running == old(running) && tasks == old(tasks) && times == old(times) &&
        last == old(last)
      ensures began ==>
        waiting == {} && running == old(running) + old(waiting) && times == old(times) + [now] && last == Some(now) &&
        old(tasks) <= tasks && HandlesOf(tasks[|old(tasks)|..]) == old(waiting) &&
        forall t :: t in tasks[|old(tasks)|..] ==> t.frame == |times|
    {
      hide OnePlace, InOrder, Later, Spaced, HandlesOf, Ascending;
      if waiting == {} || !ready || (last.Some? && now - last.value < period) { return false; }
      PlaceTicked(waiting, running, HandlesOf(ran), cancelled, next);
      SpacedMore(times, now, period);
      last := Some(now);
      times := times + [now];
      var added := TasksFor(waiting, next, |times|);
      TickKeeps(ran, tasks, added, asked, waiting, next, |times|);
      HandlesJoin(tasks, added);
      tasks, running := tasks + added, running + waiting;
      waiting := {};
      return true;
    }

    /** The first task on the queue: its callback is called, unless it was cancelled since its frame began. */
    method RunTask() returns (called: Option<Handle>)
      requires Valid() && tasks != []
      modifies this`running, this`tasks, this`ran
      ensures Valid() && tasks == old(tasks)[1..]
      ensures var t := old(tasks)[0];
              if t.handle in old(running)
              then called == Some(t.handle) && running == old(running) - {t.handle} && ran == old(ran) + [t]
              else called == None && running == old(running) && ran == old(ran) && (t.handle in cancelled)
    {
      var t := tasks[0];
      hide OnePlace, InOrder, Later, HandlesOf, Spaced;
      HandlesFirst(tasks);
      HandlesOne(t);
      TaskPlace(ran, tasks, running, waiting, cancelled, next);
      if t.handle in running {
        CallTask(ran, tasks, waiting, next, asked, |times|);
        HandlesJoin(ran, [t]);
        PlaceRun(waiting, running, HandlesOf(ran), cancelled, next, t.handle);
        running, ran, tasks := running - {t.handle}, ran + [t], tasks[1..];
        return Some(t.handle);
      }
      SkipTask(ran, tasks, waiting, next, asked, |times|);
      tasks := tasks[1..];
      return None;
    }

    /** The host goes: nothing waits any more, and tasks still queued call nothing. */
    method Close()
      requires Valid()
      modifies this`waiting, this`running, this`cancelled
      ensures Valid() && waiting == {} && running == {} && cancelled == old(cancelled) + old(waiting) + old(running)
    {
      PlaceCancelled(waiting, running, HandlesOf(ran), cancelled, next, waiting + running);
      hide OnePlace;
      assert (waiting + running) * (waiting + running) == waiting + running && waiting - (waiting + running) == {} &&
        running - (waiting + running) == {};
      assert cancelled + (waiting + running) == cancelled + waiting + running;
      cancelled := cancelled + waiting + running;
      waiting, running := {}, {};
    }

    /** Callbacks were run once each, in the order they were asked for, and each in a frame after the one that asked. */
    lemma RanInOrder(i: nat, j: nat)
      requires Valid() && i < j < |ran|
      ensures ran[i].handle < ran[j].handle && ran[i].handle !in cancelled + waiting + running
      ensures asked[ran[i].handle] < ran[i].frame <= |times|
    {
      PlaceOf(waiting, running, HandlesOf(ran), cancelled, next, ran[i].handle);
      assert (ran + tasks)[i] == ran[i] && (ran + tasks)[j] == ran[j];
      assert ran[i] in ran + tasks && ran[i].handle in HandlesOf(ran);
    }
  }

  lemma SpacedMore(times: seq<int>, now: int, period: int)
    requires Spaced(times, period) && (times != [] ==> now - times[|times| - 1] >= period)
    ensures Spaced(times + [now], period)
  {
  }

  lemma HandlesJoin(a: seq<Task>, b: seq<Task>)
    ensures HandlesOf(a + b) == HandlesOf(a) + HandlesOf(b)
  {
    forall h ensures h in HandlesOf(a + b) <==> h in HandlesOf(a) + HandlesOf(b) {
      if h in HandlesOf(a) {
        var i :| 0 <= i < |a| && a[i].handle == h;
        assert (a + b)[i].handle == h;
      }
      if h in HandlesOf(b) {
        var i :| 0 <= i < |b| && b[i].handle == h;
        assert (a + b)[|a| + i].handle == h;
      }
    }
  }

  lemma HandlesOne(t: Task)
    ensures HandlesOf([t]) == {t.handle}
  {
    assert [t][0] == t;
  }

  lemma HandlesFirst(tasks: seq<Task>)
    requires tasks != []
    ensures HandlesOf(tasks) == {tasks[0].handle} + HandlesOf(tasks[1..])
  {
    assert tasks == [tasks[0]] + tasks[1..];
    HandlesJoin([tasks[0]], tasks[1..]);
    HandlesOne(tasks[0]);
  }

  /** A task for each callback that waits, in the order of their handles. */
  method TasksFor(waiting: set<Handle>, next: nat, frame: nat) returns (added: seq<Task>)
    requires forall h :: h in waiting ==> 0 < h < next
    ensures Ascending(added) && HandlesOf(added) == waiting && forall t :: t in added ==> t.frame == frame
  {
    added := [];
    for h := 0 to next
      invariant Ascending(added) && forall i :: 0 <= i < |added| ==> added[i].handle < h && added[i].frame == frame
      invariant HandlesOf(added) == set w | w in waiting && w < h
    {
      if h in waiting {
        HandlesJoin(added, [Task(h, frame)]);
        assert [Task(h, frame)][0].handle == h;
        added := added + [Task(h, frame)];
      }
    }
    assert waiting == set w | w in waiting && w < next;
  }

  lemma TickKeeps(ran: seq<Task>, tasks: seq<Task>, added: seq<Task>, asked: map<Handle, nat>, waiting: set<Handle>,
      next: nat, frames: nat)
    requires InOrder(ran, tasks, waiting, next) && Ascending(added) && HandlesOf(added) == waiting
    requires forall h :: h in waiting ==> 0 < h < next
    requires frames > 0 && Later(ran + tasks, asked, frames - 1) &&
      forall h :: 0 < h < next ==> h in asked && asked[h] <= frames - 1
    requires forall t :: t in added ==> t.frame == frames
    ensures InOrder(ran, tasks + added, {}, next) && Later(ran + (tasks + added), asked, frames)
    ensures (tasks + added)[|tasks|..] == added
  {
    TasksFollow(ran, tasks, added, waiting, next);
    TasksLater(ran + tasks, added, asked, waiting, frames);
    assert ran + (tasks + added) == ran + tasks + added;
  }

  lemma TasksFollow(ran: seq<Task>, tasks: seq<Task>, added: seq<Task>, waiting: set<Handle>, next: nat)
    requires InOrder(ran, tasks, waiting, next) && Ascending(added) && HandlesOf(added) == waiting
    requires forall h :: h in waiting ==> 0 < h < next
    ensures InOrder(ran, tasks + added, {}, next)
  {
    var all := ran + (tasks + added);
    assert all == ran + tasks + added;
    forall i, j | 0 <= i < j < |all| ensures all[i].handle < all[j].handle {
      var n := |ran + tasks|;
      if j >= n {
        assert all[j] == added[j - n] && added[j - n].handle in HandlesOf(added);
        if i < n { assert (ran + tasks)[i] in ran + tasks; }
      } else {
        assert all[i] == (ran + tasks)[i] && all[j] == (ran + tasks)[j];
      }
    }
    forall t | t in all ensures 0 < t.handle < next {
      if t in added {
        var i :| 0 <= i < |added| && added[i] == t;
        assert t.handle in HandlesOf(added);
      } else {
        assert t in ran + tasks;
      }
    }
  }

  lemma TasksLater(before: seq<Task>, added: seq<Task>, asked: map<Handle, nat>, waiting: set<Handle>, frames: nat)
    requires frames > 0 && Later(before, asked, frames - 1) && HandlesOf(added) == waiting
    requires forall h :: h in waiting ==> h in asked && asked[h] < frames
    requires forall t :: t in added ==> t.frame == frames
    ensures Later(before + added, asked, frames)
  {
    forall t | t in before + added ensures t.handle in asked && asked[t.handle] < t.frame <= frames {
      if t in added {
        var i :| 0 <= i < |added| && added[i] == t;
        assert t.handle in HandlesOf(added);
      }
    }
  }

  /** The first task's callback is in its frame, or was cancelled. */
  lemma TaskPlace(ran: seq<Task>, tasks: seq<Task>, running: set<Handle>, waiting: set<Handle>, cancelled: set<Handle>,
      next: nat)
    requires OnePlace(waiting, running, HandlesOf(ran), cancelled, next) && InOrder(ran, tasks, waiting, next) &&
      tasks != []
    ensures tasks[0].handle in running + cancelled
    ensures tasks[0].handle !in HandlesOf(tasks[1..])
  {
    var h, all, n := tasks[0].handle, ran + tasks, |ran|;
    assert all[n] == tasks[0] && all[n] in all;
    PlaceOf(waiting, running, HandlesOf(ran), cancelled, next, h);
    forall i | 0 <= i < |ran| ensures ran[i].handle != h {
      assert all[i] == ran[i];
    }
    forall i | 0 <= i < |tasks[1..]| ensures tasks[1..][i].handle != h {
      assert all[n + 1 + i] == tasks[1..][i];
    }
  }

  lemma CallTask(ran: seq<Task>, tasks: seq<Task>, waiting: set<Handle>, next: nat, asked: map<Handle, nat>,
      frames: nat)
    requires InOrder(ran, tasks, waiting, next) && Later(ran + tasks, asked, frames) && tasks != []
    ensures InOrder(ran + [tasks[0]], tasks[1..], waiting, next)
    ensures Later(ran + [tasks[0]] + tasks[1..], asked, frames)
  {
    assert ran + [tasks[0]] + tasks[1..] == ran + tasks;
  }

  lemma SkipTask(ran: seq<Task>, tasks: seq<Task>, waiting: set<Handle>, next: nat, asked: map<Handle, nat>,
      frames: nat)
    requires InOrder(ran, tasks, waiting, next) && Later(ran + tasks, asked, frames) && tasks != []
    ensures InOrder(ran, tasks[1..], waiting, next) && Later(ran + tasks[1..], asked, frames)
  {
    var all, rest, n := ran + tasks, ran + tasks[1..], |ran|;
    forall i | 0 <= i < |rest| ensures rest[i] == all[if i < n then i else i + 1] && rest[i] in all {
    }
  }
}
