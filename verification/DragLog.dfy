/**
 What a client sends of drags: the compositor's answers and ends, its targets' and its window's events, and what they
 add up to.
 */
module DragLog {
  import opened Optional

  type Tag = int
  type Type = string
  type Kind = string

  datatype Action = Copy | Move | Link

  /** What the compositor is answered: the type taken, none for nothing; the actions, and the one preferred. */
  datatype Answer = Answer(mime: Option<Type>, actions: set<Action>, preferred: Option<Action>)

  datatype Telling = DragEnter | DragOver | DragLeave | Drop

  /** A target's event is heard if its view is still in the tree. */
  datatype Sent =
    | Accepted(offer: nat, answer: Answer)
    | Finished(offer: nat)
    | WindowEnter
    | WindowExit(dropped: bool)
    | Told(view: Tag, telling: Telling, heard: bool)

  /** The drop target the drag is in, as its events say; `Wrong` after one out of its order. */
  datatype Watch = Nowhere | In(view: Tag) | Wrong

  /** The window's drag, as told; `finished` once a drop was finished since its enter. */
  datatype WindowWatch = Ended | Entered(finished: bool) | Amiss

  datatype Sum = Sum(target: Watch, window: WindowWatch, finished: multiset<nat>, answers: map<nat, Answer>)

  function TargetStep(w: Watch, view: Tag, telling: Telling): Watch {
    match telling
    case Drop => w
    case DragEnter => if w == Nowhere then In(view) else Wrong
    case DragOver => if w == In(view) then w else Wrong
    case DragLeave => if w == In(view) then Nowhere else Wrong
  }

  function Step(s: Sum, e: Sent): Sum {
    match e
    case Accepted(offer, answer) => s.(answers := s.answers[offer := answer])
    case Finished(offer) =>
      s.(finished := s.finished + multiset{offer}, window := if s.window.Entered? then Entered(true) else s.window)
    case WindowEnter => s.(window := if s.window.Ended? then Entered(false) else Amiss)
    case WindowExit(dropped) =>
      s.(window := if s.window.Entered? && (dropped ==> s.window.finished) then Ended else Amiss)
    case Told(view, telling, heard) => s.(target := TargetStep(s.target, view, telling))
  }

  function SumOf(log: seq<Sent>): Sum {
    if log == [] then Sum(Nowhere, Ended, multiset{}, map[]) else Step(SumOf(log[..|log| - 1]), log[|log| - 1])
  }

  lemma {:induction false} SumMore(log: seq<Sent>, e: Sent)
    ensures SumOf(log + [e]) == Step(SumOf(log), e)
  {
    assert (log + [e])[..|log|] == log;
  }

  // What a log adds up to says of its events.

  predicate TargetEvent(e: Sent) { e.Told? && !e.telling.Drop? }

  /** The last target's event before `n`, or -1. */
  function LastTold(log: seq<Sent>, n: nat): (i: int)
    requires n <= |log|
    ensures -1 <= i < n && (i >= 0 ==> TargetEvent(log[i])) && forall k :: i < k < n ==> !TargetEvent(log[k])
  {
    if n == 0 then -1 else if TargetEvent(log[n - 1]) then n - 1 else LastTold(log, n - 1)
  }

  /** A target is entered when none is, and moved over or left only while it is entered. */
  predicate TargetAt(log: seq<Sent>, n: nat)
    requires n < |log| && TargetEvent(log[n])
  {
    var i := LastTold(log, n);
    if log[n].telling.DragEnter? then i == -1 || log[i].telling.DragLeave?
    else i >= 0 && log[i].view == log[n].view && !log[i].telling.DragLeave?
  }

  predicate TargetsMatch(log: seq<Sent>) { forall n :: 0 <= n < |log| && TargetEvent(log[n]) ==> TargetAt(log, n) }

  function WatchOf(log: seq<Sent>): Watch {
    var i := LastTold(log, |log|);
    if i < 0 || log[i].telling.DragLeave? then Nowhere else In(log[i].view)
  }

  lemma {:induction false} LastToldSame(log: seq<Sent>, e: Sent, n: nat)
    requires n <= |log|
    ensures LastTold(log + [e], n) == LastTold(log, n)
  {
    if n > 0 && !TargetEvent(log[n - 1]) { LastToldSame(log, e, n - 1); }
  }

  lemma TargetsMore(log: seq<Sent>, e: Sent)
    requires TargetsMatch(log) && (TargetEvent(e) ==> TargetAt(log + [e], |log|))
    ensures TargetsMatch(log + [e])
  {
    var more := log + [e];
    forall n | 0 <= n < |more| && TargetEvent(more[n]) ensures TargetAt(more, n) {
      LastToldSame(log, e, n);
      if n < |log| { assert TargetEvent(log[n]) && TargetAt(log, n); }
    }
  }

  lemma {:induction false} SumTargetsMore(log: seq<Sent>, e: Sent)
    requires TargetsMatch(log) && SumOf(log).target == WatchOf(log) && SumOf(log + [e]).target != Wrong
    ensures TargetsMatch(log + [e]) && SumOf(log + [e]).target == WatchOf(log + [e])
  {
    hide TargetsMatch;
    SumMore(log, e);
    hide SumOf;
    LastToldSame(log, e, |log|);
    TargetsMore(log, e);
  }

  lemma TargetsNone()
    ensures TargetsMatch([]) && SumOf([]).target == WatchOf([])
  {
  }

  lemma {:induction false} SumTargets(log: seq<Sent>)
    requires SumOf(log).target != Wrong
    ensures TargetsMatch(log) && SumOf(log).target == WatchOf(log)
  {
    hide TargetsMatch, WatchOf;
    if log == [] {
      TargetsNone();
    } else {
      var rest, e := log[..|log| - 1], log[|log| - 1];
      assert rest + [e] == log;
      SumMore(rest, e);
      SumTargets(rest);
      SumTargetsMore(rest, e);
    }
  }

  predicate WindowEvent(e: Sent) { e.WindowEnter? || e.WindowExit? }

  function LastWindow(log: seq<Sent>, n: nat): (i: int)
    requires n <= |log|
    ensures -1 <= i < n && (i >= 0 ==> WindowEvent(log[i])) && forall k :: i < k < n ==> !WindowEvent(log[k])
  {
    if n == 0 then -1 else if WindowEvent(log[n - 1]) then n - 1 else LastWindow(log, n - 1)
  }

  predicate FinishedBetween(log: seq<Sent>, i: int, n: int)
    requires -1 <= i <= n <= |log|
  {
    exists k :: i < k < n && log[k].Finished?
  }

  /** Enters and exits alternate, and an exit says a drop only after one was finished since its enter. */
  predicate WindowAt(log: seq<Sent>, n: nat)
    requires n < |log| && WindowEvent(log[n])
  {
    var i := LastWindow(log, n);
    if log[n].WindowEnter? then i == -1 || log[i].WindowExit?
    else i >= 0 && log[i].WindowEnter? && (log[n].dropped ==> FinishedBetween(log, i, n))
  }

  predicate WindowMatches(log: seq<Sent>) { forall n :: 0 <= n < |log| && WindowEvent(log[n]) ==> WindowAt(log, n) }

  function WindowOf(log: seq<Sent>): WindowWatch {
    var i := LastWindow(log, |log|);
    if i < 0 || log[i].WindowExit? then Ended else Entered(FinishedBetween(log, i, |log|))
  }

  lemma {:induction false} LastWindowSame(log: seq<Sent>, e: Sent, n: nat)
    requires n <= |log|
    ensures LastWindow(log + [e], n) == LastWindow(log, n)
  {
    if n > 0 && !WindowEvent(log[n - 1]) { LastWindowSame(log, e, n - 1); }
  }

  lemma FinishedSame(log: seq<Sent>, e: Sent, i: int, n: int)
    requires -1 <= i <= n <= |log|
    ensures FinishedBetween(log + [e], i, n) <==> FinishedBetween(log, i, n)
    ensures !FinishedBetween(log + [e], |log|, |log| + 1)
    ensures i <= |log| ==>
      (FinishedBetween(log + [e], i, |log| + 1) <==> FinishedBetween(log, i, |log|) || (i < |log| && e.Finished?))
  {
    var more := log + [e];
    if FinishedBetween(log, i, n) {
      var k :| i < k < n && log[k].Finished?;
      assert more[k].Finished?;
    }
    if FinishedBetween(log, i, |log|) {
      var k :| i < k < |log| && log[k].Finished?;
      assert more[k].Finished?;
    }
    if i < |log| && e.Finished? { assert more[|log|].Finished?; }
  }

  lemma WindowMore(log: seq<Sent>, e: Sent)
    requires WindowMatches(log) && (WindowEvent(e) ==> WindowAt(log + [e], |log|))
    ensures WindowMatches(log + [e])
  {
    var more := log + [e];
    forall n | 0 <= n < |more| && WindowEvent(more[n]) ensures WindowAt(more, n) {
      LastWindowSame(log, e, n);
      FinishedSame(log, e, LastWindow(log, if n < |log| then n else |log|), if n < |log| then n else |log|);
      if n < |log| { assert WindowEvent(log[n]) && WindowAt(log, n); }
    }
  }

  lemma {:induction false} SumWindowMore(log: seq<Sent>, e: Sent)
    requires WindowMatches(log) && SumOf(log).window == WindowOf(log) && SumOf(log + [e]).window != Amiss
    ensures WindowMatches(log + [e]) && SumOf(log + [e]).window == WindowOf(log + [e])
  {
    hide WindowMatches, FinishedBetween;
    SumMore(log, e);
    hide SumOf;
    LastWindowSame(log, e, |log|);
    FinishedSame(log, e, LastWindow(log, |log|), |log|);
    WindowMore(log, e);
  }

  lemma WindowNone()
    ensures WindowMatches([]) && SumOf([]).window == WindowOf([])
  {
  }

  lemma {:induction false} SumWindow(log: seq<Sent>)
    requires SumOf(log).window != Amiss
    ensures WindowMatches(log) && SumOf(log).window == WindowOf(log)
  {
    hide WindowMatches, WindowOf;
    if log == [] {
      WindowNone();
    } else {
      var rest, e := log[..|log| - 1], log[|log| - 1];
      assert rest + [e] == log;
      SumMore(rest, e);
      SumWindow(rest);
      SumWindowMore(rest, e);
    }
  }

  /** How many times each drop was finished. */
  function FinishesIn(log: seq<Sent>): multiset<nat> {
    if log == [] then multiset{}
    else FinishesIn(log[..|log| - 1]) + if log[|log| - 1].Finished? then multiset{log[|log| - 1].offer} else multiset{}
  }

  lemma {:induction false} SumFinishes(log: seq<Sent>)
    ensures SumOf(log).finished == FinishesIn(log)
  {
    if log != [] { SumFinishes(log[..|log| - 1]); }
  }
}
