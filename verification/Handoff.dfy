/** The hand-off between a service's worker thread and the host's loop. */
module Handoff {

  // Requests and answers are in queues under a mutex, an eventfd wakes the loop, and the loop sleeps only after two
  // idle turns. Each step below is what one thread does without the other being able to come between: under the lock,
  // one read, one write.

  /**
   AsyncStorage performs every request before it ends; AccountSession ends at once, and may have jobs nobody waits for.
   */
  datatype Kind = AsyncStorage | AccountSession

  /** What was asked: the number of its asking, and whether anyone is told its answer. */
  datatype Job = Job(id: nat, told: bool)

  /**
   Where a worker is: waiting on the condition, performing a job, with its answer, between its push and its write,
   returned.
   */
  datatype Worker = Waiting | Performing(job: Job) | Answering(job: Job) | Pushed | Returned

  /** A service; `asked`, `performed` and `told` are what was ever asked, performed and handed to its `done`. */
  datatype Service = Service(
    kind: Kind, requests: seq<Job>, answers: seq<Job>, wake: nat, stopping: bool, worker: Worker,
    asked: seq<Job>, performed: seq<Job>, told: seq<Job>)

  /**
   Where the loop is: in its turn, delivering service `at`, draining or telling what it swapped out, asleep, or leaving.
   */
  datatype Host =
    | Turning(busy: bool)
    | Delivering(at: nat, busy: bool)
    | Draining(at: nat, batch: seq<Job>, busy: bool)
    | Telling(at: nat, batch: seq<Job>, busy: bool)
    | Ending(busy: bool)
    | Asleep
    | Leaving(at: nat)

  datatype State = State(services: seq<Service>, host: Host, idleTurns: nat)

  datatype Action =
    | Take(i: nat) | Perform(i: nat) | Push(i: nat) | Write(i: nat)      // a worker's
    | Ask(i: nat, told: bool)                                            // JavaScript's, on the host's thread
    | Begin | Swap | Read | Drained | Tell | Told | Delivered            // the deliveries'
    | Work | Turn(busy: bool) | Wake(i: nat) | Stir | Leave | Stop | Join  // the loop's: `Stir`, something else's wake

  predicate Fits(a: Action, s: State) {
    match a
    case Take(i) => i < |s.services|
    case Perform(i) => i < |s.services|
    case Push(i) => i < |s.services|
    case Write(i) => i < |s.services|
    case Ask(i, _) => i < |s.services|
    case Wake(i) => i < |s.services|
    case _ => true
  }

  /** Whether a request may come: JavaScript runs in a turn and in the answers' callbacks, and nowhere else. */
  predicate RunsJavaScript(h: Host) { h.Turning? || h.Telling? || h.Ending? }

  predicate Enabled(s: State, a: Action) {
    Fits(a, s) &&
    match a
    case Take(i) => s.services[i].worker.Waiting? && (s.services[i].stopping || s.services[i].requests != [])
    case Perform(i) => s.services[i].worker.Performing?
    case Push(i) => s.services[i].worker.Answering?
    case Write(i) => s.services[i].worker.Pushed?
    case Ask(i, told) => RunsJavaScript(s.host) && (s.services[i].kind.AsyncStorage? ==> told)
    case Begin => s.host.Turning?
    case Swap => s.host.Delivering? && s.host.at < |s.services|
    case Read => s.host.Draining? && s.host.at < |s.services| && s.services[s.host.at].wake > 0
    case Drained => s.host.Draining? && s.host.at < |s.services| && s.services[s.host.at].wake == 0
    case Tell => s.host.Telling? && s.host.at < |s.services| && s.host.batch != []
    case Told => s.host.Telling? && s.host.batch == []
    case Delivered => s.host.Delivering? && s.host.at == |s.services|
    case Work => s.host.Turning? || s.host.Ending?
    case Turn(_) => s.host.Ending?
    case Wake(i) => s.host.Asleep? && s.services[i].wake > 0
    case Stir => s.host.Asleep?
    case Leave => s.host.Ending?
    case Stop => s.host.Leaving? && s.host.at < |s.services| && !s.services[s.host.at].stopping
    case Join => s.host.Leaving? && s.host.at < |s.services| && s.services[s.host.at].worker.Returned?
  }

  /** Once its wait ends: a job taken, or the worker's return. */
  function Taken(v: Service): Service
    requires v.worker.Waiting? && (v.stopping || v.requests != [])
  {
    if v.requests == [] || (v.kind.AccountSession? && v.stopping) then v.(worker := Returned)
    else v.(worker := Performing(v.requests[0]), requests := v.requests[1..])
  }

  function Performed(v: Service): Service
    requires v.worker.Performing?
  {
    var job := v.worker.job;
    v.(performed := v.performed + [job], worker := if job.told then Answering(job) else Waiting)
  }

  function Set(s: State, i: nat, v: Service): State
    requires i < |s.services|
  {
    s.(services := s.services[i := v])
  }

  function Do(s: State, a: Action): State
    requires Enabled(s, a)
  {
    match a
    case Take(i) => Set(s, i, Taken(s.services[i]))
    case Perform(i) => Set(s, i, Performed(s.services[i]))
    case Push(i) => var v := s.services[i]; Set(s, i, v.(answers := v.answers + [v.worker.job], worker := Pushed))
    case Write(i) => var v := s.services[i]; Set(s, i, v.(wake := v.wake + 1, worker := Waiting))
    case Ask(i, told) =>
      var v := s.services[i];
      var job := Job(|v.asked|, told);
      Set(s, i, v.(requests := v.requests + [job], asked := v.asked + [job]))
    case Begin => s.(host := Delivering(0, s.host.busy))
    case Swap =>
      var v := s.services[s.host.at];
      Set(s.(host := if v.answers == [] then Delivering(s.host.at + 1, s.host.busy)
        else Draining(s.host.at, v.answers, s.host.busy)),
          s.host.at, v.(answers := []))
    case Read => Set(s, s.host.at, s.services[s.host.at].(wake := 0))
    case Drained => s.(host := Telling(s.host.at, s.host.batch, s.host.busy))
    case Tell =>
      var v := s.services[s.host.at];
      Set(s.(host := Telling(s.host.at, s.host.batch[1..], s.host.busy)), s.host.at,
        v.(told := v.told + [s.host.batch[0]]))
    case Told => s.(host := Delivering(s.host.at + 1, true))
    case Delivered => s.(host := Ending(s.host.busy))
    case Work => s.(host := if s.host.Turning? then Turning(true) else Ending(true))
    case Turn(busy) =>
      var idle := if s.host.busy then 0 else s.idleTurns + 1;
      s.(idleTurns := idle, host := if idle >= 2 then Asleep else Turning(busy))
    case Wake(_) => s.(host := Turning(false))
    case Stir => s.(host := Turning(false))
    case Leave => s.(host := Leaving(0))
    case Stop => Set(s, s.host.at, s.services[s.host.at].(stopping := true))
    case Join => s.(host := Leaving(s.host.at + 1))
  }

  function NewService(kind: Kind): Service { Service(kind, [], [], 0, false, Waiting, [], [], []) }

  predicate Init(s: State) {
    s.host == Turning(false) && s.idleTurns == 0 &&
      forall i :: 0 <= i < |s.services| ==> s.services[i] == NewService(s.services[i].kind)
  }

  /** The states a sequence of enabled actions goes through. */
  ghost predicate Steps(states: seq<State>, actions: seq<Action>) {
    |states| == |actions| + 1 &&
    forall k :: 0 <= k < |actions| ==> Enabled(states[k], actions[k]) && states[k + 1] == Do(states[k], actions[k])
  }

  /** Every interleaving, from the start. */
  ghost predicate Run(states: seq<State>, actions: seq<Action>) {
    Steps(states, actions) && Init(states[0])
  }

  // What every step keeps.

  /** Whether the loop delivers service i again before it can sleep. */
  predicate LooksAgain(h: Host, i: nat) {
    match h
    case Turning(_) => true
    case Delivering(at, busy) => at <= i || busy
    case Draining(_, _, _) => true
    case Telling(_, _, _) => true
    case Ending(busy) => busy
    case Asleep => false
    case Leaving(_) => true
  }

  /** An answer queued has its wake: the eventfd readable, its write still to come, or a loop that looks again. */
  predicate WakeKept(s: State, i: nat)
    requires i < |s.services|
  {
    var v := s.services[i];
    v.answers != [] ==> v.wake > 0 || v.worker.Pushed? || LooksAgain(s.host, i)
  }

  function Batch(h: Host, i: nat): seq<Job> {
    if (h.Draining? || h.Telling?) && h.at == i then h.batch else []
  }

  /** The jobs someone is told the answers of. */
  function Awaited(jobs: seq<Job>): seq<Job> {
    if jobs == [] then []
    else Awaited(jobs[..|jobs| - 1]) + if jobs[|jobs| - 1].told then [jobs[|jobs| - 1]] else []
  }

  function InHand(w: Worker): seq<Job> { if w.Performing? then [w.job] else [] }

  function Answer(w: Worker): seq<Job> { if w.Answering? then [w.job] else [] }

  /**
   Every request is performed once, in order, and every answer is told, swapped out, queued or in the worker's hand, in
   order.
   */
  predicate Conserved(v: Service, batch: seq<Job>) {
    v.asked == v.performed + InHand(v.worker) + v.requests &&
    Awaited(v.performed) == v.told + batch + v.answers + Answer(v.worker) &&
    (forall k :: 0 <= k < |v.asked| ==> v.asked[k].id == k)
  }

  /** A worker returns only once told to stop, and AsyncStorage's only with nothing left to do. */
  predicate Ends(v: Service, h: Host) {
    (v.stopping ==> h.Leaving?) &&
    (v.worker.Returned? ==> v.stopping && (v.kind.AsyncStorage? ==> v.requests == []))
  }

  predicate Joined(s: State) {
    s.host.Leaving? ==> forall i :: 0 <= i < s.host.at && i < |s.services| ==> s.services[i].worker.Returned?
  }

  predicate Keeps(s: State, i: nat)
    requires i < |s.services|
  {
    WakeKept(s, i) && Conserved(s.services[i], Batch(s.host, i)) && Ends(s.services[i], s.host)
  }

  predicate Inv(s: State) {
    (forall i :: 0 <= i < |s.services| ==> Keeps(s, i)) && Joined(s)
  }

  lemma {:induction false} AwaitedMore(jobs: seq<Job>, job: Job)
    ensures Awaited(jobs + [job]) == Awaited(jobs) + if job.told then [job] else []
  {
    assert (jobs + [job])[..|jobs|] == jobs;
  }

  lemma TakenConserved(v: Service, batch: seq<Job>)
    requires Conserved(v, batch) && v.worker.Waiting? && (v.stopping || v.requests != [])
    ensures Conserved(Taken(v), batch)
  {
    if v.requests != [] { assert v.requests == [v.requests[0]] + v.requests[1..]; }
  }

  lemma PerformedConserved(v: Service, batch: seq<Job>)
    requires Conserved(v, batch) && v.worker.Performing?
    ensures Conserved(Performed(v), batch)
  {
    AwaitedMore(v.performed, v.worker.job);
  }

  /** A step of one service's worker keeps what that service keeps. */
  lemma WorkerKeeps(s: State, a: Action, i: nat)
    requires Inv(s) && Enabled(s, a) && i < |s.services|
    requires a == Take(i) || a == Perform(i) || a == Push(i) || a == Write(i)
    ensures Keeps(Do(s, a), i)
  {
    var v, batch := s.services[i], Batch(s.host, i);
    assert Keeps(s, i);
    match a
    case Take(_) => TakenConserved(v, batch);
    case Perform(_) => PerformedConserved(v, batch);
    case Push(_) =>
      assert v.told + batch + v.answers + [v.worker.job] == v.told + batch + (v.answers + [v.worker.job]);
    case Write(_) =>
  }

  /** The steps of the host's thread. */
  predicate Hosts(a: Action) { !a.Take? && !a.Perform? && !a.Push? && !a.Write? }

  lemma AskConserved(v: Service, batch: seq<Job>, job: Job)
    requires Conserved(v, batch) && job.id == |v.asked|
    ensures Conserved(v.(requests := v.requests + [job], asked := v.asked + [job]), batch)
  {
    assert v.performed + InHand(v.worker) + (v.requests + [job]) == v.performed + InHand(v.worker) + v.requests + [job];
  }

  lemma SwapConserved(v: Service)
    requires Conserved(v, [])
    ensures Conserved(v.(answers := []), v.answers)
  {
    assert v.told + [] + v.answers + Answer(v.worker) == v.told + v.answers + [] + Answer(v.worker);
  }

  lemma TellConserved(v: Service, batch: seq<Job>)
    requires Conserved(v, batch) && batch != []
    ensures Conserved(v.(told := v.told + [batch[0]]), batch[1..])
  {
    assert v.told + batch == (v.told + [batch[0]]) + batch[1..];
  }

  lemma HostConserves(s: State, a: Action, i: nat)
    requires Inv(s) && Enabled(s, a) && i < |s.services| && Hosts(a)
    ensures Conserved(Do(s, a).services[i], Batch(Do(s, a).host, i))
  {
    var v := s.services[i];
    assert Keeps(s, i);
    match a
    case Ask(_, told) => AskConserved(v, Batch(s.host, i), Job(|v.asked|, told));
    case Swap =>
      if s.host.at == i {
        SwapConserved(v);
        assert Do(s, a).services[i] == v.(answers := []) && Batch(Do(s, a).host, i) == v.answers;
      } else {
        assert Do(s, a).services[i] == v && Batch(Do(s, a).host, i) == [];
      }
    case Tell => if s.host.at == i { TellConserved(v, s.host.batch); }
    case _ =>
  }

  lemma HostKeepsWake(s: State, a: Action, i: nat)
    requires Inv(s) && Enabled(s, a) && i < |s.services| && Hosts(a)
    ensures WakeKept(Do(s, a), i) && Ends(Do(s, a).services[i], Do(s, a).host)
  {
    assert Keeps(s, i);
  }

  lemma HostJoins(s: State, a: Action)
    requires Inv(s) && Enabled(s, a) && Hosts(a)
    ensures Joined(Do(s, a))
  {
  }

  lemma InvKept(s: State, a: Action)
    requires Inv(s) && Enabled(s, a)
    ensures Inv(Do(s, a))
  {
    var t := Do(s, a);
    forall i | 0 <= i < |t.services| ensures Keeps(t, i) {
      if a == Take(i) || a == Perform(i) || a == Push(i) || a == Write(i) {
        WorkerKeeps(s, a, i);
      } else if Hosts(a) {
        HostConserves(s, a, i);
        HostKeepsWake(s, a, i);
      } else {
        assert Keeps(s, i) && t.services[i] == s.services[i];
      }
    }
    if Hosts(a) { HostJoins(s, a); }
  }

  lemma {:induction false} InvAlways(states: seq<State>, actions: seq<Action>, k: nat)
    requires Run(states, actions) && k < |states|
    ensures Inv(states[k])
  {
    if k > 0 {
      InvAlways(states, actions, k - 1);
      InvKept(states[k - 1], actions[k - 1]);
    }
  }

  // What that means of every run.

  /** No wake-up is lost: asleep with an answer queued, the eventfd is readable or the worker has yet to write it. */
  lemma NoWakeLost(states: seq<State>, actions: seq<Action>, k: nat, i: nat)
    requires Run(states, actions) && k < |states| && i < |states[k].services|
    requires states[k].host.Asleep? && states[k].services[i].answers != []
    ensures states[k].services[i].wake > 0 || states[k].services[i].worker.Pushed?
  {
    InvAlways(states, actions, k);
    assert Keeps(states[k], i);
  }

  /** Answers reach their own `done` in the order asked, each at most once. */
  lemma ToldInOrder(states: seq<State>, actions: seq<Action>, k: nat, i: nat)
    requires Run(states, actions) && k < |states| && i < |states[k].services|
    ensures var v := states[k].services[i];
            v.told <= Awaited(v.asked) && forall a, b :: 0 <= a < b < |v.told| ==> v.told[a].id < v.told[b].id
  {
    InvAlways(states, actions, k);
    var v := states[k].services[i];
    assert Keeps(states[k], i);
    AwaitedPrefix(v.performed, InHand(v.worker) + v.requests);
    assert v.asked == v.performed + (InHand(v.worker) + v.requests);
    AwaitedOrdered(v.asked);
  }

  lemma {:induction false} AwaitedPrefix(jobs: seq<Job>, more: seq<Job>)
    ensures Awaited(jobs) <= Awaited(jobs + more)
  {
    if more == [] {
      assert jobs + more == jobs;
    } else {
      var last := |more| - 1;
      AwaitedPrefix(jobs, more[..last]);
      assert jobs + more == (jobs + more[..last]) + [more[last]];
      AwaitedMore(jobs + more[..last], more[last]);
    }
  }

  lemma {:induction false} AwaitedOrdered(jobs: seq<Job>)
    requires forall k :: 0 <= k < |jobs| ==> jobs[k].id == k
    ensures forall a, b :: 0 <= a < b < |Awaited(jobs)| ==> Awaited(jobs)[a].id < Awaited(jobs)[b].id
    ensures forall a :: 0 <= a < |Awaited(jobs)| ==> Awaited(jobs)[a].id < |jobs|
  {
    if jobs != [] { AwaitedOrdered(jobs[..|jobs| - 1]); }
  }

  /** Joined, AsyncStorage's worker has performed every request; AccountSession's, the first of them. */
  lemma JoinedPerformed(states: seq<State>, actions: seq<Action>, k: nat, i: nat)
    requires Run(states, actions) && k < |states| && i < |states[k].services|
    requires states[k].host.Leaving? && i < states[k].host.at
    ensures var v := states[k].services[i];
            v.performed <= v.asked && (v.kind.AsyncStorage? ==> v.performed == v.asked)
  {
    InvAlways(states, actions, k);
    assert Keeps(states[k], i);
  }

  predicate InRange(h: Host, services: nat) {
    match h
    case Delivering(at, _) => at <= services
    case Draining(at, _, _) => at < services
    case Telling(at, _, _) => at < services
    case Leaving(at) => at <= services
    case _ => true
  }

  lemma {:induction false} AlwaysInRange(states: seq<State>, actions: seq<Action>, k: nat)
    requires Run(states, actions) && k < |states|
    ensures InRange(states[k].host, |states[k].services|)
  {
    if k > 0 { AlwaysInRange(states, actions, k - 1); }
  }

  /** A worker that has not returned goes on, unless it waits with nothing asked and is not told to stop. */
  lemma WorkerGoesOn(s: State, i: nat) returns (a: Action)
    requires i < |s.services| && !s.services[i].worker.Returned?
    requires s.services[i].worker.Waiting? ==> s.services[i].stopping || s.services[i].requests != []
    ensures Enabled(s, a) && a in {Take(i), Perform(i), Push(i), Write(i)}
  {
    match s.services[i].worker
    case Waiting => a := Take(i);
    case Performing(_) => a := Perform(i);
    case Answering(_) => a := Push(i);
    case Pushed => a := Write(i);
  }

  /**
   No run is ever stuck: the loop itself can go on until it has joined every worker, but for a sleep with nothing
   readable, and but for a worker it joins that has not returned, which can go on then.
   */
  lemma NeverStuck(states: seq<State>, actions: seq<Action>, k: nat) returns (a: Action)
    requires Run(states, actions) && k < |states| && states[k].host != Leaving(|states[k].services|)
    requires states[k].host.Asleep? ==> exists i :: 0 <= i < |states[k].services| && states[k].services[i].wake > 0
    ensures var s := states[k];
            Enabled(s, a) && !a.Ask? && !a.Stir? &&
            (Hosts(a) || (s.host.Leaving? &&
                          a in {Take(s.host.at), Perform(s.host.at), Push(s.host.at), Write(s.host.at)}))
  {
    AlwaysInRange(states, actions, k);
    var s := states[k];
    match s.host {
      case Turning(_) => a := Begin;
      case Delivering(at, _) => a := if at < |s.services| then Swap else Delivered;
      case Draining(at, _, _) => a := if s.services[at].wake > 0 then Read else Drained;
      case Telling(_, batch, _) => a := if batch != [] then Tell else Told;
      case Ending(_) => a := Leave;
      case Asleep =>
        var i :| 0 <= i < |s.services| && s.services[i].wake > 0;
        a := Wake(i);
      case Leaving(at) =>
        if !s.services[at].stopping { a := Stop; }
        else if s.services[at].worker.Returned? { a := Join; }
        else { a := WorkerGoesOn(s, at); }
    }
  }

  /** How many steps a service's worker can take yet, and the host to stop it. */
  function StepsLeft(v: Service): nat {
    5 * |v.requests| + (if v.stopping then 0 else 1) +
    match v.worker
    case Waiting => 1
    case Performing(_) => 4
    case Answering(_) => 3
    case Pushed => 2
    case Returned => 0
  }

  function AllLeft(vs: seq<Service>): nat {
    if vs == [] then 0 else StepsLeft(vs[0]) + AllLeft(vs[1..])
  }

  lemma {:induction false} OneLess(vs: seq<Service>, i: nat, v: Service)
    requires i < |vs|
    ensures AllLeft(vs[i := v]) + StepsLeft(vs[i]) == AllLeft(vs) + StepsLeft(v)
  {
    if i > 0 {
      assert vs[i := v][1..] == vs[1..][i - 1 := v];
      OneLess(vs[1..], i - 1, v);
    }
  }

  function LeavingLeft(s: State): nat
    requires s.host.Leaving? && s.host.at <= |s.services|
  {
    AllLeft(s.services) + (|s.services| - s.host.at)
  }

  lemma LeavingShrinks(s: State, a: Action)
    requires s.host.Leaving? && s.host.at <= |s.services| && Enabled(s, a)
    ensures var t := Do(s, a);
            t.host.Leaving? && t.host.at <= |t.services| && LeavingLeft(t) < LeavingLeft(s)
  {
    hide StepsLeft;
    var t := Do(s, a);
    if a.Stop? {
      ServiceShrinks(s, a, s.host.at);
      OneLess(s.services, s.host.at, t.services[s.host.at]);
    } else if !a.Join? {
      ServiceShrinks(s, a, a.i);
      OneLess(s.services, a.i, t.services[a.i]);
    }
  }

  lemma ServiceShrinks(s: State, a: Action, i: nat)
    requires s.host.Leaving? && Enabled(s, a) && i < |s.services|
    requires (a.Stop? && i == s.host.at) || a in {Take(i), Perform(i), Push(i), Write(i)}
    ensures StepsLeft(Do(s, a).services[i]) < StepsLeft(s.services[i])
  {
  }

  /** Once the loop leaves, every run ends: with `NeverStuck`, when it has joined every worker. */
  lemma {:induction false} LeavingEnds(states: seq<State>, actions: seq<Action>, k: nat)
    requires Run(states, actions) && k < |states| && states[k].host.Leaving?
    ensures states[k].host.at <= |states[k].services| && |actions| - k <= LeavingLeft(states[k])
    decreases |actions| - k
  {
    AlwaysInRange(states, actions, k);
    if k < |actions| {
      LeavingShrinks(states[k], actions[k]);
      LeavingEnds(states, actions, k + 1);
    }
  }

  // And of every run that goes on for ever, each thread going on with what it has begun.

  /** A run without an end. */
  ghost predicate Endless(states: nat -> State, actions: nat -> Action) {
    Init(states(0)) && forall n: nat :: Goes(states, actions, n)
  }

  predicate Goes(states: nat -> State, actions: nat -> Action, n: nat) {
    Enabled(states(n), actions(n)) && states(n + 1) == Do(states(n), actions(n))
  }

  predicate Delivers(h: Host) { h.Delivering? || h.Draining? || h.Telling? }

  /** A turn begun ends, a sleep ends once an eventfd is readable, and a worker that pushed an answer writes. */
  ghost predicate Fair(states: nat -> State, actions: nat -> Action) { forall n: nat :: GoesOn(states, actions, n) }

  ghost predicate GoesOn(states: nat -> State, actions: nat -> Action, n: nat) {
    (states(n).host.Turning? ==> exists m: nat :: n <= m && actions(m) == Begin) &&
    (Delivers(states(n).host) ==> exists m: nat :: n <= m && actions(m) == Delivered) &&
    (states(n).host.Ending? ==> exists m: nat :: n <= m && (actions(m).Turn? || actions(m).Leave?)) &&
    (forall i :: 0 <= i < |states(n).services| ==>
      (states(n).host.Asleep? && states(n).services[i].wake > 0 ==>
        exists m: nat :: n <= m && !states(m).host.Asleep?) &&
      (states(n).services[i].worker.Pushed? ==> exists m: nat :: n <= m && actions(m) == Write(i)))
  }

  /** The answers a worker has pushed: told, swapped out and queued. */
  function Out(s: State, i: nat): seq<Job> {
    if i < |s.services| then s.services[i].told + Batch(s.host, i) + s.services[i].answers else []
  }

  /** The answers told so far. */
  function ToldBy(s: State, i: nat): seq<Job> { if i < |s.services| then s.services[i].told else [] }

  /** Whether the turn's deliveries have been past service i. */
  predicate Past(h: Host, i: nat) { (Delivers(h) && h.at > i) || h.Ending? }

  /** What was pushed before a turn's deliveries began, `q` of it, is told once they are past the service. */
  predicate Covered(s: State, i: nat, q: seq<Job>) {
    i < |s.services| && q <= Out(s, i) && (Past(s.host, i) ==> q <= ToldBy(s, i)) &&
    ((s.host.Draining? || s.host.Telling?) && s.host.at == i ==> q <= ToldBy(s, i) + Batch(s.host, i))
  }

  lemma OutGrows(s: State, a: Action, i: nat)
    requires Enabled(s, a) && i < |s.services|
    ensures i < |Do(s, a).services| && Out(s, i) <= Out(Do(s, a), i)
  {
    var v := s.services[i];
    match a
    case Push(_) =>
    case Tell => if s.host.at == i { assert v.told + s.host.batch == (v.told + [s.host.batch[0]]) + s.host.batch[1..]; }
    case Swap => if s.host.at == i { assert v.told + [] + v.answers == v.told + v.answers + []; }
    case _ =>
  }

  lemma ToldGrows(s: State, a: Action, i: nat)
    requires Enabled(s, a) && i < |s.services|
    ensures ToldBy(s, i) <= ToldBy(Do(s, a), i)
  {
  }

  lemma CoveredKept(s: State, a: Action, i: nat, q: seq<Job>)
    requires Enabled(s, a) && Covered(s, i, q)
    ensures Covered(Do(s, a), i, q)
  {
    OutGrows(s, a, i);
    ToldGrows(s, a, i);
    var v := s.services[i];
    match a
    case Tell => if s.host.at == i { assert v.told + s.host.batch == (v.told + [s.host.batch[0]]) + s.host.batch[1..]; }
    case Swap =>
      if s.host.at == i {
        assert Out(s, i) == v.told + v.answers;
        assert v.answers == [] ==> Out(s, i) == v.told;
      }
    case Told => if s.host.at == i { assert v.told + [] == v.told; }
    case _ =>
  }

  lemma {:induction false} CoveredOn(states: nat -> State, actions: nat -> Action, n: nat, m: nat, i: nat, q: seq<Job>)
    requires Endless(states, actions) && n <= m && Covered(states(n), i, q)
    ensures Covered(states(m), i, q)
    decreases m
  {
    hide Covered, Enabled, Do;
    if n < m {
      CoveredOn(states, actions, n, m - 1, i, q);
      assert Goes(states, actions, m - 1);
      CoveredKept(states(m - 1), actions(m - 1), i, q);
    }
  }

  lemma {:induction false} OutOn(states: nat -> State, actions: nat -> Action, n: nat, m: nat, i: nat)
    requires Endless(states, actions) && n <= m && i < |states(n).services|
    ensures i < |states(m).services| && Out(states(n), i) <= Out(states(m), i)
    decreases m
  {
    hide Out, Enabled, Do;
    if n < m {
      OutOn(states, actions, n, m - 1, i);
      assert Goes(states, actions, m - 1);
      OutGrows(states(m - 1), actions(m - 1), i);
    }
  }

  lemma {:induction false} InvEndless(states: nat -> State, actions: nat -> Action, n: nat)
    requires Endless(states, actions)
    ensures Inv(states(n))
  {
    if n > 0 {
      InvEndless(states, actions, n - 1);
      assert Goes(states, actions, n - 1);
      InvKept(states(n - 1), actions(n - 1));
    }
  }

  /** A turn told of everything pushed before it began. */
  lemma TurnTells(states: nat -> State, actions: nat -> Action, n: nat, i: nat) returns (m: nat)
    requires Endless(states, actions) && Fair(states, actions) && i < |states(n).services| && states(n).host.Turning?
    ensures n <= m && Out(states(n), i) <= ToldBy(states(m), i)
  {
    hide Out, ToldBy;
    var q := Out(states(n), i);
    assert GoesOn(states, actions, n);
    var begun: nat :| n <= begun && actions(begun) == Begin;
    assert Covered(states(n), i, q);
    CoveredOn(states, actions, n, begun + 1, i, q);
    assert Goes(states, actions, begun) && Delivers(states(begun + 1).host) && GoesOn(states, actions, begun + 1);
    m :| begun + 1 <= m && actions(m) == Delivered;
    CoveredOn(states, actions, begun + 1, m, i, q);
    assert Goes(states, actions, m) && Past(states(m).host, i);
  }

  /** A sleep that ended ended in a turn. */
  lemma {:induction false} Woken(states: nat -> State, actions: nat -> Action, n: nat, m: nat) returns (turn: nat)
    requires Endless(states, actions) && n <= m && states(n).host.Asleep? && !states(m).host.Asleep?
    ensures n <= turn && states(turn).host.Turning?
    decreases m - n
  {
    assert Goes(states, actions, n);
    if states(n + 1).host.Asleep? {
      turn := Woken(states, actions, n + 1, m);
    } else {
      turn := n + 1;
    }
  }

  /** Asleep with an answer queued, the loop turns again: the wake is not lost. */
  lemma SleepEnds(states: nat -> State, actions: nat -> Action, n: nat, i: nat) returns (turn: nat)
    requires Endless(states, actions) && Fair(states, actions) && i < |states(n).services|
    requires states(n).host.Asleep? && states(n).services[i].answers != []
    ensures n <= turn && states(turn).host.Turning?
  {
    hide Inv;
    InvEndless(states, actions, n);
    WakeOwed(states(n), i);
    assert GoesOn(states, actions, n);
    if states(n).services[i].wake > 0 {
      var m: nat :| n <= m && !states(m).host.Asleep?;
      turn := Woken(states, actions, n, m);
    } else {
      var m: nat :| n <= m && actions(m) == Write(i);
      assert Goes(states, actions, m);
      if states(m + 1).host.Asleep? {
        assert states(m + 1).services[i].wake > 0 && GoesOn(states, actions, m + 1);
        var k: nat :| m + 1 <= k && !states(k).host.Asleep?;
        turn := Woken(states, actions, n, k);
      } else {
        turn := Woken(states, actions, n, m + 1);
      }
    }
  }

  lemma WakeOwed(s: State, i: nat)
    requires Inv(s) && i < |s.services| && s.host.Asleep? && s.services[i].answers != []
    ensures s.services[i].wake > 0 || s.services[i].worker.Pushed?
  {
    assert Keeps(s, i);
  }

  /** Wherever the loop is, it turns again, leaves, or sleeps with nothing queued for the service. */
  lemma TurnsAgain(states: nat -> State, actions: nat -> Action, n: nat, i: nat) returns (m: nat)
    requires Endless(states, actions) && Fair(states, actions) && i < |states(n).services|
    ensures n <= m && i < |states(m).services|
    ensures states(m).host.Turning? || states(m).host.Leaving? ||
      (states(m).host.Asleep? && states(m).services[i].answers == [])
  {
    m := n;
    assert GoesOn(states, actions, m);
    if Delivers(states(m).host) {
      var k: nat :| m <= k && actions(k) == Delivered;
      assert Goes(states, actions, k);
      m := k + 1;
    }
    if states(m).host.Ending? {
      assert GoesOn(states, actions, m);
      var k: nat :| m <= k && (actions(k).Turn? || actions(k).Leave?);
      assert Goes(states, actions, k);
      m := k + 1;
    }
    OutOn(states, actions, n, m, i);
    if states(m).host.Asleep? && states(m).services[i].answers != [] {
      m := SleepEnds(states, actions, m, i);
      OutOn(states, actions, n, m, i);
    }
  }

  /** Every answer pushed is told in the end, unless the host leaves. */
  lemma EveryAnswerTold(states: nat -> State, actions: nat -> Action, n: nat, i: nat) returns (m: nat)
    requires Endless(states, actions) && Fair(states, actions) && i < |states(n).services|
    ensures n <= m && (states(m).host.Leaving? || Out(states(n), i) <= ToldBy(states(m), i))
  {
    m := TurnsAgain(states, actions, n, i);
    OutOn(states, actions, n, m, i);
    if states(m).host.Turning? {
      var turn := m;
      m := TurnTells(states, actions, turn, i);
    } else if states(m).host.Asleep? {
      assert Out(states(m), i) == ToldBy(states(m), i);
    }
  }

  // What deliver does not keep: a wake whose answer was already taken.

  /** A wake left over with nothing queued. */
  predicate Stale(s: State, i: nat) {
    i < |s.services| && s.services[i].wake > 0 && s.services[i].answers == [] && !(s.host.Draining? && s.host.at == i)
  }

  /** A write that comes after its answer was swapped out and the eventfd drained for it. */
  predicate WritesLate(s: State, a: Action, i: nat) {
    a == Write(i) && i < |s.services| && s.services[i].answers == [] && !(s.host.Draining? && s.host.at == i)
  }

  /** A step makes a wake stale exactly when it is such a write. */
  lemma StaleBegins(s: State, a: Action, i: nat)
    requires Enabled(s, a) && !Stale(s, i)
    ensures Stale(Do(s, a), i) <==> WritesLate(s, a, i)
  {
  }

  /** And ends it exactly when it queues the service's next answer: deliver drains only when it has one. */
  lemma StaleEnds(s: State, a: Action, i: nat)
    requires Enabled(s, a) && Stale(s, i)
    ensures !Stale(Do(s, a), i) <==> a == Push(i)
  {
  }

  /** So a stale wake stays readable through every step until the next answer's push. */
  lemma {:induction false} StaleStays(states: seq<State>, actions: seq<Action>, k: nat, m: nat, i: nat)
    requires Run(states, actions) && k <= m < |states| && i < |states[k].services| && Stale(states[k], i)
    requires forall j :: k <= j < m ==> actions[j] != Push(i)
    ensures i < |states[m].services| && Stale(states[m], i)
    decreases m
  {
    hide Enabled, Do;
    if k < m {
      StaleStays(states, actions, k, m - 1, i);
      assert Enabled(states[m - 1], actions[m - 1]) && states[m] == Do(states[m - 1], actions[m - 1]);
      StaleEnds(states[m - 1], actions[m - 1], i);
    }
  }

  /** Over a run: a wake is stale exactly when a write came late and no answer was queued since. */
  lemma {:induction false} StaleExactly(states: seq<State>, actions: seq<Action>, k: nat, i: nat)
    requires Run(states, actions) && k < |states|
    ensures Stale(states[k], i) <==>
            exists j :: 0 <= j < k && WritesLate(states[j], actions[j], i) &&
              forall l :: j < l < k ==> actions[l] != Push(i)
  {
    hide Stale, WritesLate, Enabled, Do;
    if k == 0 {
      NewIsFresh(states[0], i);
    } else {
      StaleExactly(states, actions, k - 1, i);
      assert Enabled(states[k - 1], actions[k - 1]) && states[k] == Do(states[k - 1], actions[k - 1]);
      LateIsWrite(states[k - 1], actions[k - 1], i);
      if Stale(states[k - 1], i) {
        StaleEnds(states[k - 1], actions[k - 1], i);
      } else {
        StaleBegins(states[k - 1], actions[k - 1], i);
      }
    }
  }

  lemma NewIsFresh(s: State, i: nat)
    requires Init(s)
    ensures !Stale(s, i)
  {
  }

  lemma LateIsWrite(s: State, a: Action, i: nat)
    ensures WritesLate(s, a, i) ==> a != Push(i)
  {
  }

  /** No wake is stale in a run if and only if no write in it came late. */
  lemma NeverStaleExactly(states: seq<State>, actions: seq<Action>, i: nat)
    requires Run(states, actions)
    ensures (forall k :: 0 <= k < |states| ==> !Stale(states[k], i)) <==>
            (forall j :: 0 <= j < |actions| ==> !WritesLate(states[j], actions[j], i))
  {
    hide Stale, WritesLate, Enabled, Do;
    forall k | 0 <= k < |states| && Stale(states[k], i)
      ensures exists j :: 0 <= j < |actions| && WritesLate(states[j], actions[j], i)
    {
      StaleExactly(states, actions, k, i);
    }
    forall j | 0 <= j < |actions| && WritesLate(states[j], actions[j], i)
      ensures exists k :: 0 <= k < |states| && Stale(states[k], i)
    {
      StaleExactly(states, actions, j + 1, i);
      assert Stale(states[j + 1], i);
    }
  }

  lemma StepsJoin(a: seq<State>, x: seq<Action>, b: seq<State>, y: seq<Action>)
    requires Steps(a, x) && Steps(b, y) && a[|a| - 1] == b[0]
    ensures Steps(a + b[1..], x + y)
  {
    var states, actions := a + b[1..], x + y;
    forall k | 0 <= k < |actions| ensures Enabled(states[k], actions[k]) && states[k + 1] == Do(states[k], actions[k]) {
      if k < |x| {
        assert states[k] == a[k] && states[k + 1] == a[k + 1] && actions[k] == x[k];
      } else {
        assert actions[k] == y[k - |x|] && states[k] == b[k - |x|] && states[k + 1] == b[k - |x| + 1];
      }
    }
  }

  const JOB := Job(0, true)

  /** AsyncStorage with one request in some stage of it. */
  function Storage(requests: seq<Job>, answers: seq<Job>, wake: nat, worker: Worker, performed: seq<Job>,
      told: seq<Job>): State {
    State([Service(AsyncStorage, requests, answers, wake, false, worker, [JOB], performed, told)], Turning(false), 0)
  }

  const QUEUED := Storage([], [JOB], 0, Pushed, [JOB], [])

  const UNWRITTEN := Storage([], [], 0, Pushed, [JOB], [JOB]).(host := Ending(true))

  /**
   The loop idle and asleep, the worker waiting, nothing asked or queued, and the eventfd readable: only a new answer
   ends it.
   */
  lemma SleepsAwake() returns (states: seq<State>, actions: seq<Action>)
    ensures Run(states, actions)
    ensures var s := states[|states| - 1];
            s.host.Asleep? && |s.services| == 1 && Stale(s, 0) && s.services[0].requests == [] &&
              s.services[0].worker.Waiting?
  {
    var a, x := Answers();
    var b, y := Drains();
    var c, z := Tells();
    var d, w := FallsAsleep();
    StepsJoin(a, x, b, y);
    StepsJoin(a + b[1..], x + y, c, z);
    StepsJoin(a + b[1..] + c[1..], x + y + z, d, w);
    states, actions := a + b[1..] + c[1..] + d[1..], x + y + z + w;
  }

  /** Asked, performed, its answer pushed. */
  lemma Answers() returns (states: seq<State>, actions: seq<Action>)
    ensures Steps(states, actions) && Init(states[0]) && states[|states| - 1] == QUEUED
  {
    var s := State([NewService(AsyncStorage)], Turning(false), 0);
    var a, b, c := Storage([JOB], [], 0, Waiting, [], []), Storage([], [], 0, Performing(JOB), [], []),
      Storage([], [], 0, Answering(JOB), [JOB], []);
    states, actions := [s, a, b, c, QUEUED], [Ask(0, true), Take(0), Perform(0), Push(0)];
    assert [JOB][1..] == [] && [] + [JOB] == [JOB];
    assert Do(s, Ask(0, true)) == a && Do(a, Take(0)) == b && Do(b, Perform(0)) == c && Do(c, Push(0)) == QUEUED;
  }

  const TAKEN := Storage([], [], 0, Pushed, [JOB], []).(host := Telling(0, [JOB], false))

  /** Swapped out and drained before the worker writes. */
  lemma Drains() returns (states: seq<State>, actions: seq<Action>)
    ensures Steps(states, actions) && states[0] == QUEUED && states[|states| - 1] == TAKEN
  {
    var a, b := QUEUED.(host := Delivering(0, false)), TAKEN.(host := Draining(0, [JOB], false));
    states, actions := [QUEUED, a, b, TAKEN], [Begin, Swap, Drained];
    assert Do(QUEUED, Begin) == a && Do(a, Swap) == b && Do(b, Drained) == TAKEN;
  }

  /** Told, and nothing more to deliver. */
  lemma Tells() returns (states: seq<State>, actions: seq<Action>)
    ensures Steps(states, actions) && states[0] == TAKEN && states[|states| - 1] == UNWRITTEN
  {
    var d, e := UNWRITTEN.(host := Telling(0, [], false)), UNWRITTEN.(host := Delivering(1, true));
    states, actions := [TAKEN, d, e, UNWRITTEN], [Tell, Told, Delivered];
    assert [JOB][1..] == [] && [] + [JOB] == [JOB];
    assert Do(TAKEN, Tell) == d && Do(d, Told) == e && Do(e, Delivered) == UNWRITTEN;
  }

  /** The write comes, and two idle turns. */
  lemma FallsAsleep() returns (states: seq<State>, actions: seq<Action>)
    ensures Steps(states, actions) && states[0] == UNWRITTEN
    ensures var s := states[|states| - 1];
            s.host.Asleep? && |s.services| == 1 && Stale(s, 0) && s.services[0].requests == [] &&
              s.services[0].worker.Waiting?
  {
    var quiet := Storage([], [], 1, Waiting, [JOB], [JOB]);
    var a := quiet.(host := Ending(true));
    var b, y := IdleTurn(quiet);
    var c, z := IdleTurn(quiet.(idleTurns := 1));
    assert Do(UNWRITTEN, Write(0)) == a && Do(a, Turn(false)) == quiet;
    StepsJoin([UNWRITTEN, a, quiet], [Write(0), Turn(false)], b, y);
    StepsJoin([UNWRITTEN, a, quiet] + b[1..], [Write(0), Turn(false)] + y, c, z);
    states, actions := [UNWRITTEN, a, quiet] + b[1..] + c[1..], [Write(0), Turn(false)] + y + z;
  }

  lemma IdleTurn(s: State) returns (states: seq<State>, actions: seq<Action>)
    requires s == Storage([], [], 1, Waiting, [JOB], [JOB]).(idleTurns := s.idleTurns)
    ensures Steps(states, actions) && states[0] == s
    ensures states[|states| - 1] ==
      s.(idleTurns := s.idleTurns + 1, host := if s.idleTurns + 1 >= 2 then Asleep else Turning(false))
  {
    var a, b, c := s.(host := Delivering(0, false)), s.(host := Delivering(1, false)), s.(host := Ending(false));
    states, actions := [s, a, b, c, Do(c, Turn(false))], [Begin, Swap, Delivered, Turn(false)];
    assert Do(s, Begin) == a && Do(a, Swap) == b && Do(b, Delivered) == c;
  }
}
