/** Three threads and a main thread meeting over two semaphores: sem[0] holds the
    threads back, sem[1] tells the main thread of their progress. Every operation
    is one step; threads and main interleave freely. */
module Rendezvous {

  const THREADS := 3

  /** Where a thread is in `start_routine`. */
  datatype Place =
    | Begin      // before its first signal of sem[1]
    | Ready      // before waiting on sem[0]
    | Blocked    // waiting on sem[0]
    | Passed     // past sem[0], before its second signal of sem[1]
    | Finished

  /** What `main` does next. `Collect(n)` waits on sem[1] for the n-th signal. */
  datatype Main = Create(k: nat) | Collect(n: nat) | SignalThird | SignalAll | Destroy | Gone

  datatype State = State(main: Main, threads: seq<Place>, sem0: nat, sem1: nat)

  const INITIAL := State(Create(0), [Begin, Begin, Begin], 0, 0)

  datatype Event = MainStep | ThreadStep(i: nat)

  /** A thread has been created, and has something to do. */
  predicate ThreadEnabled(s: State, i: nat) {
    && i < |s.threads| && (s.main.Create? ==> i < s.main.k)
    && !s.threads[i].Blocked? && !s.threads[i].Finished?
  }

  predicate MainEnabled(s: State) {
    && !s.main.Gone?
    && (s.main.Collect? ==> s.sem1 > 0)
    && |s.threads| == THREADS
  }

  predicate Enabled(s: State, e: Event) {
    match e
    case MainStep => MainEnabled(s)
    case ThreadStep(i) => ThreadEnabled(s, i)
  }

  function AfterThread(s: State, i: nat): State
    requires ThreadEnabled(s, i)
  {
    match s.threads[i]
    case Begin => s.(threads := s.threads[i := Ready], sem1 := s.sem1 + 1)
    case Ready =>
      if s.sem0 > 0 then s.(threads := s.threads[i := Passed], sem0 := s.sem0 - 1)
      else s.(threads := s.threads[i := Blocked])
    case Passed => s.(threads := s.threads[i := Finished], sem1 := s.sem1 + 1)
    case _ => s
  }

  function Wake(p: Place): Place {
    if p.Blocked? then Passed else p
  }

  function AfterMain(s: State): State
    requires MainEnabled(s)
  {
    match s.main
    case Create(k) => s.(main := if k < THREADS then Create(k + 1) else Collect(1))
    case Collect(n) =>
      s.(sem1 := s.sem1 - 1,
         main := if n == 3 then SignalThird else if n == 4 then SignalAll else if n == 6 then Destroy else Collect(n + 1))
    case SignalThird => s.(main := Collect(4), threads := s.threads[2 := Wake(s.threads[2])])   // lost unless it waits
    case SignalAll => s.(main := Collect(5), threads := [Wake(s.threads[0]), Wake(s.threads[1]), Wake(s.threads[2])])
    case Destroy => s.(main := Gone)
    case Gone => s
  }

  function Next(s: State, e: Event): State
    requires Enabled(s, e)
  {
    match e
    case MainStep => AfterMain(s)
    case ThreadStep(i) => AfterThread(s, i)
  }

  // ----- counting signals -----

  /** Signals of sem[1] a thread has sent. */
  function Sent(p: Place): nat {
    match p
    case Begin => 0
    case Finished => 2
    case _ => 1
  }

  function TotalSent(s: State): nat
    requires |s.threads| == THREADS
  {
    Sent(s.threads[0]) + Sent(s.threads[1]) + Sent(s.threads[2])
  }

  /** Signals of sem[1] `main` has taken. */
  function Taken(m: Main): int {
    match m
    case Create(_) => 0
    case Collect(n) => n - 1
    case SignalThird => 3
    case SignalAll => 4
    case _ => 6
  }

  predicate IsPast(p: Place) {
    p.Passed? || p.Finished?
  }

  predicate Inv(s: State) {
    && |s.threads| == THREADS && s.sem0 == 0
    && s.sem1 + Taken(s.main) == TotalSent(s)
    && (s.main.Create? ==> s.main.k <= THREADS) && (s.main.Collect? ==> 1 <= s.main.n <= 6)
    // before the third thread is signalled nobody is past sem[0]
    && ((s.main.Create? || s.main.SignalThird? || (s.main.Collect? && s.main.n <= 3)) ==>
          forall i :: 0 <= i < THREADS ==> !IsPast(s.threads[i]))
    // before all are signalled only the third thread is
    && ((s.main.SignalAll? || (s.main.Collect? && s.main.n == 4)) ==> !IsPast(s.threads[0]) && !IsPast(s.threads[1]))
    && (s.main.SignalAll? ==> s.threads[2].Finished?)
    && ((s.main.Collect? && s.main.n > 4) || s.main.Destroy? || s.main.Gone? ==> s.threads[2].Finished?)
    && ((s.main.SignalThird? || s.main.SignalAll? || s.main.Destroy? || s.main.Gone? || (s.main.Collect? && s.main.n > 3)) ==>
          forall i :: 0 <= i < THREADS ==> !s.threads[i].Begin?)
  }

  lemma InvInitially()
    ensures Inv(INITIAL)
  {
  }

  lemma InvPreserved(s: State, e: Event)
    requires Inv(s) && Enabled(s, e)
    ensures Inv(Next(s, e))
  {
  }

  // ----- runs -----

  predicate IsRun(states: seq<State>, events: seq<Event>) {
    && |states| == |events| + 1
    && forall k :: 0 <= k < |events| ==> Enabled(states[k], events[k]) && states[k + 1] == Next(states[k], events[k])
  }

  lemma {:induction false} RunKeepsInv(states: seq<State>, events: seq<Event>, k: nat)
    requires IsRun(states, events) && states[0] == INITIAL && k <= |events|
    ensures Inv(states[k])
  {
    if k == 0 {
      InvInitially();
    } else {
      RunKeepsInv(states, events, k - 1);
      InvPreserved(states[k - 1], events[k - 1]);
    }
  }

  /** In every interleaving: no thread is past sem[0] before all three have said
      they are ready; the third is past it before the other two; and when the
      semaphores are destroyed no thread has a use of them left. */
  lemma RunMeets(states: seq<State>, events: seq<Event>, k: nat, i: nat)
    requires IsRun(states, events) && states[0] == INITIAL && k <= |events| && i < THREADS
    ensures var s := states[k];
      && |s.threads| == THREADS
      && (IsPast(s.threads[i]) ==> forall j :: 0 <= j < THREADS ==> !s.threads[j].Begin?)
      && (IsPast(s.threads[i]) ==> IsPast(s.threads[2]))
      && (s.main.Gone? ==> s.threads[i].Finished?)
  {
    RunKeepsInv(states, events, k);
  }

  // ----- the wakeups that can be lost -----

  /** Main waits for a signal of a thread that its own signal did not release. */
  predicate Stuck(s: State) {
    && |s.threads| == THREADS && s.main.Collect?
    && ((s.main.n == 4 && !IsPast(s.threads[2])) || (s.main.n > 4 && !(IsPast(s.threads[0]) && IsPast(s.threads[1]))))
  }

  /** Whoever main signals in this step waits already. */
  predicate Arrives(s: State, e: Event) {
    e.MainStep? && |s.threads| == THREADS ==>
      && (s.main.SignalThird? ==> s.threads[2].Blocked?)
      && (s.main.SignalAll? ==> s.threads[0].Blocked? && s.threads[1].Blocked?)
  }

  /** A step gets main stuck exactly if it is a signal that does not arrive, and
      never gets it unstuck. */
  lemma SticksByLostSignal(s: State, e: Event)
    requires Inv(s) && Enabled(s, e)
    ensures Stuck(Next(s, e)) <==> Stuck(s) || !Arrives(s, e)
  {
  }

  /** Following the events, main comes to destroy the semaphores. */
  predicate Finishes(s: State, events: seq<Event>)
    decreases |events|
  {
    || s.main.Destroy? || s.main.Gone?
    || (events != [] && Enabled(s, events[0]) && Finishes(Next(s, events[0]), events[1..]))
  }

  ghost predicate MayFinish(s: State) {
    exists events :: Finishes(s, events)
  }

  lemma {:induction false} StuckForever(s: State, events: seq<Event>)
    requires Inv(s) && Stuck(s)
    ensures !Finishes(s, events)
    decreases |events|
  {
    if events != [] && Enabled(s, events[0]) {
      InvPreserved(s, events[0]);
      SticksByLostSignal(s, events[0]);
      StuckForever(Next(s, events[0]), events[1..]);
    }
  }

  function ThreadLeft(p: Place): nat {
    match p
    case Begin => 4
    case Ready => 3
    case Blocked => 2
    case Passed => 1
    case Finished => 0
  }

  function MainLeft(m: Main): nat {
    match m
    case Create(k) => if k <= THREADS then 13 + THREADS - k else 13
    case Collect(n) => if n <= 3 then 13 - n else if n == 4 then 8 else if n <= 6 then 11 - n else 5
    case SignalThird => 9
    case SignalAll => 7
    case Destroy => 1
    case Gone => 0
  }

  /** Steps still to come at most. */
  function Left(s: State): nat
    requires |s.threads| == THREADS
  {
    MainLeft(s.main) + ThreadLeft(s.threads[0]) + ThreadLeft(s.threads[1]) + ThreadLeft(s.threads[2])
  }

  lemma StepsShorten(s: State, e: Event)
    requires Inv(s) && Enabled(s, e) && !s.main.Gone?
    ensures |Next(s, e).threads| == THREADS && Left(Next(s, e)) < Left(s)
  {
  }

  /** With main not stuck, and no thread able to go on, main is. */
  lemma SomeoneGoesOn(s: State)
    requires Inv(s) && !Stuck(s) && !s.main.Gone?
    requires !ThreadEnabled(s, 0) && !ThreadEnabled(s, 1) && !ThreadEnabled(s, 2)
    ensures MainEnabled(s) && Arrives(s, MainStep)
  {
  }

  function NextThread(s: State): nat {
    if ThreadEnabled(s, 0) then 0 else if ThreadEnabled(s, 1) then 1 else 2
  }

  /** Unless main is stuck some way on leads to the end: let the threads go first. */
  lemma {:induction false} GoesOn(s: State) returns (events: seq<Event>)
    requires Inv(s) && !Stuck(s)
    ensures Finishes(s, events)
    decreases Left(s)
  {
    events := [];
    if !s.main.Destroy? && !s.main.Gone? {
      var i := NextThread(s);
      var e := if ThreadEnabled(s, i) then ThreadStep(i) else MainStep;
      if e.MainStep? {
        SomeoneGoesOn(s);
      }
      StepOn(s, e);
      hide Inv, Stuck, Next, Enabled;
      var rest := GoesOn(Next(s, e));
      events := [e] + rest;
      assert events[1..] == rest;
    }
  }

  lemma StepOn(s: State, e: Event)
    requires Inv(s) && !Stuck(s) && Enabled(s, e) && Arrives(s, e) && !s.main.Gone?
    ensures Inv(Next(s, e)) && !Stuck(Next(s, e)) && |s.threads| == THREADS == |Next(s, e).threads|
    ensures Left(Next(s, e)) < Left(s)
  {
    InvPreserved(s, e);
    SticksByLostSignal(s, e);
    StepsShorten(s, e);
  }

  /** Main may still come to destroy the semaphores exactly when it is not stuck. */
  lemma FinishesUnlessStuck(s: State)
    requires Inv(s)
    ensures MayFinish(s) <==> !Stuck(s)
  {
    if Stuck(s) {
      forall events ensures !Finishes(s, events) {
        StuckForever(s, events);
      }
    } else {
      var events := GoesOn(s);
    }
  }

  /** No signal of main's has been lost in the first k steps. */
  predicate AllArrived(states: seq<State>, events: seq<Event>, k: nat)
    requires k <= |events| && k <= |states|
  {
    forall j :: 0 <= j < k ==> Arrives(states[j], events[j])
  }

  lemma OneMoreArrived(states: seq<State>, events: seq<Event>, k: nat)
    requires 0 < k <= |events| && k <= |states|
    ensures AllArrived(states, events, k) <==>
              AllArrived(states, events, k - 1) && Arrives(states[k - 1], events[k - 1])
  {
    hide Arrives;
  }

  lemma StepMayFinish(s: State, e: Event)
    requires Inv(s) && Enabled(s, e)
    ensures MayFinish(Next(s, e)) <==> MayFinish(s) && Arrives(s, e)
  {
    hide Next, Enabled, Inv, Stuck, MayFinish, Arrives;
    InvPreserved(s, e);
    FinishesUnlessStuck(s);
    FinishesUnlessStuck(Next(s, e));
    SticksByLostSignal(s, e);
  }

  lemma MayFinishAtFirst(states: seq<State>, events: seq<Event>)
    ensures MayFinish(INITIAL) && AllArrived(states, events, 0)
  {
    hide MayFinish, Inv;
    InvInitially();
    FinishesUnlessStuck(INITIAL);
  }

  /** After any run, main may still come to destroy the semaphores if and only if
      the third thread was blocked when it was signalled and the other two were
      when all were, so far as that has happened. */
  lemma {:induction false} RunMayFinish(states: seq<State>, events: seq<Event>, k: nat)
    requires IsRun(states, events) && states[0] == INITIAL && k <= |events|
    ensures MayFinish(states[k]) <==> AllArrived(states, events, k)
  {
    hide Inv, Next, Enabled, Arrives, MayFinish, AllArrived;
    if k == 0 {
      MayFinishAtFirst(states, events);
    } else {
      RunKeepsInv(states, events, k - 1);
      RunMayFinish(states, events, k - 1);
      OneMoreArrived(states, events, k);
      StepMayFinish(states[k - 1], events[k - 1]);
    }
  }
}
