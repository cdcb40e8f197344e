/** The vnode watcher's user clients, the listener callbacks that fill their data
    queues, and the protocol by which a client stops listening before its queue
    is released. Any number of clients and of concurrent callbacks; each step of
    a callback and each access a client makes to shared state is one event. */
module VnodeWatcher {

  import opened Wrappers

  /** Where a user client is: `Running` between calls, `Opening` inside `open`,
      and from `Unlistening` on inside `terminate` and then `stop`. */
  datatype Place = Running | Opening | Unlistening | Draining | Stopping | Notified | Released

  /** `listeners` counts the registrations the kernel holds for the client;
      `listener` says whether fListener is not NULL. */
  datatype Client = Client(place: Place, listener: bool, listeners: nat)

  /** A callback between its increment and its decrement of the counter;
      `pending` until it has enqueued its record or skipped it. */
  datatype Inside = Inside(client: nat, pending: bool)

  /** `waiting` holds the callbacks the kernel has called but that have not yet
      counted themselves, each with the client whose queue is its cookie. */
  datatype State = State(
    clients: seq<Client>, provider: Option<nat>, waiting: map<nat, nat>, inside: map<nat, Inside>, invocations: int)

  function Initial(n: nat): State {
    State(seq(n, _ => Client(Running, false, 0)), None, map[], map[], 0)
  }

  datatype Event =
    | Open(k: nat)
    | StartLogging(k: nat, registered: bool)   // kauth_listen_scope may return NULL
    | Close(k: nat)
    | Terminate(k: nat)                        // clientClose, or terminate by itself
    | Unlisten(k: nat)
    | Drain(k: nat)                            // the loop of stopLogging ends
    | SendStop(k: nat)
    | Release(k: nat)
    | Dispatch(c: nat, to: nat)
    | Enter(c: nat)
    | Enqueue(c: nat)
    | SkipLogFile(c: nat)
    | Leave(c: nat)

  predicate IsAt(s: State, k: nat, p: Place) {
    k < |s.clients| && s.clients[k].place == p
  }

  predicate Enabled(s: State, e: Event) {
    match e
    case Open(k) => IsAt(s, k, Running)
    case StartLogging(k, _) => IsAt(s, k, Opening)
    case Close(k) => IsAt(s, k, Running)
    case Terminate(k) => IsAt(s, k, Running)
    case Unlisten(k) => IsAt(s, k, Unlistening) && (s.clients[k].listener ==> s.clients[k].listeners > 0)
    case Drain(k) => IsAt(s, k, Draining) && !(s.invocations > 0)
    case SendStop(k) => IsAt(s, k, Stopping)
    case Release(k) => IsAt(s, k, Notified)
    case Dispatch(c, k) => k < |s.clients| && s.clients[k].listeners > 0 && c !in s.waiting && c !in s.inside
    case Enter(c) => c in s.waiting && c !in s.inside
    case Enqueue(c) => c in s.inside && s.inside[c].pending
    case SkipLogFile(c) => c in s.inside && s.inside[c].pending
    case Leave(c) => c in s.inside && !s.inside[c].pending
  }

  function Update(s: State, k: nat, client: Client): State
    requires k < |s.clients|
  {
    s.(clients := s.clients[k := client])
  }

  /** fProvider->close, if this client has it open. */
  function CloseProvider(s: State, k: nat): State {
    if s.provider == Some(k) then s.(provider := None) else s
  }

  function Next(s: State, e: Event): State
    requires Enabled(s, e)
  {
    match e
    case Open(k) =>
      if s.provider.Some? then s   // kIOReturnExclusiveAccess
      else Update(s.(provider := Some(k)), k, s.clients[k].(place := Opening))
    case StartLogging(k, registered) =>
      Update(s, k, Client(Running, registered, s.clients[k].listeners + if registered then 1 else 0))
    case Close(k) => CloseProvider(s, k)
    case Terminate(k) => Update(CloseProvider(s, k), k, s.clients[k].(place := Unlistening))
    case Unlisten(k) =>
      Update(s, k, Client(Draining, false, s.clients[k].listeners - if s.clients[k].listener then 1 else 0))
    case Drain(k) => Update(s, k, s.clients[k].(place := Stopping))
    case SendStop(k) => Update(s, k, s.clients[k].(place := Notified))
    case Release(k) => Update(s, k, s.clients[k].(place := Released))
    case Dispatch(c, k) => s.(waiting := s.waiting[c := k])
    case Enter(c) =>
      s.(waiting := s.waiting - {c}, inside := s.inside[c := Inside(s.waiting[c], true)], invocations := s.invocations + 1)
    case Enqueue(c) => s.(inside := s.inside[c := s.inside[c].(pending := false)])
    case SkipLogFile(c) => s.(inside := s.inside[c := s.inside[c].(pending := false)])
    case Leave(c) => s.(inside := s.inside - {c}, invocations := s.invocations - 1)
  }

  // ----- what the drain must prevent -----

  /** A callback enqueues into client k's queue. */
  predicate Fills(s: State, e: Event, k: nat) {
    e.Enqueue? && e.c in s.inside && s.inside[e.c].client == k
  }

  /** `stop` may run: the client has left the loop of stopLogging. */
  predicate IsDrained(s: State, k: nat) {
    k < |s.clients| && (s.clients[k].place.Stopping? || s.clients[k].place.Notified? || s.clients[k].place.Released?)
  }

  /** Following `events` from s, a callback uses client k's queue after its release. */
  predicate UsesReleased(s: State, events: seq<Event>, k: nat)
    decreases |events|
  {
    && events != [] && Enabled(s, events[0])
    && ((Fills(s, events[0], k) && IsAt(s, k, Released)) || UsesReleased(Next(s, events[0]), events[1..], k))
  }

  /** From s, some run has a callback use client k's queue after its release. */
  ghost predicate MayUseReleased(s: State, k: nat) {
    exists events :: UsesReleased(s, events, k)
  }

  /** Client k holds a registration that its fListener no longer names. */
  predicate HasLeaked(s: State, k: nat) {
    k < |s.clients| && s.clients[k].listeners > if s.clients[k].listener then 1 else 0
  }

  // ----- what every run keeps -----

  /** The counter is the number of callbacks that have counted themselves. */
  predicate IsCounted(s: State) {
    s.invocations == |s.inside| && s.waiting.Keys !! s.inside.Keys
  }

  /** An fListener that is held is registered, and is gone once unlistened. */
  predicate IsHeld(s: State, k: nat) {
    k < |s.clients| ==>
      && (s.clients[k].listener ==> s.clients[k].listeners > 0)
      && (s.clients[k].place.Draining? || IsDrained(s, k) ==> !s.clients[k].listener)
  }

  predicate Inv(s: State) {
    IsCounted(s) && forall k :: 0 <= k < |s.clients| ==> IsHeld(s, k)
  }

  lemma RemovesOne<K, V>(m: map<K, V>, key: K)
    requires key in m
    ensures |m - {key}| == |m| - 1
  {
    assert m == (m - {key})[key := m[key]];
  }

  lemma CountPreserved(s: State, e: Event)
    requires IsCounted(s) && Enabled(s, e)
    ensures IsCounted(Next(s, e))
  {
    if e.Leave? {
      RemovesOne(s.inside, e.c);
    }
  }

  lemma HeldPreserved(s: State, e: Event, k: nat)
    requires IsHeld(s, k) && Enabled(s, e)
    ensures IsHeld(Next(s, e), k)
  {
  }

  lemma InvPreserved(s: State, e: Event)
    requires Inv(s) && Enabled(s, e)
    ensures Inv(Next(s, e))
  {
    CountPreserved(s, e);
    hide IsCounted, IsHeld;
    forall k | 0 <= k < |s.clients| ensures IsHeld(Next(s, e), k) {
      HeldPreserved(s, e, k);
    }
  }

  // ----- once drained -----

  /** No callback can come to use client k's queue any more. */
  predicate IsQuiet(s: State, k: nat) {
    && IsDrained(s, k) && s.clients[k].listeners == 0
    && (forall c :: c in s.waiting ==> s.waiting[c] != k)
    && (forall c :: c in s.inside && s.inside[c].pending ==> s.inside[c].client != k)
  }

  lemma QuietStays(s: State, e: Event, k: nat)
    requires IsQuiet(s, k) && Enabled(s, e)
    ensures IsQuiet(Next(s, e), k) && !Fills(s, e, k)
  {
  }

  lemma {:induction false} QuietIsSafe(s: State, events: seq<Event>, k: nat)
    requires IsQuiet(s, k)
    ensures !UsesReleased(s, events, k)
    decreases |events|
  {
    if events != [] && Enabled(s, events[0]) {
      QuietStays(s, events[0], k);
      QuietIsSafe(Next(s, events[0]), events[1..], k);
    }
  }

  lemma QuietStaysSafe(s: State, k: nat)
    requires IsQuiet(s, k)
    ensures !MayUseReleased(s, k)
  {
    forall events ensures !UsesReleased(s, events, k) {
      QuietIsSafe(s, events, k);
    }
  }

  lemma {:induction false} Above(s: set<nat>) returns (bound: nat)
    ensures forall x :: x in s ==> x < bound
  {
    if s == {} {
      bound := 0;
    } else {
      var x :| x in s;
      bound := Above(s - {x});
      bound := if bound <= x then x + 1 else bound;
      assert s == {x} + (s - {x});
    }
  }

  /** A callback that is waiting outlives the drain: it counts itself too late. */
  lemma LateCallback(s: State, c: nat, k: nat)
    requires IsAt(s, k, Released) && c in s.waiting && s.waiting[c] == k && c !in s.inside
    ensures UsesReleased(s, [Enter(c), Enqueue(c)], k)
  {
    var t := Next(s, Enter(c));
    assert Fills(t, Enqueue(c), k);
    assert [Enter(c), Enqueue(c)][1..] == [Enqueue(c)];
    assert UsesReleased(t, [Enqueue(c)], k);
  }

  lemma Stops(s: State, k: nat, more: seq<Event>)
    requires IsAt(s, k, Stopping)
    requires UsesReleased(Update(s, k, s.clients[k].(place := Released)), more, k)
    ensures UsesReleased(s, [SendStop(k), Release(k)] + more, k)
  {
    var t := Next(s, SendStop(k));
    assert Next(t, Release(k)) == Update(s, k, s.clients[k].(place := Released));
    assert ([SendStop(k), Release(k)] + more)[1..] == [Release(k)] + more;
    assert ([Release(k)] + more)[1..] == more;
    assert UsesReleased(t, [Release(k)] + more, k);
  }

  /** A registration nobody can remove goes on calling back. */
  lemma LeakedListener(s: State, k: nat) returns (events: seq<Event>)
    requires IsAt(s, k, Released) && s.clients[k].listeners > 0 && s.inside == map[]
    ensures UsesReleased(s, events, k)
  {
    var c := Above(s.waiting.Keys);
    assert c !in s.waiting.Keys;
    LateCallback(Next(s, Dispatch(c, k)), c, k);
    events := [Dispatch(c, k), Enter(c), Enqueue(c)];
    assert events[1..] == [Enter(c), Enqueue(c)];
  }

  lemma DrainLeavesUse(s: State, k: nat)
    requires Inv(s) && Enabled(s, Drain(k))
    requires HasLeaked(s, k) || exists c :: c in s.waiting && s.waiting[c] == k
    ensures MayUseReleased(Next(s, Drain(k)), k)
  {
    var t := Next(s, Drain(k));
    var u := Update(t, k, t.clients[k].(place := Released));
    assert s.inside == map[];
    var events;
    if HasLeaked(s, k) {
      events := LeakedListener(u, k);
    } else {
      var c :| c in s.waiting && s.waiting[c] == k;
      LateCallback(u, c, k);
      events := [Enter(c), Enqueue(c)];
    }
    Stops(t, k, events);
  }

  lemma DrainQuiets(s: State, k: nat)
    requires Inv(s) && Enabled(s, Drain(k)) && !HasLeaked(s, k)
    requires forall c :: c in s.waiting ==> s.waiting[c] != k
    ensures IsQuiet(Next(s, Drain(k)), k)
  {
    assert IsHeld(s, k) && s.inside == map[];
  }

  /** When the loop of stopLogging ends for client k, a callback can still come to
      use k's released queue exactly if one has been called and not yet counted
      itself, or k registered a second time over an fListener it still held. */
  lemma DrainSuffices(s: State, k: nat)
    requires Inv(s) && Enabled(s, Drain(k))
    ensures MayUseReleased(Next(s, Drain(k)), k) <==>
              HasLeaked(s, k) || exists c :: c in s.waiting && s.waiting[c] == k
  {
    hide Next, Inv, IsQuiet, HasLeaked, MayUseReleased;
    if HasLeaked(s, k) || exists c :: c in s.waiting && s.waiting[c] == k {
      DrainLeavesUse(s, k);
    } else {
      DrainQuiets(s, k);
      QuietStaysSafe(Next(s, Drain(k)), k);
    }
  }

  /** A registration leaks exactly when logging starts while fListener is held. */
  lemma LeaksByRestart(s: State, e: Event, k: nat)
    requires Inv(s) && Enabled(s, e)
    ensures HasLeaked(Next(s, e), k) <==>
              HasLeaked(s, k) || (e.StartLogging? && e.k == k && s.clients[k].listener)
  {
    assert k < |s.clients| ==> IsHeld(s, k);
  }

  // ----- runs -----

  predicate IsRun(states: seq<State>, events: seq<Event>) {
    && |states| == |events| + 1
    && forall i :: 0 <= i < |events| ==> Enabled(states[i], events[i]) && states[i + 1] == Next(states[i], events[i])
  }

  /** The counter is the number of callbacks between entry and exit, in every run. */
  lemma {:induction false} RunCounts(n: nat, states: seq<State>, events: seq<Event>, i: nat)
    requires IsRun(states, events) && states[0] == Initial(n) && i <= |events|
    ensures Inv(states[i]) && states[i].invocations == |states[i].inside|
  {
    if i > 0 {
      RunCounts(n, states, events, i - 1);
      InvPreserved(states[i - 1], events[i - 1]);
    }
  }

  /** Dispatching a callback and its increment of the counter are one step. */
  predicate EntersAtOnce(events: seq<Event>) {
    forall i :: 0 <= i < |events| && events[i].Dispatch? ==> i + 1 < |events| && events[i + 1] == Enter(events[i].c)
  }

  /** Logging never starts while fListener is held, as when a client opens once. */
  predicate StartsOnce(states: seq<State>, events: seq<Event>)
    requires IsRun(states, events)
  {
    forall i :: 0 <= i < |events| && events[i].StartLogging? ==> !states[i].clients[events[i].k].listener
  }

  lemma NoneInitially(n: nat, k: nat)
    ensures !HasLeaked(Initial(n), k) && !IsDrained(Initial(n), k)
  {
  }

  lemma {:induction false} NothingLeaks(n: nat, states: seq<State>, events: seq<Event>, i: nat, k: nat)
    requires IsRun(states, events) && states[0] == Initial(n) && i <= |events|
    requires StartsOnce(states, events)
    ensures !HasLeaked(states[i], k)
  {
    hide Next, HasLeaked, Inv;
    if i == 0 {
      NoneInitially(n, k);
    } else {
      NothingLeaks(n, states, events, i - 1, k);
      RunCounts(n, states, events, i - 1);
      LeaksByRestart(states[i - 1], events[i - 1], k);
    }
  }

  /** Nobody is waiting but the callback just called. */
  lemma {:induction false} NobodyWaits(n: nat, states: seq<State>, events: seq<Event>, i: nat)
    requires IsRun(states, events) && states[0] == Initial(n) && i <= |events| && EntersAtOnce(events)
    ensures states[i].waiting ==
            if i > 0 && events[i - 1].Dispatch? then map[events[i - 1].c := events[i - 1].to] else map[]
  {
    if i > 0 {
      NobodyWaits(n, states, events, i - 1);
    }
  }

  lemma DrainsNow(s: State, e: Event, k: nat)
    requires Enabled(s, e) && !IsDrained(s, k) && IsDrained(Next(s, e), k)
    ensures e == Drain(k) && Next(s, e).waiting == s.waiting
  {
  }

  lemma {:induction false} DrainedIsQuiet(n: nat, states: seq<State>, events: seq<Event>, i: nat, k: nat)
    requires IsRun(states, events) && states[0] == Initial(n) && i <= |events|
    requires EntersAtOnce(events) && StartsOnce(states, events)
    requires IsDrained(states[i], k)
    ensures IsQuiet(states[i], k)
  {
    hide Next, Enabled, Inv, IsQuiet, IsDrained, HasLeaked, EntersAtOnce, StartsOnce;
    if i == 0 {
      NoneInitially(n, k);
    } else {
      var s, e := states[i - 1], events[i - 1];
      if IsDrained(s, k) {
        DrainedIsQuiet(n, states, events, i - 1, k);
        QuietStays(s, e, k);
      } else {
        DrainsNow(s, e, k);
        RunCounts(n, states, events, i - 1);
        NothingLeaks(n, states, events, i - 1, k);
        NobodyWaits(n, states, events, i);
        DrainQuiets(s, k);
      }
    }
  }

  /** With entry at once and logging started once, no callback ever enqueues into a
      client's queue after `stop` has begun there: the stop message is the last
      one, and the queue is not used once it is released. */
  lemma StopIsLast(n: nat, states: seq<State>, events: seq<Event>, i: nat, k: nat)
    requires IsRun(states, events) && states[0] == Initial(n) && i < |events|
    requires EntersAtOnce(events) && StartsOnce(states, events)
    requires IsDrained(states[i], k)
    ensures !Fills(states[i], events[i], k)
  {
    DrainedIsQuiet(n, states, events, i, k);
    QuietStays(states[i], events[i], k);
  }

  // ----- one client at a time -----

  /** A client inside `open` has the provider. */
  predicate OpenerOwns(s: State) {
    forall k :: 0 <= k < |s.clients| && s.clients[k].place.Opening? ==> s.provider == Some(k)
  }

  lemma OwnsPreserved(s: State, e: Event)
    requires OpenerOwns(s) && Enabled(s, e)
    ensures OpenerOwns(Next(s, e))
  {
  }

  lemma {:induction false} RunOwns(n: nat, states: seq<State>, events: seq<Event>, i: nat)
    requires IsRun(states, events) && states[0] == Initial(n) && i <= |events|
    ensures OpenerOwns(states[i])
  {
    if i > 0 {
      RunOwns(n, states, events, i - 1);
      OwnsPreserved(states[i - 1], events[i - 1]);
    }
  }

  /** The event gives up client k's hold of the provider. */
  predicate GivesUp(e: Event, k: nat) {
    e == Close(k) || e == Terminate(k)
  }

  lemma OwnerStays(s: State, e: Event, k: nat)
    requires Enabled(s, e) && s.provider == Some(k)
    ensures Next(s, e).provider == if GivesUp(e, k) then None else Some(k)
  {
  }

  lemma {:induction false} OwnerStaysUntil(states: seq<State>, events: seq<Event>, i: nat, j: nat, k: nat)
    requires IsRun(states, events) && i <= j <= |events| && states[i].provider == Some(k)
    requires forall h :: i <= h < j ==> !GivesUp(events[h], k)
    ensures states[j].provider == Some(k)
    decreases j
  {
    if i < j {
      OwnerStaysUntil(states, events, i, j - 1, k);
      OwnerStays(states[j - 1], events[j - 1], k);
    }
  }

  /** In every run: a client starts logging only with the provider open for it,
      and no other starts before the first has closed or been terminated. */
  lemma OneLogsAtATime(n: nat, states: seq<State>, events: seq<Event>, i: nat, j: nat)
    requires IsRun(states, events) && states[0] == Initial(n) && i < j < |events|
    requires events[i].StartLogging? && events[j].StartLogging? && events[i].k != events[j].k
    ensures states[i].provider == Some(events[i].k) && states[j].provider == Some(events[j].k)
    ensures exists h :: i < h < j && GivesUp(events[h], events[i].k)
  {
    RunOwns(n, states, events, i);
    RunOwns(n, states, events, j);
    hide Next;
    if forall h :: i <= h < j ==> !GivesUp(events[h], events[i].k) {
      OwnerStaysUntil(states, events, i, j, events[i].k);
    } else {
      var h :| i <= h < j && GivesUp(events[h], events[i].k);
      assert h != i;
    }
  }

  /** A client that opens goes on to start logging exactly if nobody has the
      provider open; otherwise nothing changes. Closing or terminating the one
      that has lets the next in. */
  lemma NextComesIn(s: State, k: nat, j: nat)
    requires Enabled(s, Open(j))
    ensures var t := Next(s, Open(j));
      if s.provider.None? then IsAt(t, j, Opening) && t.provider == Some(j) else t == s
    ensures s.provider == Some(k) && k != j && IsAt(s, k, Running) ==>
      forall e :: GivesUp(e, k) && Enabled(s, e) && Enabled(Next(s, e), Open(j)) ==>
        IsAt(Next(Next(s, e), Open(j)), j, Opening)
  {
  }
}
