/** `hw_compare_and_store` on a multiprocessor: each processor runs the listed
    instructions one at a time, in any interleaving, with the reservations of
    section 1.7.3 (Atomic Update) of the PowerPC Virtual Environment
    Architecture, Book II. Every run is a run of an atomic compare-and-swap. */
module CompareAndStore {
  import opened Wrappers

  // ----- the code -----

  /** The instruction about to be executed. */
  datatype Label =
    | Idle               // not in the function
    | SaveOld            // mr r7,r3
    | LoadReserve        // looptry: lwarx r9,0,r5
    | SetTrue            // li r3,1
    | Compare            // cmplw cr0,r9,r7
    | BranchFail         // bne-- fail
    | StoreConditional   // stwcx. r4,0,r5
    | BranchRetry        // bne-- looptry
    | Isync              // isync
    | Return             // blr
    | FailMove           // fail: mr r3,r6
    | FailStore          // stwcx. r3,0,r3
    | SetFalse           // li r3,0
    | FailReturn         // blr

  datatype Processor = Processor(
    pc: Label, r3: int, r4: int, r5: int, r6: int, r7: int, r9: int, eq: bool,
    reservation: Option<int>)

  datatype State = State(mem: map<int, int>, procs: seq<Processor>)

  /** A store by processor i ends every other processor's reservation of the word. */
  function Kill(procs: seq<Processor>, i: nat, a: int): seq<Processor> {
    seq(|procs|, j requires 0 <= j < |procs| =>
      if j != i && procs[j].reservation == Some(a) then procs[j].(reservation := None) else procs[j])
  }

  function Put(s: State, i: nat, p: Processor): State
    requires i < |s.procs|
  {
    s.(procs := s.procs[i := p])
  }

  /** stwcx. of v to a. It stores if the reservation is for a; with a reservation
      for another word the architecture leaves open (`choice`) whether it does. */
  function StoreCond(s: State, i: nat, v: int, a: int, choice: bool): State
    requires i < |s.procs|
  {
    var p := s.procs[i];
    var performed := p.reservation == Some(a) || (p.reservation.Some? && choice);
    var after := if performed then State(s.mem[a := v], Kill(s.procs, i, a)) else s;
    Put(after, i, p.(eq := performed, reservation := None))
  }

  function Goto(s: State, i: nat, pc: Label): State
    requires i < |s.procs|
  {
    Put(s, i, s.procs[i].(pc := pc))
  }

  /** One instruction of processor i. */
  function Execute(s: State, i: nat, choice: bool): State
    requires i < |s.procs| && (s.procs[i].pc.LoadReserve? ==> s.procs[i].r5 in s.mem)
  {
    var p := s.procs[i];
    match p.pc
    case Idle => s
    case SaveOld => Put(s, i, p.(pc := LoadReserve, r7 := p.r3))
    case LoadReserve => Put(s, i, p.(pc := SetTrue, r9 := s.mem[p.r5], reservation := Some(p.r5)))
    case SetTrue => Put(s, i, p.(pc := Compare, r3 := 1))
    case Compare => Put(s, i, p.(pc := BranchFail, eq := p.r9 == p.r7))
    case BranchFail => Goto(s, i, if p.eq then StoreConditional else FailMove)
    case StoreConditional => Goto(StoreCond(s, i, p.r4, p.r5, choice), i, BranchRetry)
    case BranchRetry => Goto(s, i, if p.eq then Isync else LoadReserve)
    case Isync => Goto(s, i, Return)
    case Return => Goto(s, i, Idle)
    case FailMove => Put(s, i, p.(pc := FailStore, r3 := p.r6))
    case FailStore => Goto(StoreCond(s, i, p.r3, p.r3, choice), i, SetFalse)
    case SetFalse => Put(s, i, p.(pc := FailReturn, r3 := 0))
    case FailReturn => Goto(s, i, Idle)
  }

  /** What can happen next: a processor executes an instruction, enters the
      function, or loses its reservation; or code elsewhere stores a word. */
  datatype Event =
    | Exec(i: nat, choice: bool)
    | Enter(i: nat, old_: int, new_: int, address: int, dummy: int)
    | Lose(i: nat)
    | Foreign(a: int, v: int)

  /** Words of `trash` serve only as dummy addresses. */
  predicate Enabled(s: State, e: Event, trash: set<int>) {
    match e
    case Exec(i, _) => i < |s.procs| && !s.procs[i].pc.Idle? && (s.procs[i].pc.LoadReserve? ==> s.procs[i].r5 in s.mem)
    case Enter(i, _, _, address, dummy) =>
      && i < |s.procs| && s.procs[i].pc.Idle?
      && address in s.mem && dummy in s.mem && address !in trash && dummy in trash
    case Lose(i) => i < |s.procs|
    case Foreign(a, _) => a in s.mem
  }

  function Next(s: State, e: Event, trash: set<int>): State
    requires Enabled(s, e, trash)
  {
    match e
    case Exec(i, choice) => Execute(s, i, choice)
    case Enter(i, o, n, address, dummy) =>
      Put(s, i, s.procs[i].(pc := SaveOld, r3 := o, r4 := n, r5 := address, r6 := dummy))
    case Lose(i) => Put(s, i, s.procs[i].(reservation := None))
    case Foreign(a, v) => State(s.mem[a := v], Kill(s.procs, |s.procs|, a))
  }

  // ----- the atomic object -----

  datatype Call = NoCall | Pending(old_: int, new_: int, address: int) | Done(swapped: bool)

  datatype Atomic = Atomic(mem: map<int, int>, calls: seq<Call>)

  /** What a caller sees of an event. */
  datatype Visible =
    | Nothing
    | Called(i: nat, old_: int, new_: int, address: int)
    | Returned(i: nat, result: int)
    | Stored(a: int, v: int)

  /** The whole compare-and-swap of call i, in one step. */
  function Swap(t: Atomic, i: nat): Atomic
    requires i < |t.calls| && t.calls[i].Pending? && t.calls[i].address in t.mem
  {
    var c := t.calls[i];
    if t.mem[c.address] == c.old_
    then Atomic(t.mem[c.address := c.new_], t.calls[i := Done(true)])
    else t.(calls := t.calls[i := Done(false)])
  }

  predicate Swaps(t: Atomic, t': Atomic, i: nat) {
    i < |t.calls| && t.calls[i].Pending? && t.calls[i].address in t.mem && t' == Swap(t, i)
  }

  ghost predicate AtomicNext(t: Atomic, v: Visible, t': Atomic) {
    match v
    case Nothing => t' == t || exists i :: Swaps(t, t', i)
    case Called(i, o, n, a) =>
      i < |t.calls| && t.calls[i].NoCall? && t' == t.(calls := t.calls[i := Pending(o, n, a)])
    case Returned(i, result) =>
      && i < |t.calls| && t.calls[i].Done? && result == (if t.calls[i].swapped then 1 else 0)
      && t' == t.(calls := t.calls[i := NoCall])
    case Stored(a, w) => a in t.mem && t' == t.(mem := t.mem[a := w])
  }

  // ----- the refinement -----

  /** A call is decided when lwarx reads a value other than the old one, or
      when stwcx. stores. */
  function CallOf(p: Processor): Call {
    match p.pc
    case Idle => NoCall
    case SaveOld => Pending(p.r3, p.r4, p.r5)
    case LoadReserve => Pending(p.r7, p.r4, p.r5)
    case SetTrue => if p.r9 == p.r7 then Pending(p.r7, p.r4, p.r5) else Done(false)
    case Compare => if p.r9 == p.r7 then Pending(p.r7, p.r4, p.r5) else Done(false)
    case BranchFail => if p.eq then Pending(p.r7, p.r4, p.r5) else Done(false)
    case StoreConditional => Pending(p.r7, p.r4, p.r5)
    case BranchRetry => if p.eq then Done(true) else Pending(p.r7, p.r4, p.r5)
    case Isync => Done(true)
    case Return => Done(true)
    case _ => Done(false)
  }

  function Abstract(s: State, trash: set<int>): Atomic {
    Atomic(s.mem - trash, seq(|s.procs|, i requires 0 <= i < |s.procs| => CallOf(s.procs[i])))
  }

  function VisibleOf(s: State, e: Event, trash: set<int>): Visible
    requires Enabled(s, e, trash)
  {
    match e
    case Exec(i, _) =>
      if s.procs[i].pc.Return? || s.procs[i].pc.FailReturn? then Returned(i, s.procs[i].r3) else Nothing
    case Enter(i, o, n, a, _) => Called(i, o, n, a)
    case Lose(_) => Nothing
    case Foreign(a, v) => if a in trash then Nothing else Stored(a, v)
  }

  predicate MayReserve(pc: Label) {
    pc.SetTrue? || pc.Compare? || pc.BranchFail? || pc.StoreConditional? || pc.FailMove? || pc.FailStore?
  }

  /** A reservation, wherever it is still held, vouches for the value lwarx read. */
  predicate ProcessorOk(p: Processor, mem: map<int, int>, trash: set<int>) {
    && (!p.pc.Idle? ==> p.r5 in mem && p.r5 !in trash && p.r6 in mem && p.r6 in trash)
    && (p.reservation.Some? ==> MayReserve(p.pc) && p.reservation.value == p.r5 && p.r5 in mem && mem[p.r5] == p.r9)
    && (p.pc.BranchFail? ==> p.eq == (p.r9 == p.r7))
    && (p.pc.StoreConditional? ==> p.r9 == p.r7)
    && (p.pc.Isync? || p.pc.Return? || p.pc.BranchRetry? || p.pc.Compare? || p.pc.BranchFail? || p.pc.StoreConditional? ==> p.r3 == 1)
    && (p.pc.FailStore? ==> p.r3 == p.r6)
    && (p.pc.FailReturn? ==> p.r3 == 0)
  }

  predicate Inv(s: State, trash: set<int>) {
    forall i :: 0 <= i < |s.procs| ==> ProcessorOk(s.procs[i], s.mem, trash)
  }

  /** A store to a mapped word keeps every other processor's invariant: whoever
      reserved the word has lost the reservation. */
  lemma StoreKeepsOthers(s: State, i: nat, a: int, v: int, trash: set<int>, j: nat)
    requires Inv(s, trash) && j < |s.procs| && j != i && a in s.mem
    ensures ProcessorOk(Kill(s.procs, i, a)[j], s.mem[a := v], trash)
  {
  }

  lemma StoreCondKeeps(s: State, i: nat, v: int, a: int, choice: bool, trash: set<int>)
    requires Inv(s, trash) && i < |s.procs| && a in s.mem
    ensures var t := StoreCond(s, i, v, a, choice);
      && |t.procs| == |s.procs| && t.mem.Keys == s.mem.Keys
      && (forall j :: 0 <= j < |s.procs| && j != i ==> ProcessorOk(t.procs[j], t.mem, trash))
      && t.procs[i] == s.procs[i].(eq := t.procs[i].eq, reservation := None)
  {
    forall j | 0 <= j < |s.procs| && j != i
      ensures ProcessorOk(Kill(s.procs, i, a)[j], s.mem[a := v], trash)
    {
      StoreKeepsOthers(s, i, a, v, trash, j);
    }
  }

  lemma ExecutePreserves(s: State, i: nat, choice: bool, trash: set<int>)
    requires Inv(s, trash) && Enabled(s, Exec(i, choice), trash)
    ensures Inv(Execute(s, i, choice), trash)
  {
    var p := s.procs[i];
    if p.pc.StoreConditional? {
      StoreCondKeeps(s, i, p.r4, p.r5, choice, trash);
    } else if p.pc.FailStore? {
      StoreCondKeeps(s, i, p.r3, p.r3, choice, trash);
    }
  }

  lemma InvPreserved(s: State, e: Event, trash: set<int>)
    requires Inv(s, trash) && Enabled(s, e, trash)
    ensures Inv(Next(s, e, trash), trash)
  {
    match e
    case Exec(i, choice) => ExecutePreserves(s, i, choice, trash);
    case Enter(_, _, _, _, _) =>
    case Lose(_) =>
    case Foreign(a, v) =>
      forall j | 0 <= j < |s.procs|
        ensures ProcessorOk(Next(s, e, trash).procs[j], s.mem[a := v], trash)
      {
        StoreKeepsOthers(s, |s.procs|, a, v, trash, j);
      }
  }

  lemma SameCalls(a: State, b: State, i: nat, trash: set<int>)
    requires |a.procs| == |b.procs| && i < |a.procs| && a.mem - trash == b.mem - trash
    requires forall j :: 0 <= j < |a.procs| && j != i ==> CallOf(a.procs[j]) == CallOf(b.procs[j])
    ensures Abstract(b, trash) == Abstract(a, trash).(calls := Abstract(a, trash).calls[i := CallOf(b.procs[i])])
  {
  }

  lemma StoreRefines(s: State, i: nat, choice: bool, trash: set<int>)
    requires Inv(s, trash) && Enabled(s, Exec(i, choice), trash)
    requires s.procs[i].pc.StoreConditional? || s.procs[i].pc.FailStore?
    ensures AtomicNext(Abstract(s, trash), Nothing, Abstract(Execute(s, i, choice), trash))
  {
    var p, t := s.procs[i], Execute(s, i, choice);
    if p.pc.StoreConditional? && p.reservation.Some? {
      assert (s.mem[p.r5 := p.r4]) - trash == (s.mem - trash)[p.r5 := p.r4];
      assert Abstract(t, trash) == Swap(Abstract(s, trash), i);
      assert Swaps(Abstract(s, trash), Abstract(t, trash), i);
    } else {
      assert t.mem - trash == s.mem - trash;
      SameCalls(s, t, i, trash);
    }
  }

  lemma ExecuteRefines(s: State, i: nat, choice: bool, trash: set<int>)
    requires Inv(s, trash) && Enabled(s, Exec(i, choice), trash)
    ensures AtomicNext(Abstract(s, trash), VisibleOf(s, Exec(i, choice), trash), Abstract(Execute(s, i, choice), trash))
  {
    var p, t := s.procs[i], Execute(s, i, choice);
    if p.pc.StoreConditional? || p.pc.FailStore? {
      StoreRefines(s, i, choice, trash);
    } else {
      SameCalls(s, t, i, trash);
      if p.pc.LoadReserve? && s.mem[p.r5] != p.r7 {
        assert Swaps(Abstract(s, trash), Abstract(t, trash), i);
      }
    }
  }

  /** Every step of the processors is a step of the atomic object, or none. */
  lemma StepRefines(s: State, e: Event, trash: set<int>)
    requires Inv(s, trash) && Enabled(s, e, trash)
    ensures AtomicNext(Abstract(s, trash), VisibleOf(s, e, trash), Abstract(Next(s, e, trash), trash))
  {
    var t := Next(s, e, trash);
    match e
    case Exec(i, choice) => ExecuteRefines(s, i, choice, trash);
    case Enter(i, _, _, _, _) => SameCalls(s, t, i, trash);
    case Lose(i) => SameCalls(s, t, i, trash);
    case Foreign(a, v) =>
      assert Abstract(t, trash).calls == Abstract(s, trash).calls;
      if a in trash {
        assert t.mem - trash == s.mem - trash;
      } else {
        assert t.mem - trash == (s.mem - trash)[a := v];
      }
  }

  // ----- runs -----

  predicate IsRun(states: seq<State>, events: seq<Event>, trash: set<int>) {
    && |states| == |events| + 1
    && forall k :: 0 <= k < |events| ==>
         Enabled(states[k], events[k], trash) && states[k + 1] == Next(states[k], events[k], trash)
  }

  /** No processor is in the function or holds a reservation. */
  predicate AllIdle(s: State) {
    forall i :: 0 <= i < |s.procs| ==> s.procs[i].pc.Idle? && s.procs[i].reservation == None
  }

  /** Where runs begin: from idle processors, whatever memory and registers hold,
      the invariant holds and the atomic object has no call. */
  lemma IdleStarts(s: State, trash: set<int>)
    requires AllIdle(s)
    ensures Inv(s, trash) && Abstract(s, trash) == Atomic(s.mem - trash, seq(|s.procs|, _ => NoCall))
  {
    assert Abstract(s, trash).calls == seq(|s.procs|, _ => NoCall);
  }

  lemma {:induction false} RunKeepsInv(states: seq<State>, events: seq<Event>, trash: set<int>, k: nat)
    requires IsRun(states, events, trash) && Inv(states[0], trash) && k <= |events|
    ensures Inv(states[k], trash)
  {
    if k > 0 {
      RunKeepsInv(states, events, trash, k - 1);
      InvPreserved(states[k - 1], events[k - 1], trash);
    }
  }

  /** Every run of any number of processors, in any interleaving and with
      reservations lost at any time, is a run of atomic compare-and-swaps with
      the same calls, the same results and the same stores by other code. */
  lemma RunIsAtomic(states: seq<State>, events: seq<Event>, trash: set<int>)
    requires IsRun(states, events, trash) && Inv(states[0], trash)
    ensures forall k :: 0 <= k < |events| ==>
              AtomicNext(Abstract(states[k], trash), VisibleOf(states[k], events[k], trash), Abstract(states[k + 1], trash))
  {
    forall k | 0 <= k < |events|
      ensures AtomicNext(Abstract(states[k], trash), VisibleOf(states[k], events[k], trash), Abstract(states[k + 1], trash))
    {
      RunKeepsInv(states, events, trash, k);
      StepRefines(states[k], events[k], trash);
    }
  }

  /** Whatever happened before, a call that returns holds no reservation, and
      returns 1 exactly when it is the call that swapped. */
  lemma ReturnsHoldNothing(states: seq<State>, events: seq<Event>, trash: set<int>, k: nat, i: nat)
    requires IsRun(states, events, trash) && Inv(states[0], trash) && k < |events|
    requires VisibleOf(states[k], events[k], trash).Returned? && VisibleOf(states[k], events[k], trash).i == i
    ensures i < |states[k].procs| && states[k + 1].procs[i].reservation == None
    ensures var call := Abstract(states[k], trash).calls[i];
      call.Done? && VisibleOf(states[k], events[k], trash).result == (if call.swapped then 1 else 0)
  {
    RunKeepsInv(states, events, trash, k);
  }

  // ----- a dummy address that is no dummy -----

  function Alone(s: State, i: nat, k: nat): Option<State>
    decreases k
  {
    if k == 0 then Some(s)
    else if i < |s.procs| && (s.procs[i].pc.LoadReserve? ==> s.procs[i].r5 in s.mem)
    then Alone(Execute(s, i, false), i, k - 1)
    else None
  }

  lemma AloneOnce(s: State, i: nat, k: nat)
    requires i < |s.procs| && (s.procs[i].pc.LoadReserve? ==> s.procs[i].r5 in s.mem)
    ensures Alone(s, i, k + 1) == Alone(Execute(s, i, false), i, k)
  {
    hide Execute;
  }

  lemma FailStores(s: State, i: nat)
    requires i < |s.procs| && s.procs[i].pc.FailStore? && s.procs[i].reservation == Some(s.procs[i].r5)
    ensures var p, t := s.procs[i], Execute(s, i, false);
      && |t.procs| == |s.procs| && t.procs[i] == p.(pc := SetFalse, eq := t.procs[i].eq, reservation := None)
      && t.mem == if p.r3 == p.r5 then s.mem[p.r5 := p.r3] else s.mem
  {
  }

  lemma FailureEnds(u: State, i: nat)
    requires i < |u.procs| && u.procs[i].pc.FailMove? && u.procs[i].reservation == Some(u.procs[i].r5)
    requires u.procs[i].r5 in u.mem
    ensures var p := u.procs[i]; var t := Alone(u, i, 4);
      && t.Some? && |t.value.procs| == |u.procs| && t.value.procs[i].pc.Idle? && t.value.procs[i].r3 == 0
      && t.value.mem == if p.r6 == p.r5 then u.mem[p.r5 := p.r6] else u.mem
  {
    hide Alone, StoreCond;
    var u1 := Execute(u, i, false);
    var u2 := Execute(u1, i, false);
    FailStores(u1, i);
    var u3 := Execute(u2, i, false);
    AloneOnce(u, i, 3);
    AloneOnce(u1, i, 2);
    AloneOnce(u2, i, 1);
    AloneOnce(u3, i, 0);
    AloneNone(Execute(u3, i, false), i);
  }

  lemma AloneNone(s: State, i: nat)
    ensures Alone(s, i, 0) == Some(s)
  {
  }

  lemma AloneStep(s: State, i: nat, p: Processor, q: Processor, k: nat)
    requires i < |s.procs| && (p.pc.LoadReserve? ==> p.r5 in s.mem)
    requires Execute(Put(s, i, p), i, false) == Put(Put(s, i, p), i, q)
    ensures Alone(Put(s, i, p), i, k + 1) == Alone(Put(s, i, q), i, k)
  {
    hide Execute;
    assert Put(Put(s, i, p), i, q) == Put(s, i, q);
  }

  /** As far as the branch to the failure path. */
  lemma FailureBegins(s: State, i: nat)
    requires i < |s.procs| && s.procs[i].pc.SaveOld?
    requires var p := s.procs[i]; p.r5 in s.mem && s.mem[p.r5] != p.r3
    ensures var p := s.procs[i];
      var u := Put(s, i, p.(pc := FailMove, r3 := 1, r7 := p.r3, r9 := s.mem[p.r5], eq := false, reservation := Some(p.r5)));
      Alone(s, i, 9) == Alone(u, i, 4)
  {
    var p := s.procs[i];
    hide Alone;
    var p1 := p.(pc := LoadReserve, r7 := p.r3);
    var p2 := p1.(pc := SetTrue, r9 := s.mem[p.r5], reservation := Some(p.r5));
    var p3 := p2.(pc := Compare, r3 := 1);
    var p4 := p3.(pc := BranchFail, eq := false);
    assert s == Put(s, i, p);
    AloneStep(s, i, p, p1, 8);
    AloneStep(s, i, p1, p2, 7);
    AloneStep(s, i, p2, p3, 6);
    AloneStep(s, i, p3, p4, 5);
    AloneStep(s, i, p4, p4.(pc := FailMove), 4);
  }

  /** A call that finds another value and is left alone returns 0. It also
      leaves the word alone exactly when the dummy address is another word, or
      happens to be the word's value. */
  lemma FailureLeavesWord(s: State, i: nat)
    requires i < |s.procs| && s.procs[i].pc.SaveOld?
    requires var p := s.procs[i]; p.r5 in s.mem && s.mem[p.r5] != p.r3
    ensures var p := s.procs[i]; var t := Alone(s, i, 9);
      && t.Some? && |t.value.procs| == |s.procs| && t.value.procs[i].pc.Idle? && t.value.procs[i].r3 == 0
      && p.r5 in t.value.mem
      && (t.value.mem[p.r5] == s.mem[p.r5] <==> p.r6 != p.r5 || s.mem[p.r5] == p.r6)
  {
    var p := s.procs[i];
    var u := Put(s, i, p.(pc := FailMove, r3 := 1, r7 := p.r3, r9 := s.mem[p.r5], eq := false, reservation := Some(p.r5)));
    hide Alone;
    FailureBegins(s, i);
    FailureEnds(u, i);
  }

  // ----- calls that succeed -----

  /** As far as the store, when the word has the old value. */
  lemma SuccessBegins(s: State, i: nat)
    requires i < |s.procs| && s.procs[i].pc.SaveOld?
    requires var p := s.procs[i]; p.r5 in s.mem && s.mem[p.r5] == p.r3
    ensures var p := s.procs[i];
      var u := Put(s, i, p.(pc := StoreConditional, r3 := 1, r7 := p.r3, r9 := p.r3, eq := true, reservation := Some(p.r5)));
      Alone(s, i, 9) == Alone(u, i, 4)
  {
    var p := s.procs[i];
    hide Alone;
    var p1 := p.(pc := LoadReserve, r7 := p.r3);
    var p2 := p1.(pc := SetTrue, r9 := s.mem[p.r5], reservation := Some(p.r5));
    var p3 := p2.(pc := Compare, r3 := 1);
    var p4 := p3.(pc := BranchFail, eq := true);
    assert s == Put(s, i, p);
    AloneStep(s, i, p, p1, 8);
    AloneStep(s, i, p1, p2, 7);
    AloneStep(s, i, p2, p3, 6);
    AloneStep(s, i, p3, p4, 5);
    AloneStep(s, i, p4, p4.(pc := StoreConditional), 4);
  }

  /** With its reservation a store-conditional stores, and says so. */
  lemma ReservedStores(s: State, i: nat, choice: bool)
    requires i < |s.procs| && s.procs[i].pc.StoreConditional? && s.procs[i].reservation == Some(s.procs[i].r5)
    ensures var p, t := s.procs[i], Execute(s, i, choice);
      && |t.procs| == |s.procs| && t.procs[i] == p.(pc := BranchRetry, eq := true, reservation := None)
      && t.mem == s.mem[p.r5 := p.r4]
  {
  }

  lemma SuccessEnds(u: State, i: nat)
    requires i < |u.procs| && u.procs[i].pc.StoreConditional? && u.procs[i].reservation == Some(u.procs[i].r5)
    ensures var p := u.procs[i]; var t := Alone(u, i, 4);
      && t.Some? && |t.value.procs| == |u.procs|
      && t.value.procs[i] == p.(pc := Idle, eq := true, reservation := None) && t.value.mem == u.mem[p.r5 := p.r4]
  {
    hide Alone, StoreCond;
    var u1 := Execute(u, i, false);
    ReservedStores(u, i, false);
    var u2 := Execute(u1, i, false);
    var u3 := Execute(u2, i, false);
    AloneOnce(u, i, 3);
    AloneOnce(u1, i, 2);
    AloneOnce(u2, i, 1);
    AloneOnce(u3, i, 0);
    AloneNone(Execute(u3, i, false), i);
  }

  /** A call that finds the old value and is left alone puts the new one there,
      changes no other word, returns 1 and holds no reservation. */
  lemma SuccessSwaps(s: State, i: nat)
    requires i < |s.procs| && s.procs[i].pc.SaveOld?
    requires var p := s.procs[i]; p.r5 in s.mem && s.mem[p.r5] == p.r3
    ensures var p := s.procs[i]; var t := Alone(s, i, 9);
      && t.Some? && |t.value.procs| == |s.procs| && t.value.procs[i].pc.Idle? && t.value.procs[i].r3 == 1
      && t.value.procs[i].reservation == None && t.value.mem == s.mem[p.r5 := p.r4]
  {
    var p := s.procs[i];
    var u := Put(s, i, p.(pc := StoreConditional, r3 := 1, r7 := p.r3, r9 := p.r3, eq := true, reservation := Some(p.r5)));
    hide Alone;
    SuccessBegins(s, i);
    SuccessEnds(u, i);
  }

  /** Processor j's next instruction stores to a. */
  predicate StoresTo(s: State, j: nat, choice: bool, a: int)
    requires j < |s.procs|
  {
    var p := s.procs[j];
    && ((p.pc.StoreConditional? && p.r5 == a) || (p.pc.FailStore? && p.r3 == a))
    && (p.reservation == Some(a) || (p.reservation.Some? && choice))
  }

  /** The event takes away processor i's reservation of a: it is lost, or someone
      else stores to the word. */
  predicate Disturbs(s: State, e: Event, i: nat, a: int) {
    match e
    case Exec(j, choice) => j != i && j < |s.procs| && StoresTo(s, j, choice, a)
    case Enter(_, _, _, _, _) => false
    case Lose(j) => j == i
    case Foreign(b, _) => b == a
  }

  /** Processor i has found the old value and not yet come past its store. */
  predicate InPass(s: State, i: nat, a: int, old_: int, new_: int) {
    && i < |s.procs|
    && var p := s.procs[i];
    && (p.pc.SetTrue? || p.pc.Compare? || p.pc.BranchFail? || p.pc.StoreConditional?)
    && p.r5 == a && p.r4 == new_ && p.r7 == old_ && p.r9 == old_ && (p.pc.BranchFail? ==> p.eq)
    && p.reservation == Some(a) && a in s.mem && s.mem[a] == old_
  }

  predicate EndsPass(s: State, e: Event, i: nat) {
    e.Exec? && e.i == i && i < |s.procs| && s.procs[i].pc.StoreConditional?
  }

  lemma OwnStepInPass(s: State, i: nat, choice: bool, a: int, old_: int, new_: int)
    requires InPass(s, i, a, old_, new_) && !s.procs[i].pc.StoreConditional?
    ensures InPass(Execute(s, i, choice), i, a, old_, new_)
  {
  }

  /** Another processor's store-conditional leaves alone what it does not store to. */
  lemma OthersStoreElsewhere(s: State, j: nat, v: int, b: int, choice: bool, i: nat, a: int)
    requires i < |s.procs| && j < |s.procs| && i != j && s.procs[i].reservation == Some(a) && a in s.mem
    requires b == a ==> !(s.procs[j].reservation == Some(a) || (s.procs[j].reservation.Some? && choice))
    ensures var t := StoreCond(s, j, v, b, choice);
      |t.procs| == |s.procs| && t.procs[i] == s.procs[i] && a in t.mem && t.mem[a] == s.mem[a]
  {
  }

  lemma OthersStep(s: State, j: nat, choice: bool, i: nat, a: int)
    requires i < |s.procs| && j < |s.procs| && i != j && s.procs[i].reservation == Some(a) && a in s.mem
    requires (s.procs[j].pc.LoadReserve? ==> s.procs[j].r5 in s.mem) && !StoresTo(s, j, choice, a)
    ensures var t := Execute(s, j, choice);
      |t.procs| == |s.procs| && t.procs[i] == s.procs[i] && a in t.mem && t.mem[a] == s.mem[a]
  {
    hide StoreCond;
    var p := s.procs[j];
    if p.pc.StoreConditional? {
      OthersStoreElsewhere(s, j, p.r4, p.r5, choice, i, a);
    } else if p.pc.FailStore? {
      OthersStoreElsewhere(s, j, p.r3, p.r3, choice, i, a);
    }
  }

  lemma PassGoesOn(s: State, e: Event, trash: set<int>, i: nat, a: int, old_: int, new_: int)
    requires Enabled(s, e, trash) && InPass(s, i, a, old_, new_)
    requires !Disturbs(s, e, i, a) && !EndsPass(s, e, i)
    ensures InPass(Next(s, e, trash), i, a, old_, new_)
  {
    match e
    case Exec(j, choice) =>
      hide Execute, StoresTo;
      if j == i {
        OwnStepInPass(s, i, choice, a, old_, new_);
      } else {
        OthersStep(s, j, choice, i, a);
      }
    case Enter(_, _, _, _, _) =>
    case Lose(_) =>
    case Foreign(_, _) =>
  }

  lemma {:induction false} RunStaysInPass(states: seq<State>, events: seq<Event>, trash: set<int>, first: nat, last: nat,
                                          i: nat, a: int, old_: int, new_: int)
    requires IsRun(states, events, trash) && first <= last <= |events| && InPass(states[first], i, a, old_, new_)
    requires forall k :: first <= k < last ==> !Disturbs(states[k], events[k], i, a) && !EndsPass(states[k], events[k], i)
    ensures InPass(states[last], i, a, old_, new_)
    decreases last
  {
    hide InPass, Disturbs, EndsPass, Next, Enabled;
    if first < last {
      RunStaysInPass(states, events, trash, first, last - 1, i, a, old_, new_);
      PassGoesOn(states[last - 1], events[last - 1], trash, i, a, old_, new_);
    }
  }

  /** A load that finds the old value begins a pass. */
  lemma LoadBegins(s: State, i: nat, choice: bool)
    requires i < |s.procs| && s.procs[i].pc.LoadReserve? && s.procs[i].r5 in s.mem && s.mem[s.procs[i].r5] == s.procs[i].r7
    ensures InPass(Execute(s, i, choice), i, s.procs[i].r5, s.procs[i].r7, s.procs[i].r4)
  {
  }

  /** In any run, a pass of the loop between whose load and store-conditional
      nobody stores to the word and the reservation is not lost swaps: the word
      then has the new value, and the call is one that returns 1. */
  lemma UndisturbedPassSwaps(states: seq<State>, events: seq<Event>, trash: set<int>, a: nat, b: nat, i: nat)
    requires IsRun(states, events, trash) && a < b < |events| && i < |states[a].procs|
    requires events[a].Exec? && events[a].i == i && states[a].procs[i].pc.LoadReserve?
    requires var p := states[a].procs[i]; p.r5 in states[a].mem && states[a].mem[p.r5] == p.r7
    requires EndsPass(states[b], events[b], i)
    requires forall k :: a < k < b ==>
      !Disturbs(states[k], events[k], i, states[a].procs[i].r5) && !EndsPass(states[k], events[k], i)
    ensures var p, t := states[a].procs[i], states[b + 1];
      && t.mem == states[b].mem[p.r5 := p.r4] && i < |t.procs| && CallOf(t.procs[i]) == Done(true)
      && p.r5 in states[b].mem && states[b].mem[p.r5] == p.r7
  {
    var p := states[a].procs[i];
    LoadBegins(states[a], i, events[a].choice);
    hide Disturbs;
    RunStaysInPass(states, events, trash, a + 1, b, i, p.r5, p.r7, p.r4);
    ReservedStores(states[b], i, events[b].choice);
    hide Execute;
  }
}
