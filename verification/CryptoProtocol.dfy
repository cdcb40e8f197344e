/** The encrypting filter between its clients and its provider, as a state
    machine: requests start, the provider serves them, and completions come
    back, in any order. It simulates a disk that does not encrypt. */
module CryptoProtocol {
  import opened Wrappers
  import opened CryptoBytes

  // ----- the filter's world -----

  /** Memory the provider is given: a client's buffer or temporary memory. */
  datatype Ref = Client(buffer: nat) | Temporary(id: nat)

  /** What is allocated for request `id` and has to be given back. */
  datatype Resource = ContextBlock(id: nat) | MemoryBlock(id: nat) | BufferRO(id: nat) | BufferWO(id: nat)

  datatype Completion = Completion(action: bool, target: int, parameter: int)

  datatype Context = Context(
    buffer: nat, bufferRO: Option<Resource>, bufferWO: Option<Resource>,
    memory: Option<nat>, size: nat, completion: Completion)

  /** A request as handed to the provider, with the filter's own completion,
      whose parameter is the context. */
  datatype Request = Request(isWrite: bool, byteStart: nat, data: Ref, context: nat)

  datatype Report = Report(status: int, actual: nat)

  /** A request as the client made it; `data` is what its buffer held. */
  datatype Started = Started(isWrite: bool, byteStart: nat, buffer: nat, data: seq<Byte>, completion: Completion)

  /** A run of a client's completion. */
  datatype Delivery = Delivery(request: nat, completion: Completion, report: Report)

  datatype State = State(
    raw: seq<Byte>,                     // the provider's medium
    buffers: map<nat, seq<Byte>>,       // client memory
    temps: map<nat, seq<Byte>>,         // temporary memory of writes
    contexts: map<nat, Context>,
    pending: map<nat, Request>,         // not yet completed
    reports: map<nat, Report>,          // how the provider served each request
    started: seq<Started>,              // history of requests; a request is its index
    released: multiset<Resource>,
    delivered: multiset<Delivery>)

  datatype Event =
    | StartRead(byteStart: nat, buffer: nat, completion: Completion)
    | StartWrite(byteStart: nat, buffer: nat, completion: Completion)
    | Serve(r: nat, report: Report)
    | Complete(r: nat)
    | ClientStores(buffer: nat, data: seq<Byte>)

  predicate InFlight(s: State, b: nat) {
    exists r :: r in s.contexts && s.contexts[r].buffer == b
  }

  predicate ReadInFlight(s: State, b: nat) {
    exists r :: r in s.contexts && s.contexts[r].buffer == b && s.contexts[r].bufferWO.None?
  }

  /** A read has its buffer to itself until it completes. */
  predicate MayRead(s: State, buffer: nat) {
    buffer in s.buffers && |s.buffers[buffer]| % 512 == 0 && !InFlight(s, buffer)
  }

  /** Writes may share theirs. */
  predicate MayWrite(s: State, buffer: nat) {
    buffer in s.buffers && |s.buffers[buffer]| % 512 == 0 && !ReadInFlight(s, buffer)
  }

  function Memory(s: State, ref: Ref): seq<Byte>
    requires match ref case Client(b) => b in s.buffers case Temporary(id) => id in s.temps
  {
    match ref case Client(b) => s.buffers[b] case Temporary(id) => s.temps[id]
  }

  /** So many bytes at this place are on the medium; none are wherever it is. */
  predicate Within(disk: seq<Byte>, at: nat, n: nat) {
    n == 0 || at + n <= |disk|
  }

  function Slice(disk: seq<Byte>, at: nat, n: nat): (t: seq<Byte>)
    requires Within(disk, at, n)
    ensures |t| == n
  {
    if n == 0 then [] else disk[at..at + n]
  }

  function Overwrite(disk: seq<Byte>, at: nat, data: seq<Byte>): (t: seq<Byte>)
    requires Within(disk, at, |data|)
    ensures |t| == |disk|
  {
    if |data| == 0 then disk else disk[..at] + data + disk[at + |data|..]
  }

  predicate Serves(s: State, r: nat, report: Report) {
    && r in s.pending && r !in s.reports
    && var q := s.pending[r];
    && (match q.data case Client(b) => !q.isWrite && b in s.buffers case Temporary(id) => q.isWrite && id in s.temps)
    && report.actual <= |Memory(s, q.data)| && Within(s.raw, q.byteStart, report.actual)
  }

  predicate Completes(s: State, r: nat) {
    && r in s.pending && r in s.reports && s.pending[r].context in s.contexts
    && var c := s.contexts[s.pending[r].context];
    && c.buffer in s.buffers
    && Releasable(c)
  }

  predicate Enabled(s: State, e: Event) {
    match e
    case StartRead(_, buffer, _) => MayRead(s, buffer)
    case StartWrite(_, buffer, _) => MayWrite(s, buffer)
    case Serve(r, report) => Serves(s, r, report)
    case Complete(r) => Completes(s, r)
    case ClientStores(buffer, _) => !InFlight(s, buffer)
  }

  /** `read`: a context, and the client's own buffer handed on. */
  function AfterRead(s: State, byteStart: nat, buffer: nat, completion: Completion): State
    requires MayRead(s, buffer)
  {
    var id := |s.started|;
    s.(contexts := s.contexts[id := Context(buffer, None, None, None, 0, completion)],
       pending := s.pending[id := Request(false, byteStart, Client(buffer), id)],
       started := s.started + [Started(false, byteStart, buffer, s.buffers[buffer], completion)])
  }

  /** `write`: a context, and temporary memory with the encrypted data handed on. */
  function AfterWrite(s: State, byteStart: nat, buffer: nat, completion: Completion): State
    requires MayWrite(s, buffer)
  {
    var id := |s.started|;
    s.(temps := s.temps[id := Complement(s.buffers[buffer])],
       contexts := s.contexts[id := Context(buffer, Some(BufferRO(id)), Some(BufferWO(id)), Some(id), |s.buffers[buffer]|, completion)],
       pending := s.pending[id := Request(true, byteStart, Temporary(id), id)],
       started := s.started + [Started(true, byteStart, buffer, s.buffers[buffer], completion)])
  }

  /** The provider moves the first `actual` bytes. */
  function AfterServe(s: State, r: nat, report: Report): State
    requires Serves(s, r, report)
  {
    var q := s.pending[r];
    var data := Memory(s, q.data);
    var t := s.(reports := s.reports[r := report]);
    match q.data
    case Client(b) =>
      t.(buffers := s.buffers[b := Overwrite(data, 0, Slice(s.raw, q.byteStart, report.actual))])
    case Temporary(_) => t.(raw := Overwrite(s.raw, q.byteStart, data[..report.actual]))
  }

  // `SCDReadWriteCompletion`: a read's buffer is decrypted, a write's temporary
  // memory and descriptors are given back; then the context is freed and the
  // client's completion, if any, is run.

  function Decrypted(buffers: map<nat, seq<Byte>>, c: Context): map<nat, seq<Byte>>
    requires c.buffer in buffers
  {
    if c.bufferWO.None? then buffers[c.buffer := Complement(buffers[c.buffer])] else buffers
  }

  predicate Releasable(c: Context) {
    c.bufferWO.Some? ==> c.bufferRO.Some? && c.memory.Some?
  }

  function TempsLeft(temps: map<nat, seq<Byte>>, c: Context): map<nat, seq<Byte>>
    requires Releasable(c)
  {
    if c.bufferWO.None? then temps else temps - {c.memory.value}
  }

  function Given(c: Context, id: nat): multiset<Resource>
    requires Releasable(c)
  {
    if c.bufferWO.None? then multiset{ContextBlock(id)}
    else multiset{c.bufferRO.value, c.bufferWO.value, MemoryBlock(c.memory.value), ContextBlock(id)}
  }

  function RunOf(c: Context, r: nat, report: Report): multiset<Delivery> {
    if c.completion.action then multiset{Delivery(r, c.completion, report)} else multiset{}
  }

  /** `SCDReadWriteCompletion`, given the context with this number. */
  function Finish(s: State, id: nat, r: nat, report: Report): State
    requires id in s.contexts && s.contexts[id].buffer in s.buffers && Releasable(s.contexts[id])
  {
    var c := s.contexts[id];
    s.(buffers := Decrypted(s.buffers, c), temps := TempsLeft(s.temps, c), contexts := s.contexts - {id},
       released := s.released + Given(c, id), delivered := s.delivered + RunOf(c, r, report))
  }

  /** The provider takes the request off its list and runs its completion. */
  function AfterComplete(s: State, r: nat): State
    requires Completes(s, r)
  {
    Finish(s.(pending := s.pending - {r}), s.pending[r].context, r, s.reports[r])
  }

  function Next(s: State, e: Event): State
    requires Enabled(s, e)
  {
    match e
    case StartRead(byteStart, buffer, completion) => AfterRead(s, byteStart, buffer, completion)
    case StartWrite(byteStart, buffer, completion) => AfterWrite(s, byteStart, buffer, completion)
    case Serve(r, report) => AfterServe(s, r, report)
    case Complete(r) => AfterComplete(s, r)
    case ClientStores(buffer, data) => s.(buffers := s.buffers[buffer := data])
  }

  // ----- what every run keeps -----

  predicate RequestOk(s: State, r: nat)
    requires r in s.pending
  {
    && r < |s.started| && r in s.contexts
    && var q, c, start := s.pending[r], s.contexts[r], s.started[r];
    && q.context == r && q.isWrite == start.isWrite && q.byteStart == start.byteStart
    && c.buffer == start.buffer && c.completion == start.completion
    && c.buffer in s.buffers && |s.buffers[c.buffer]| == |start.data|
    && |start.data| % 512 == 0
    && if q.isWrite
       then && q.data == Temporary(r) && r in s.temps && s.temps[r] == Complement(start.data)
            && s.buffers[c.buffer] == start.data
            && c.bufferRO == Some(BufferRO(r)) && c.bufferWO == Some(BufferWO(r)) && c.memory == Some(r)
            && c.size == |start.data|
       else q.data == Client(c.buffer) && c.bufferRO.None? && c.bufferWO.None? && c.memory.None?
  }

  predicate Finished(s: State, r: nat) {
    r < |s.started| && r !in s.pending
  }

  /** How often a resource has been given back: once if its request is finished
      and needed it, otherwise never. */
  function Releases(s: State, x: Resource): nat {
    if Finished(s, x.id) && (x.ContextBlock? || s.started[x.id].isWrite) then 1 else 0
  }

  /** How often a completion has run: once, for a finished request, as the client
      gave it and with what the provider reported; otherwise never. */
  function Deliveries(s: State, d: Delivery): nat {
    if Finished(s, d.request) && d.request in s.reports
       && s.started[d.request].completion.action
       && d == Delivery(d.request, s.started[d.request].completion, s.reports[d.request])
    then 1 else 0
  }

  ghost predicate Accounted(s: State) {
    && (forall x: Resource :: s.released[x] == Releases(s, x))
    && (forall d: Delivery :: s.delivered[d] == Deliveries(s, d))
    && (forall r: nat :: Finished(s, r) ==> r in s.reports)
    && (forall r: nat :: r in s.reports ==> r < |s.started|)
  }

  ghost predicate RequestsOk(s: State) {
    && s.contexts.Keys == s.pending.Keys
    && (forall r :: r in s.pending ==> RequestOk(s, r))
    && (forall r :: r in s.temps <==> r in s.pending && s.pending[r].isWrite)
  }

  /** Requests in flight that share a buffer are writes. */
  ghost predicate Separate(s: State) {
    forall r, q :: r in s.contexts && q in s.contexts && r != q && s.contexts[r].buffer == s.contexts[q].buffer ==>
      s.contexts[r].bufferWO.Some?
  }

  ghost predicate Inv(s: State) {
    RequestsOk(s) && Separate(s) && Accounted(s)
  }

  /** A request that a step does not concern stays as it should be. */
  lemma RequestStays(s: State, t: State, q: nat)
    requires q in s.pending && RequestOk(s, q) && q in t.pending && q in t.contexts
    requires t.pending[q] == s.pending[q] && t.contexts[q] == s.contexts[q] && s.started <= t.started
    requires var b := s.contexts[q].buffer;
      && b in t.buffers && |t.buffers[b]| == |s.buffers[b]|
      && (s.pending[q].isWrite ==> t.buffers[b] == s.buffers[b] && q in t.temps && t.temps[q] == s.temps[q])
    ensures RequestOk(t, q)
  {
  }

  /** The accounts depend only on which requests are finished. */
  lemma AccountsStay(s: State, t: State)
    requires Accounted(s) && s.started <= t.started
    requires t.released == s.released && t.delivered == s.delivered
    requires forall r: nat :: Finished(t, r) <==> Finished(s, r)
    requires forall r: nat :: Finished(s, r) && r in s.reports ==> r in t.reports && t.reports[r] == s.reports[r]
    requires forall r: nat :: r in t.reports ==> r < |t.started|
    ensures Accounted(t)
  {
    forall x: Resource ensures t.released[x] == Releases(t, x) {
      assert s.released[x] == Releases(s, x) && (Finished(t, x.id) <==> Finished(s, x.id));
    }
    forall d: Delivery ensures t.delivered[d] == Deliveries(t, d) {
      assert s.delivered[d] == Deliveries(s, d) && (Finished(t, d.request) <==> Finished(s, d.request));
    }
  }

  lemma Unstarted(s: State)
    requires RequestsOk(s)
    ensures forall r :: r in s.pending ==> r < |s.started|
  {
    forall r | r in s.pending ensures r < |s.started| {
      assert RequestOk(s, r);
    }
  }

  lemma StartKeepsAccounts(s: State, t: State)
    requires Accounted(s) && s.started <= t.started && |t.started| == |s.started| + 1
    requires t.pending.Keys == s.pending.Keys + {|s.started|}
    requires t.reports == s.reports && t.released == s.released && t.delivered == s.delivered
    ensures Accounted(t)
  {
    forall r: nat ensures Finished(t, r) <==> Finished(s, r) {
      assert r in t.pending <==> r in s.pending || r == |s.started|;
    }
    AccountsStay(s, t);
  }

  lemma StartKeepsSeparate(s: State, t: State, b: nat)
    requires Separate(s) && !ReadInFlight(s, b)
    requires |s.started| in t.contexts && t.contexts[|s.started|].bufferWO.None? ==> !InFlight(s, b)
    requires |s.started| in t.contexts && t.contexts == s.contexts[|s.started| := t.contexts[|s.started|]]
    requires t.contexts[|s.started|].buffer == b
    ensures Separate(t)
  {
  }

  lemma StartReadKeepsRequest(s: State, byteStart: nat, buffer: nat, completion: Completion, r: nat)
    requires MayRead(s, buffer) && (r == |s.started| || (r in s.pending && RequestOk(s, r)))
    ensures r in AfterRead(s, byteStart, buffer, completion).pending
    ensures RequestOk(AfterRead(s, byteStart, buffer, completion), r)
  {
    if r != |s.started| {
      RequestStays(s, AfterRead(s, byteStart, buffer, completion), r);
    }
  }

  lemma StartReadKeepsRequests(s: State, byteStart: nat, buffer: nat, completion: Completion)
    requires RequestsOk(s) && MayRead(s, buffer)
    ensures RequestsOk(AfterRead(s, byteStart, buffer, completion))
  {
    hide RequestOk;
    var t := AfterRead(s, byteStart, buffer, completion);
    assert |s.started| !in s.pending by { Unstarted(s); }
    forall r | r in t.pending ensures RequestOk(t, r) {
      StartReadKeepsRequest(s, byteStart, buffer, completion, r);
    }
  }

  lemma StartReadKeepsInv(s: State, byteStart: nat, buffer: nat, completion: Completion)
    requires Inv(s) && MayRead(s, buffer)
    ensures Inv(AfterRead(s, byteStart, buffer, completion))
  {
    hide Accounted, RequestsOk, Separate;
    StartReadKeepsRequests(s, byteStart, buffer, completion);
    StartKeepsAccounts(s, AfterRead(s, byteStart, buffer, completion));
    StartKeepsSeparate(s, AfterRead(s, byteStart, buffer, completion), buffer);
  }

  lemma StartWriteKeepsRequest(s: State, byteStart: nat, buffer: nat, completion: Completion, r: nat)
    requires MayWrite(s, buffer) && (r == |s.started| || (r in s.pending && RequestOk(s, r)))
    ensures r in AfterWrite(s, byteStart, buffer, completion).pending
    ensures RequestOk(AfterWrite(s, byteStart, buffer, completion), r)
  {
    if r != |s.started| {
      RequestStays(s, AfterWrite(s, byteStart, buffer, completion), r);
    }
  }

  lemma StartWriteKeepsRequests(s: State, byteStart: nat, buffer: nat, completion: Completion)
    requires RequestsOk(s) && MayWrite(s, buffer)
    ensures RequestsOk(AfterWrite(s, byteStart, buffer, completion))
  {
    hide RequestOk;
    var t := AfterWrite(s, byteStart, buffer, completion);
    assert |s.started| !in s.pending by { Unstarted(s); }
    forall r | r in t.pending ensures RequestOk(t, r) {
      StartWriteKeepsRequest(s, byteStart, buffer, completion, r);
    }
  }

  lemma StartWriteKeepsInv(s: State, byteStart: nat, buffer: nat, completion: Completion)
    requires Inv(s) && MayWrite(s, buffer)
    ensures Inv(AfterWrite(s, byteStart, buffer, completion))
  {
    hide Accounted, RequestsOk, Separate;
    StartWriteKeepsRequests(s, byteStart, buffer, completion);
    StartKeepsAccounts(s, AfterWrite(s, byteStart, buffer, completion));
    StartKeepsSeparate(s, AfterWrite(s, byteStart, buffer, completion), buffer);
  }

  lemma ServeKeepsRequest(s: State, r: nat, report: Report, q: nat)
    requires Serves(s, r, report) && RequestOk(s, r) && q in s.pending && RequestOk(s, q)
    requires q != r ==> s.contexts[r].bufferWO.Some? || s.contexts[q].buffer != s.contexts[r].buffer
    ensures RequestOk(AfterServe(s, r, report), q)
  {
    RequestStays(s, AfterServe(s, r, report), q);
  }

  lemma ServeKeepsRequests(s: State, r: nat, report: Report)
    requires RequestsOk(s) && Separate(s) && Serves(s, r, report)
    ensures RequestsOk(AfterServe(s, r, report))
  {
    hide RequestOk;
    var t := AfterServe(s, r, report);
    assert t.contexts == s.contexts && t.pending == s.pending && t.temps == s.temps;
    forall q | q in s.pending ensures RequestOk(t, q) {
      ServeKeepsRequest(s, r, report, q);
    }
  }

  lemma ServeKeepsAccounts(s: State, r: nat, report: Report)
    requires Accounted(s) && r < |s.started| && Serves(s, r, report)
    ensures Accounted(AfterServe(s, r, report))
  {
    AccountsStay(s, AfterServe(s, r, report));
  }

  lemma ServeKeepsInv(s: State, r: nat, report: Report)
    requires Inv(s) && Serves(s, r, report)
    ensures Inv(AfterServe(s, r, report))
  {
    Unstarted(s);
    ServeKeepsRequests(s, r, report);
    ServeKeepsAccounts(s, r, report);
    hide Accounted, RequestsOk;
    assert AfterServe(s, r, report).contexts == s.contexts;
  }

  lemma CompleteKeepsRequest(s: State, r: nat, q: nat)
    requires Completes(s, r) && RequestOk(s, r) && q in s.pending && RequestOk(s, q)
    requires q != r && (s.contexts[r].bufferWO.Some? || s.contexts[q].buffer != s.contexts[r].buffer)
    ensures q in AfterComplete(s, r).pending && RequestOk(AfterComplete(s, r), q)
  {
    RequestStays(s, AfterComplete(s, r), q);
  }

  lemma CompletesOne(s: State, r: nat)
    requires Completes(s, r) && RequestOk(s, r)
    ensures r < |s.started| && s.pending[r].isWrite == s.started[r].isWrite
    ensures var t, start := AfterComplete(s, r), s.started[r];
      && t.started == s.started && t.reports == s.reports && t.pending == s.pending - {r} && t.contexts == s.contexts - {r}
      && t.temps == (if start.isWrite then s.temps - {r} else s.temps)
  {
  }

  lemma GivesBack(s: State, r: nat)
    requires Completes(s, r) && RequestOk(s, r)
    ensures var t, start := AfterComplete(s, r), s.started[r];
      && t.released == s.released + (if start.isWrite
           then multiset{BufferRO(r), BufferWO(r), MemoryBlock(r), ContextBlock(r)} else multiset{ContextBlock(r)})
      && t.delivered == s.delivered + (if start.completion.action
           then multiset{Delivery(r, start.completion, s.reports[r])} else multiset{})
  {
  }

  lemma CountsOnce(r: nat, x: Resource)
    ensures multiset{BufferRO(r), BufferWO(r), MemoryBlock(r), ContextBlock(r)}[x] == if x.id == r then 1 else 0
    ensures multiset{ContextBlock(r)}[x] == if x == ContextBlock(r) then 1 else 0
  {
  }

  lemma CompleteReleases(s: State, r: nat, x: Resource)
    requires Completes(s, r) && RequestOk(s, r) && s.released[x] == Releases(s, x)
    ensures AfterComplete(s, r).released[x] == Releases(AfterComplete(s, r), x)
  {
    hide AfterComplete, RequestOk;
    CompletesOne(s, r);
    GivesBack(s, r);
    CountsOnce(r, x);
  }

  lemma CompleteDelivers(s: State, r: nat, d: Delivery)
    requires Completes(s, r) && RequestOk(s, r) && s.delivered[d] == Deliveries(s, d)
    ensures AfterComplete(s, r).delivered[d] == Deliveries(AfterComplete(s, r), d)
  {
    CompletesOne(s, r);
    GivesBack(s, r);
    hide AfterComplete;
  }

  /** Completing a request finishes it, releases what it needed, and runs its completion. */
  lemma CompleteKeepsAccounts(s: State, r: nat)
    requires Completes(s, r) && RequestOk(s, r) && Accounted(s)
    ensures Accounted(AfterComplete(s, r))
  {
    var t := AfterComplete(s, r);
    CompletesOne(s, r);
    forall k: nat ensures Finished(t, k) <==> Finished(s, k) || k == r {
    }
    hide AfterComplete, RequestOk, Finished, Releases, Deliveries;
    forall x: Resource ensures t.released[x] == Releases(t, x) {
      CompleteReleases(s, r, x);
    }
    forall d: Delivery ensures t.delivered[d] == Deliveries(t, d) {
      CompleteDelivers(s, r, d);
    }
  }

  lemma TempsFollow(s: State, t: State, r: nat)
    requires forall q :: q in s.temps <==> q in s.pending && s.pending[q].isWrite
    requires r in s.pending && t.pending == s.pending - {r}
    requires t.temps == if s.pending[r].isWrite then s.temps - {r} else s.temps
    ensures forall q :: q in t.temps <==> q in t.pending && t.pending[q].isWrite
  {
  }

  lemma RequestsOkWithout(s: State, t: State, r: nat)
    requires RequestsOk(s) && r in s.pending && t.pending == s.pending - {r} && t.contexts == s.contexts - {r}
    requires t.temps == if s.pending[r].isWrite then s.temps - {r} else s.temps
    requires forall q :: q in t.pending ==> RequestOk(t, q)
    ensures RequestsOk(t)
  {
    hide RequestOk;
    TempsFollow(s, t, r);
    assert t.contexts.Keys == t.pending.Keys;
  }

  lemma CompleteKeepsRequests(s: State, r: nat)
    requires RequestsOk(s) && Separate(s) && Completes(s, r) && RequestOk(s, r)
    ensures RequestsOk(AfterComplete(s, r))
  {
    var t := AfterComplete(s, r);
    hide RequestOk, AfterComplete;
    CompletesOne(s, r);
    forall q | q in t.pending ensures RequestOk(t, q) {
      CompleteKeepsRequest(s, r, q);
    }
    RequestsOkWithout(s, t, r);
    hide RequestsOk;
  }

  lemma CompleteKeepsInv(s: State, r: nat)
    requires Inv(s) && Completes(s, r)
    ensures Inv(AfterComplete(s, r))
  {
    assert RequestOk(s, r) by { hide Accounted, Separate; }
    CompleteKeepsAccounts(s, r);
    CompleteKeepsRequests(s, r);
    CompletesOne(s, r);
    hide Accounted, RequestsOk, RequestOk, AfterComplete;
  }

  lemma ClientKeepsInv(s: State, buffer: nat, data: seq<Byte>)
    requires Inv(s) && !InFlight(s, buffer)
    ensures Inv(s.(buffers := s.buffers[buffer := data]))
  {
    var t := s.(buffers := s.buffers[buffer := data]);
    forall q | q in t.pending ensures RequestOk(t, q) {
      assert RequestOk(s, q);
      RequestStays(s, t, q);
    }
    assert forall r: nat :: Finished(t, r) <==> Finished(s, r);
    AccountsStay(s, t);
  }

  lemma InvPreserved(s: State, e: Event)
    requires Inv(s) && Enabled(s, e)
    ensures Inv(Next(s, e))
  {
    hide RequestsOk, Separate, Accounted, AfterRead, AfterWrite, AfterServe, AfterComplete;
    match e
    case StartRead(byteStart, buffer, completion) => StartReadKeepsInv(s, byteStart, buffer, completion);
    case StartWrite(byteStart, buffer, completion) => StartWriteKeepsInv(s, byteStart, buffer, completion);
    case Serve(r, report) => ServeKeepsInv(s, r, report);
    case Complete(r) => CompleteKeepsInv(s, r);
    case ClientStores(buffer, data) => ClientKeepsInv(s, buffer, data);
  }
}
