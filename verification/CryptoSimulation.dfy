/** The filtered disk is a plain disk: every step of the filter and its provider
    is the same step of a disk that stores what clients write and delivers what
    it stores. */
module CryptoSimulation {
  import opened CryptoBytes
  import opened CryptoProtocol

  datatype PlainRequest = PlainRequest(isWrite: bool, byteStart: nat, buffer: nat, completion: Completion)

  datatype Plain = Plain(
    disk: seq<Byte>, buffers: map<nat, seq<Byte>>, pending: map<nat, PlainRequest>,
    reports: map<nat, Report>, count: nat, delivered: multiset<Delivery>)

  predicate PlainEnabled(p: Plain, e: Event) {
    match e
    case StartRead(_, buffer, _) => buffer in p.buffers
    case StartWrite(_, buffer, _) => buffer in p.buffers
    case Serve(r, report) =>
      && r in p.pending && r !in p.reports && p.pending[r].buffer in p.buffers
      && report.actual <= |p.buffers[p.pending[r].buffer]|
      && Within(p.disk, p.pending[r].byteStart, report.actual)
    case Complete(r) => r in p.pending && r in p.reports
    case ClientStores(_, _) => true
  }

  function PlainNext(p: Plain, e: Event): Plain
    requires PlainEnabled(p, e)
  {
    match e
    case StartRead(byteStart, buffer, completion) =>
      p.(pending := p.pending[p.count := PlainRequest(false, byteStart, buffer, completion)], count := p.count + 1)
    case StartWrite(byteStart, buffer, completion) =>
      p.(pending := p.pending[p.count := PlainRequest(true, byteStart, buffer, completion)], count := p.count + 1)
    case Serve(r, report) =>
      var q := p.pending[r];
      var data := p.buffers[q.buffer];
      var t := p.(reports := p.reports[r := report]);
      if q.isWrite
      then t.(disk := Overwrite(p.disk, q.byteStart, data[..report.actual]))
      else t.(buffers := p.buffers[q.buffer := Overwrite(data, 0, Slice(p.disk, q.byteStart, report.actual))])
    case Complete(r) =>
      var q := p.pending[r];
      p.(pending := p.pending - {r},
         delivered := p.delivered + if q.completion.action then multiset{Delivery(r, q.completion, p.reports[r])} else multiset{})
    case ClientStores(buffer, data) => p.(buffers := p.buffers[buffer := data])
  }

  // ----- the plain disk behind a filtered one -----

  /** The provider has filled the buffer for a read that has not completed. */
  predicate Encrypted(s: State, b: nat) {
    exists r :: r in s.pending && r in s.reports && !s.pending[r].isWrite && s.pending[r].data == Client(b)
  }

  function Plaintext(s: State, b: nat): seq<Byte>
    requires b in s.buffers
  {
    if Encrypted(s, b) then Complement(s.buffers[b]) else s.buffers[b]
  }

  function PlainRequestOf(s: State, r: nat): PlainRequest
    requires r in s.pending && r < |s.started|
  {
    PlainRequest(s.started[r].isWrite, s.started[r].byteStart, s.started[r].buffer, s.started[r].completion)
  }

  function PlainBuffers(s: State): map<nat, seq<Byte>> {
    map b | b in s.buffers :: Plaintext(s, b)
  }

  predicate Numbered(s: State) {
    forall r :: r in s.pending ==> r < |s.started|
  }

  function PlainPending(s: State): map<nat, PlainRequest>
    requires Numbered(s)
  {
    map r | r in s.pending :: PlainRequestOf(s, r)
  }

  function Abstract(s: State): Plain
    requires Numbered(s)
  {
    Plain(Complement(s.raw), PlainBuffers(s), PlainPending(s), s.reports, |s.started|, s.delivered)
  }

  /** Reads are served in full; writes may be cut short. */
  predicate ServedInFull(s: State, e: Event)
    requires Enabled(s, e)
  {
    match e
    case Serve(r, report) => s.pending[r].isWrite || report.actual == |Memory(s, s.pending[r].data)|
    case _ => true
  }

  // ----- the cipher against slices -----

  lemma ComplementsSlice(s: seq<Byte>, lo: nat, hi: nat)
    requires lo <= hi <= |s|
    ensures Complement(s[lo..hi]) == Complement(s)[lo..hi]
  {
  }

  lemma ComplementsPart(disk: seq<Byte>, at: nat, n: nat)
    requires Within(disk, at, n)
    ensures Complement(Slice(disk, at, n)) == Slice(Complement(disk), at, n)
  {
  }

  lemma ComplementsOverwrite(disk: seq<Byte>, at: nat, data: seq<Byte>)
    requires Within(disk, at, |data|)
    ensures Complement(Overwrite(disk, at, data)) == Overwrite(Complement(disk), at, Complement(data))
  {
  }

  lemma OverwritesAll(old_: seq<Byte>, data: seq<Byte>)
    requires |data| == |old_|
    ensures Overwrite(old_, 0, data) == data
  {
  }

  // ----- the simulation -----

  lemma EncryptedAfterStart(s: State, t: State)
    requires Inv(s) && t.reports == s.reports && |s.started| in t.pending
    requires t.pending == s.pending[|s.started| := t.pending[|s.started|]]
    ensures forall b :: Encrypted(t, b) <==> Encrypted(s, b)
  {
    assert |s.started| !in s.reports;
    Unstarted(s);
    forall b ensures Encrypted(t, b) <==> Encrypted(s, b) {
      if Encrypted(s, b) {
        var r :| r in s.pending && r in s.reports && !s.pending[r].isWrite && s.pending[r].data == Client(b);
        assert r in t.pending && t.pending[r] == s.pending[r];
      }
    }
  }

  lemma BuffersStay(s: State, t: State)
    requires t.buffers == s.buffers && forall b :: Encrypted(t, b) <==> Encrypted(s, b)
    ensures PlainBuffers(t) == PlainBuffers(s)
  {
    hide Encrypted;
  }

  lemma PendingGrows(s: State, t: State, q: Request, start: Started)
    requires Numbered(s) && t.pending == s.pending[|s.started| := q] && t.started == s.started + [start]
    ensures Numbered(t)
    ensures PlainPending(t) == PlainPending(s)[|s.started| := PlainRequest(start.isWrite, start.byteStart, start.buffer, start.completion)]
  {
  }

  lemma StartSimulates(s: State, e: Event)
    requires Inv(s) && Enabled(s, e) && (e.StartRead? || e.StartWrite?) && Numbered(s)
    ensures Numbered(Next(s, e)) && PlainEnabled(Abstract(s), e) && Abstract(Next(s, e)) == PlainNext(Abstract(s), e)
  {
    var t := Next(s, e);
    EncryptedAfterStart(s, t);
    BuffersStay(s, t);
    PendingGrows(s, t, t.pending[|s.started|], t.started[|s.started|]);
    assert e.buffer in PlainBuffers(s) && |PlainBuffers(s)[e.buffer]| == |s.buffers[e.buffer]|;
    hide Inv, PlainBuffers, PlainPending, Complement, InFlight;
  }

  /** Who has the buffer of a pending request, and what it holds. */
  lemma BufferOf(s: State, r: nat)
    requires Inv(s) && r in s.pending
    ensures r < |s.started| && s.started[r].buffer in s.buffers
    ensures var start, b := s.started[r], s.started[r].buffer;
      && s.pending[r].isWrite == start.isWrite && s.pending[r].byteStart == start.byteStart
      && (Encrypted(s, b) <==> !start.isWrite && r in s.reports)
      && (start.isWrite ==> s.pending[r].data == Temporary(r) && r in s.temps && s.temps[r] == Complement(s.buffers[b]))
      && (!start.isWrite ==> s.pending[r].data == Client(b))
  {
    assert RequestOk(s, r);
    var b := s.started[r].buffer;
    if Encrypted(s, b) {
      var q :| q in s.pending && q in s.reports && !s.pending[q].isWrite && s.pending[q].data == Client(b);
      assert RequestOk(s, q);
    }
  }

  lemma OnlyReader(s: State, r: nat, q: nat)
    requires Inv(s) && r in s.pending && q in s.pending && r < |s.started|
    requires s.pending[q].data == Client(s.started[r].buffer)
    ensures q == r
  {
    assert RequestOk(s, r) && RequestOk(s, q);
  }

  /** Serving or completing a request does not change whether any other buffer
      is encrypted. */
  lemma EncryptedElsewhere(s: State, t: State, r: nat, b: nat)
    requires r in s.pending && (s.pending[r].isWrite || s.pending[r].data != Client(b))
    requires t.pending.Keys + {r} == s.pending.Keys && t.reports.Keys + {r} == s.reports.Keys + {r}
    requires forall q :: q in t.pending ==> t.pending[q] == s.pending[q]
    ensures Encrypted(t, b) <==> Encrypted(s, b)
  {
    if Encrypted(s, b) {
      var q :| q in s.pending && q in s.reports && !s.pending[q].isWrite && s.pending[q].data == Client(b);
      assert q != r && q in t.pending.Keys + {r} && q in t.reports.Keys + {r};
    }
    if Encrypted(t, b) {
      var q :| q in t.pending && q in t.reports && !t.pending[q].isWrite && t.pending[q].data == Client(b);
      assert q in t.pending.Keys + {r} && q in s.reports.Keys + {r};
    }
  }

  lemma BuffersChangeAt(s: State, t: State, b: nat, stored: seq<Byte>)
    requires t.buffers == s.buffers[b := stored]
    requires forall c :: c != b ==> (Encrypted(t, c) <==> Encrypted(s, c))
    ensures PlainBuffers(t) == PlainBuffers(s)[b := if Encrypted(t, b) then Complement(stored) else stored]
  {
    hide Encrypted;
  }

  lemma PendingStays(s: State, t: State)
    requires Numbered(s) && t.pending == s.pending && t.started == s.started
    ensures Numbered(t) && PlainPending(t) == PlainPending(s)
  {
  }

  lemma PendingShrinks(s: State, t: State, r: nat)
    requires Numbered(s) && t.pending == s.pending - {r} && t.started == s.started
    ensures Numbered(t) && PlainPending(t) == PlainPending(s) - {r}
  {
  }

  lemma ServeFacts(s: State, r: nat, report: Report)
    requires Inv(s) && Serves(s, r, report)
    ensures r < |s.started| && s.started[r].buffer in s.buffers
    ensures var start, b, lo := s.started[r], s.started[r].buffer, s.pending[r].byteStart;
      && s.pending[r].isWrite == start.isWrite && lo == start.byteStart
      && Within(s.raw, lo, report.actual) && report.actual <= |s.buffers[b]|
      && (start.isWrite ==>
            && r in s.temps && s.temps[r] == Complement(s.buffers[b])
            && AfterServe(s, r, report) ==
               s.(reports := s.reports[r := report], raw := Overwrite(s.raw, lo, s.temps[r][..report.actual])))
      && (!start.isWrite ==>
            AfterServe(s, r, report) ==
               s.(reports := s.reports[r := report],
                  buffers := s.buffers[b := Overwrite(s.buffers[b], 0, Slice(s.raw, lo, report.actual))]))
  {
    assert RequestOk(s, r);
  }

  lemma ServeFields(s: State, r: nat, report: Report)
    requires Serves(s, r, report)
    ensures r in s.pending && r !in s.reports
    ensures AfterServe(s, r, report).pending == s.pending && AfterServe(s, r, report).started == s.started
    ensures AfterServe(s, r, report).reports == s.reports[r := report]
  {
  }

  lemma EncryptedAfterServe(s: State, r: nat, report: Report)
    requires Inv(s) && Serves(s, r, report) && r < |s.started|
    ensures forall c :: c != s.started[r].buffer || s.started[r].isWrite ==>
              (Encrypted(AfterServe(s, r, report), c) <==> Encrypted(s, c))
    ensures !s.started[r].isWrite ==> Encrypted(AfterServe(s, r, report), s.started[r].buffer)
    ensures !Encrypted(s, s.started[r].buffer)
  {
    var t, b := AfterServe(s, r, report), s.started[r].buffer;
    hide AfterServe, Memory, Serves, Inv;
    ServeFields(s, r, report);
    BufferOf(s, r);
    forall c | c != b || s.started[r].isWrite ensures Encrypted(t, c) <==> Encrypted(s, c) {
      EncryptedElsewhere(s, t, r, c);
    }
  }

  lemma PlainServes(p: Plain, r: nat, report: Report)
    requires r in p.pending && r !in p.reports && p.pending[r].buffer in p.buffers
    requires report.actual <= |p.buffers[p.pending[r].buffer]| && Within(p.disk, p.pending[r].byteStart, report.actual)
    ensures PlainEnabled(p, Serve(r, report))
    ensures var q := p.pending[r]; var data := p.buffers[q.buffer];
      && (q.isWrite ==>
            PlainNext(p, Serve(r, report)) ==
              p.(reports := p.reports[r := report], disk := Overwrite(p.disk, q.byteStart, data[..report.actual])))
      && (!q.isWrite ==>
            PlainNext(p, Serve(r, report)) ==
              p.(reports := p.reports[r := report],
                 buffers := p.buffers[q.buffer := Overwrite(data, 0, Slice(p.disk, q.byteStart, report.actual))]))
  {
    hide Overwrite, Slice;
  }

  /** What the plain disk makes of a write served. */
  lemma PlainWrite(s: State, r: nat, report: Report)
    requires Inv(s) && Serves(s, r, report) && s.pending[r].isWrite && Numbered(s)
    ensures PlainEnabled(Abstract(s), Serve(r, report)) && s.started[r].buffer in s.buffers
    ensures var b, lo, n := s.started[r].buffer, s.pending[r].byteStart, report.actual;
      && Within(s.raw, lo, n) && n <= |s.buffers[b]|
      && PlainNext(Abstract(s), Serve(r, report)) ==
         Abstract(s).(reports := s.reports[r := report], disk := Overwrite(Complement(s.raw), lo, s.buffers[b][..n]))
  {
    hide Inv, AfterServe, Encrypted, Serves, Overwrite, PlainNext, PlainEnabled, PlainBuffers, PlainPending, Numbered;
    ServeFields(s, r, report);
    ServeFacts(s, r, report);
    EncryptedAfterServe(s, r, report);
    PlainAt(s, r, s.started[r].buffer);
    PlainServes(Abstract(s), r, report);
    hide Complement;
  }

  lemma PlainAt(s: State, r: nat, b: nat)
    requires Numbered(s) && r in s.pending && b in s.buffers && !Encrypted(s, b)
    ensures b in PlainBuffers(s) && PlainBuffers(s)[b] == s.buffers[b]
    ensures r in PlainPending(s) && PlainPending(s)[r] == PlainRequestOf(s, r)
  {
    hide Encrypted;
  }

  lemma WritesEncrypted(s: State, lo: nat, data: seq<Byte>, n: nat)
    requires n <= |data| && Within(s.raw, lo, n)
    ensures Complement(Overwrite(s.raw, lo, Complement(data)[..n])) == Overwrite(Complement(s.raw), lo, data[..n])
  {
    hide Overwrite;
    ComplementsSlice(data, 0, n);
    ComplementsOverwrite(s.raw, lo, Complement(data[..n]));
    Involution(data[..n]);
    hide Complement;
  }

  lemma ServeWriteSimulates(s: State, r: nat, report: Report)
    requires Inv(s) && Serves(s, r, report) && s.pending[r].isWrite && Numbered(s)
    ensures var t := AfterServe(s, r, report);
      Numbered(t) && PlainEnabled(Abstract(s), Serve(r, report)) && Abstract(t) == PlainNext(Abstract(s), Serve(r, report))
  {
    hide Inv, Serves, AfterServe, Encrypted, PlainBuffers, PlainPending, Complement, Overwrite, PlainNext, PlainEnabled, Numbered;
    var t := AfterServe(s, r, report);
    ServeFields(s, r, report);
    ServeFacts(s, r, report);
    EncryptedAfterServe(s, r, report);
    var b, lo := s.started[r].buffer, s.pending[r].byteStart;
    BuffersStay(s, t);
    PendingStays(s, t);
    PlainWrite(s, r, report);
    WritesEncrypted(s, lo, s.buffers[b], report.actual);
  }

  /** And of a read. */
  lemma PlainRead(s: State, r: nat, report: Report)
    requires Inv(s) && Serves(s, r, report) && !s.pending[r].isWrite && Numbered(s)
    ensures PlainEnabled(Abstract(s), Serve(r, report)) && s.started[r].buffer in s.buffers
    ensures var b, lo, n := s.started[r].buffer, s.pending[r].byteStart, report.actual;
      && Within(s.raw, lo, n) && n <= |s.buffers[b]|
      && PlainNext(Abstract(s), Serve(r, report)) ==
         Abstract(s).(reports := s.reports[r := report],
                      buffers := PlainBuffers(s)[b := Overwrite(s.buffers[b], 0, Complement(Slice(s.raw, lo, n)))])
  {
    hide Inv, AfterServe, Encrypted, Serves, Overwrite, Slice, PlainNext, PlainEnabled, PlainBuffers, PlainPending, Numbered;
    ServeFields(s, r, report);
    ServeFacts(s, r, report);
    EncryptedAfterServe(s, r, report);
    PlainAt(s, r, s.started[r].buffer);
    PlainServes(Abstract(s), r, report);
    ComplementsPart(s.raw, s.pending[r].byteStart, report.actual);
    hide Complement;
  }

  lemma ServeReadSimulates(s: State, r: nat, report: Report)
    requires Inv(s) && Serves(s, r, report) && !s.pending[r].isWrite && Numbered(s)
    requires report.actual == |Memory(s, s.pending[r].data)|
    ensures var t := AfterServe(s, r, report);
      Numbered(t) && PlainEnabled(Abstract(s), Serve(r, report)) && Abstract(t) == PlainNext(Abstract(s), Serve(r, report))
  {
    var t := AfterServe(s, r, report);
    ServeFields(s, r, report);
    var lo, n := s.pending[r].byteStart, report.actual;
    BufferOf(s, r);
    assert report.actual == |s.buffers[s.started[r].buffer]|;
    hide Inv, AfterServe, Encrypted, Memory, Serves, Complement, Overwrite, PlainBuffers, PlainPending;
    var b := s.started[r].buffer;
    ServeFacts(s, r, report);
    EncryptedAfterServe(s, r, report);
    PlainRead(s, r, report);
    var slice := Slice(s.raw, lo, n);
    OverwritesAll(s.buffers[b], slice);
    OverwritesAll(s.buffers[b], Complement(slice));
    BuffersChangeAt(s, t, b, slice);
    PendingStays(s, t);
  }

  lemma CompleteFacts(s: State, r: nat)
    requires Completes(s, r) && RequestOk(s, r)
    ensures var t, start := AfterComplete(s, r), s.started[r];
      t.raw == s.raw && t.buffers == if start.isWrite then s.buffers else s.buffers[start.buffer := Complement(s.buffers[start.buffer])]
  {
  }

  lemma EncryptedAfterComplete(s: State, r: nat)
    requires Inv(s) && Completes(s, r) && r < |s.started|
    ensures forall c :: c != s.started[r].buffer || s.started[r].isWrite ==>
              (Encrypted(AfterComplete(s, r), c) <==> Encrypted(s, c))
    ensures !s.started[r].isWrite ==>
              Encrypted(s, s.started[r].buffer) && !Encrypted(AfterComplete(s, r), s.started[r].buffer)
  {
    assert RequestOk(s, r);
    CompletesOne(s, r);
    BufferOf(s, r);
    var t, b := AfterComplete(s, r), s.started[r].buffer;
    hide AfterComplete;
    forall c | c != b || s.started[r].isWrite ensures Encrypted(t, c) <==> Encrypted(s, c) {
      EncryptedElsewhere(s, t, r, c);
    }
    forall q | q in s.pending && s.pending[q].data == Client(b) ensures q == r {
      OnlyReader(s, r, q);
    }
  }

  lemma CompleteKeepsPlaintext(s: State, r: nat)
    requires Inv(s) && Completes(s, r)
    ensures PlainBuffers(AfterComplete(s, r)) == PlainBuffers(s)
  {
    assert RequestOk(s, r);
    hide Inv, RequestOk, AfterComplete, Encrypted;
    EncryptedAfterComplete(s, r);
    CompleteFacts(s, r);
    hide Completes;
    var t, b := AfterComplete(s, r), s.started[r].buffer;
    if s.started[r].isWrite {
      BuffersStay(s, t);
    } else {
      assert PlainBuffers(s)[b] == Complement(s.buffers[b]);
      BuffersChangeAt(s, t, b, Complement(s.buffers[b]));
    }
  }

  lemma PlainCompletes(p: Plain, r: nat)
    requires r in p.pending && r in p.reports
    ensures PlainEnabled(p, Complete(r))
    ensures var q := p.pending[r];
      PlainNext(p, Complete(r)) ==
        p.(pending := p.pending - {r},
           delivered := p.delivered + if q.completion.action then multiset{Delivery(r, q.completion, p.reports[r])} else multiset{})
  {
  }

  lemma CompleteSimulates(s: State, r: nat)
    requires Inv(s) && Completes(s, r) && Numbered(s)
    ensures var t := AfterComplete(s, r);
      Numbered(t) && PlainEnabled(Abstract(s), Complete(r)) && Abstract(t) == PlainNext(Abstract(s), Complete(r))
  {
    var t := AfterComplete(s, r);
    assert r in s.pending && r in s.reports && RequestOk(s, r);
    hide Inv, RequestOk, AfterComplete, Completes, PlainBuffers, PlainNext, PlainEnabled, Complement;
    CompletesOne(s, r);
    GivesBack(s, r);
    CompleteFacts(s, r);
    CompleteKeepsPlaintext(s, r);
    PendingShrinks(s, t, r);
    assert PlainPending(s)[r] == PlainRequestOf(s, r);
    hide PlainPending, Numbered;
    PlainCompletes(Abstract(s), r);
  }

  lemma IdleNotEncrypted(s: State, buffer: nat)
    requires Inv(s) && !InFlight(s, buffer)
    ensures !Encrypted(s, buffer)
  {
    forall r | r in s.pending && !s.pending[r].isWrite ensures s.pending[r].data != Client(buffer) {
      assert RequestOk(s, r);
    }
  }

  lemma EncryptedStays(s: State, t: State)
    requires t.pending == s.pending && t.reports == s.reports
    ensures forall c :: Encrypted(t, c) <==> Encrypted(s, c)
  {
  }

  lemma ClientSimulates(s: State, buffer: nat, data: seq<Byte>)
    requires Inv(s) && !InFlight(s, buffer) && Numbered(s)
    ensures var t := s.(buffers := s.buffers[buffer := data]);
      Numbered(t) && Abstract(t) == PlainNext(Abstract(s), ClientStores(buffer, data))
  {
    hide Inv, InFlight, Encrypted, PlainBuffers, PlainPending, Complement, Numbered;
    var t := s.(buffers := s.buffers[buffer := data]);
    PendingStays(s, t);
    IdleNotEncrypted(s, buffer);
    EncryptedStays(s, t);
    BuffersChangeAt(s, t, buffer, data);
  }

  /** One step of the filtered disk is one step of the plain disk. */
  lemma StepSimulates(s: State, e: Event)
    requires Inv(s) && Enabled(s, e) && ServedInFull(s, e) && Numbered(s)
    ensures Numbered(Next(s, e)) && PlainEnabled(Abstract(s), e) && Abstract(Next(s, e)) == PlainNext(Abstract(s), e)
  {
    match e
    case StartRead(_, _, _) => StartSimulates(s, e);
    case StartWrite(_, _, _) => StartSimulates(s, e);
    case Serve(r, report) =>
      hide Inv, Serves, AfterServe, Abstract, PlainNext, PlainEnabled;
      if s.pending[r].isWrite {
        ServeWriteSimulates(s, r, report);
      } else {
        ServeReadSimulates(s, r, report);
      }
    case Complete(r) =>
      hide Inv, Completes, AfterComplete, Abstract, PlainNext, PlainEnabled;
      CompleteSimulates(s, r);
    case ClientStores(buffer, data) =>
      hide Inv, Abstract;
      ClientSimulates(s, buffer, data);
  }

  // ----- runs -----

  predicate IsRun(states: seq<State>, events: seq<Event>) {
    && |states| == |events| + 1
    && forall k :: 0 <= k < |events| ==> Enabled(states[k], events[k]) && states[k + 1] == Next(states[k], events[k])
  }

  lemma {:induction false} RunKeepsInv(states: seq<State>, events: seq<Event>, k: nat)
    requires IsRun(states, events) && Inv(states[0]) && k <= |events|
    ensures Inv(states[k]) && Numbered(states[k])
  {
    hide Inv, Next, Enabled;
    if k > 0 {
      RunKeepsInv(states, events, k - 1);
      InvPreserved(states[k - 1], events[k - 1]);
    }
    InvNumbers(states[k]);
  }

  lemma InvNumbers(s: State)
    requires Inv(s)
    ensures Numbered(s)
  {
    Unstarted(s);
  }

  /** Under every interleaving of starts, services and completions, with reads
      served in full, the filtered disk is the plain disk. */
  lemma RunSimulates(states: seq<State>, events: seq<Event>, k: nat)
    requires IsRun(states, events) && Inv(states[0]) && k < |events| && ServedInFull(states[k], events[k])
    ensures Numbered(states[k]) && Numbered(states[k + 1])
    ensures PlainEnabled(Abstract(states[k]), events[k])
    ensures Abstract(states[k + 1]) == PlainNext(Abstract(states[k]), events[k])
  {
    hide Inv, Next, Enabled, PlainNext, PlainEnabled, Abstract, Numbered;
    RunKeepsInv(states, events, k);
    StepSimulates(states[k], events[k]);
  }

  /** In every run, each resource has been given back once if its request has
      completed and needed it, and never before; each completion has run once
      for a completed request, as given, with what the provider reported. */
  lemma RunAccounts(states: seq<State>, events: seq<Event>, k: nat)
    requires IsRun(states, events) && Inv(states[0]) && k <= |events|
    ensures forall x: Resource :: states[k].released[x] == Releases(states[k], x)
    ensures forall d: Delivery :: states[k].delivered[d] == Deliveries(states[k], d)
  {
    RunKeepsInv(states, events, k);
  }

  /** While a write is in flight its buffer holds what the client gave. */
  lemma RunKeepsWriteBuffers(states: seq<State>, events: seq<Event>, k: nat, r: nat)
    requires IsRun(states, events) && Inv(states[0]) && k <= |events|
    requires r in states[k].pending && states[k].pending[r].isWrite
    ensures var s := states[k];
      && r < |s.started| && s.started[r].buffer in s.buffers && s.buffers[s.started[r].buffer] == s.started[r].data
  {
    RunKeepsInv(states, events, k);
    assert RequestOk(states[k], r);
  }

  /** Complementing all of a buffer of which only a part was filled. */
  lemma ComplementsFilled(old_: seq<Byte>, data: seq<Byte>)
    requires |data| <= |old_|
    ensures Complement(Overwrite(old_, 0, data)) == Overwrite(old_, 0, Complement(data)) <==> |data| == |old_|
  {
    var got, plain := Complement(Overwrite(old_, 0, data)), Overwrite(old_, 0, Complement(data));
    if |data| < |old_| {
      assert got[|data|] == 255 - old_[|data|] && plain[|data|] == old_[|data|];
    }
  }

  lemma FilteredRead(s: State, r: nat, report: Report)
    requires Inv(s) && Serves(s, r, report) && !s.pending[r].isWrite
    ensures r < |s.started| && s.started[r].buffer in s.buffers && Completes(AfterServe(s, r, report), r)
    ensures var b, lo, n := s.started[r].buffer, s.pending[r].byteStart, report.actual;
      && Within(s.raw, lo, n) && n <= |s.buffers[b]|
      && AfterComplete(AfterServe(s, r, report), r).buffers ==
         s.buffers[b := Complement(Overwrite(s.buffers[b], 0, Slice(s.raw, lo, n)))]
  {
    var t := AfterServe(s, r, report);
    ServeFacts(s, r, report);
    assert RequestOk(s, r);
    hide Inv, AfterServe, Overwrite, Complement, Serves;
  }

  /** A completed read leaves the buffer as a plain disk would exactly when the
      provider filled it all: completion complements the whole buffer, also the
      part the provider did not reach and also on an error. */
  lemma ReadDelivers(s: State, r: nat, report: Report)
    requires Inv(s) && Serves(s, r, report) && !s.pending[r].isWrite && Numbered(s)
    ensures r < |s.started| && s.started[r].buffer in s.buffers
    ensures Completes(AfterServe(s, r, report), r) && PlainEnabled(Abstract(s), Serve(r, report))
    ensures var b, plain := s.started[r].buffer, PlainNext(Abstract(s), Serve(r, report)).buffers;
      && b in plain && b in AfterComplete(AfterServe(s, r, report), r).buffers
      && (AfterComplete(AfterServe(s, r, report), r).buffers[b] == plain[b] <==> report.actual == |s.buffers[b]|)
  {
    var lo, n := s.pending[r].byteStart, report.actual;
    hide Inv, Serves, Completes, AfterServe, AfterComplete, Complement, Overwrite, PlainNext, PlainEnabled, Abstract, PlainBuffers;
    FilteredRead(s, r, report);
    PlainRead(s, r, report);
    var b := s.started[r].buffer;
    ComplementsFilled(s.buffers[b], Slice(s.raw, lo, n));
  }
}
