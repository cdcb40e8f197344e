/** Parsing the stream of file system events read from the device: records of
    type-length-value arguments, walked by an offset and an argument pointer.

    The numeric codes come from a system header that is not part of this model;
    they are parameters. Multi-byte fields are big-endian. */
module EventStream {

  type Byte = b: int | 0 <= b < 256
  type Int32 = n: int | -0x8000_0000 <= n < 0x8000_0000
  type UInt16 = n: int | 0 <= n < 0x1_0000

  /** sys/fsevents.h: number of event types, the dropped-events type, the
      end-of-arguments type, the argument limit, and two argument types. */
  datatype Codes = Codes(maxEvents: Int32, dropped: Int32, argDone: UInt16, maxArgs: nat, argVnode: UInt16, argDev: UInt16)

  // ----- what is parsed -----

  datatype Arg = Arg(kind: UInt16, data: seq<Byte>)

  datatype Event =
    | Dropped(pid: Int32)
    | Event(kind: Int32, pid: Int32, args: seq<Arg>)

  datatype Outcome =
    | Parsed                 // off has reached ret
    | BadType(kind: Int32)   // "This may be a program bug"
    | Overrun                // a field would be read beyond the buffer

  // ----- fields -----

  function GetU16(b: seq<Byte>, at: nat): UInt16
    requires at + 2 <= |b|
  {
    b[at] as int * 256 + b[at + 1] as int
  }

  function GetU32(b: seq<Byte>, at: nat): int
    requires at + 4 <= |b|
  {
    GetU16(b, at) as int * 0x1_0000 + GetU16(b, at + 2) as int
  }

  function GetI32(b: seq<Byte>, at: nat): Int32
    requires at + 4 <= |b|
  {
    var u := GetU32(b, at);
    if u < 0x8000_0000 then u else u - 0x1_0000_0000
  }

  function PutU16(n: UInt16): seq<Byte> {
    [n / 256, n % 256]
  }

  function PutI32(n: Int32): seq<Byte> {
    var u := if n < 0 then n as int + 0x1_0000_0000 else n as int;
    PutU16(u / 0x1_0000) + PutU16(u % 0x1_0000)
  }

  // ----- the format -----

  function EncodeArg(a: Arg): seq<Byte>
    requires |a.data| < 0x1_0000
  {
    PutU16(a.kind) + PutU16(|a.data|) + a.data
  }

  predicate ArgOk(c: Codes, a: Arg) {
    a.kind != c.argDone && |a.data| < 0x1_0000
  }

  predicate ArgsOk(c: Codes, args: seq<Arg>) {
    forall a :: a in args ==> ArgOk(c, a)
  }

  function EncodeArgs(c: Codes, args: seq<Arg>): seq<Byte>
    requires ArgsOk(c, args)
  {
    if args == [] then []
    else assert ArgOk(c, args[0]); EncodeArg(args[0]) + EncodeArgs(c, args[1..])
  }

  /** An event the device can deliver, but for the number of its arguments. */
  predicate EventOk(c: Codes, e: Event) {
    e.Event? ==> e.kind != c.dropped && -1 <= e.kind < c.maxEvents && ArgsOk(c, e.args)
  }

  function EncodeEvent(c: Codes, e: Event): seq<Byte>
    requires EventOk(c, e)
  {
    match e
    case Dropped(pid) => PutI32(c.dropped) + PutI32(pid) + PutU16(c.argDone)
    case Event(kind, pid, args) => PutI32(kind) + PutI32(pid) + (EncodeArgs(c, args) + PutU16(c.argDone))
  }

  predicate EventsOk(c: Codes, es: seq<Event>) {
    forall e :: e in es ==> EventOk(c, e)
  }

  function EncodeEvents(c: Codes, es: seq<Event>): seq<Byte>
    requires EventsOk(c, es)
  {
    if es == [] then [] else EncodeEvent(c, es[0]) + EncodeEvents(c, es[1..])
  }

  // ----- the parser, as functions of the buffer and an offset -----

  /** The arguments of one event: what is parsed, and the offset afterwards, or
      None if a field lies beyond the buffer. `i` arguments have been seen. */
  datatype ArgsResult = ArgsResult(args: seq<Arg>, off: nat) | ArgsOverrun

  function ParseArgs(c: Codes, b: seq<Byte>, ret: int, off: nat, i: nat): (r: ArgsResult)
    ensures r.ArgsResult? ==> r.off >= off
    decreases c.maxArgs + 1 - i
  {
    if !(off < ret && i <= c.maxArgs) then ArgsResult([], off)
    else if off + 2 > |b| then ArgsOverrun
    else if GetU16(b, off) == c.argDone then ArgsResult([], off + 2)
    else if off + 4 > |b| then ArgsOverrun
    else
      var len := GetU16(b, off + 2);
      if off + 4 + len as int > |b| then ArgsOverrun
      else
        var rest := ParseArgs(c, b, ret, off + 4 + len as int, i + 1);
        if rest.ArgsOverrun? then rest
        else rest.(args := [Arg(GetU16(b, off), b[off + 4..off + 4 + len as int])] + rest.args)
  }

  function ParseEvents(c: Codes, b: seq<Byte>, ret: int, off: nat): (seq<Event>, Outcome)
    decreases ret - off
  {
    if off >= ret then ([], Parsed)
    else if off + 8 > |b| then ([], Overrun)
    else
      var kind, pid := GetI32(b, off), GetI32(b, off + 4);
      if kind == c.dropped then
        var (es, o) := ParseEvents(c, b, ret, off + 10);
        ([Dropped(pid)] + es, o)
      else if kind < c.maxEvents && kind >= -1 then
        var r := ParseArgs(c, b, ret, off + 8, 0);
        if r.ArgsOverrun? then ([], Overrun)
        else
          var (es, o) := ParseEvents(c, b, ret, r.off);
          ([Event(kind, pid, r.args)] + es, o)
      else ([], BadType(kind))
  }

  // ----- round trip -----

  lemma GetsPutU16(b: seq<Byte>, at: nat, n: UInt16)
    requires at + 2 <= |b| && b[at..at + 2] == PutU16(n)
    ensures GetU16(b, at) == n
  {
    assert b[at] == PutU16(n)[0] && b[at + 1] == PutU16(n)[1];
  }

  lemma GetsPutI32(b: seq<Byte>, at: nat, n: Int32)
    requires at + 4 <= |b| && b[at..at + 4] == PutI32(n)
    ensures GetI32(b, at) == n
  {
    var u := if n < 0 then n as int + 0x1_0000_0000 else n as int;
    assert b[at..at + 2] == b[at..at + 4][..2] && b[at + 2..at + 4] == b[at..at + 4][2..];
    GetsPutU16(b, at, u / 0x1_0000);
    GetsPutU16(b, at + 2, u % 0x1_0000);
  }

  function ArgsSize(args: seq<Arg>): nat {
    if args == [] then 0 else 4 + |args[0].data| + ArgsSize(args[1..])
  }

  function EventSize(e: Event): nat {
    if e.Dropped? then 10 else 10 + ArgsSize(e.args)
  }

  function EventsSize(es: seq<Event>): nat {
    if es == [] then 0 else EventSize(es[0]) + EventsSize(es[1..])
  }

  lemma {:induction false} EncodedArgsSize(c: Codes, args: seq<Arg>)
    requires ArgsOk(c, args)
    ensures |EncodeArgs(c, args)| == ArgsSize(args)
  {
    if args != [] {
      assert ArgOk(c, args[0]);
      EncodedArgsSize(c, args[1..]);
    }
  }

  lemma {:induction false} EncodedEventsSize(c: Codes, es: seq<Event>)
    requires EventsOk(c, es)
    ensures |EncodeEvents(c, es)| == EventsSize(es)
  {
    if es != [] {
      assert EventOk(c, es[0]);
      if es[0].Event? {
        EncodedArgsSize(c, es[0].args);
      }
      EncodedEventsSize(c, es[1..]);
    }
  }

  predicate Fits(c: Codes, e: Event) {
    e.Event? ==> |e.args| <= c.maxArgs
  }

  predicate AllFit(c: Codes, es: seq<Event>) {
    forall e :: e in es ==> Fits(c, e)
  }

  lemma SliceOfSlice(b: seq<Byte>, off: nat, end: nat, lo: nat, hi: nat)
    requires off <= end <= |b| && lo <= hi <= end - off
    ensures b[off + lo..off + hi] == b[off..end][lo..hi]
  {
    var x, y := b[off + lo..off + hi], b[off..end][lo..hi];
    forall k | 0 <= k < hi - lo ensures x[k] == y[k] {
      assert x[k] == b[off + lo + k] == b[off..end][lo + k];
    }
  }

  lemma ArgFields(a: Arg, rest: seq<Byte>)
    requires |a.data| < 0x1_0000
    ensures var whole, n := EncodeArg(a) + rest, |a.data|;
      whole[..2] == PutU16(a.kind) && whole[2..4] == PutU16(n) && whole[4..4 + n] == a.data && whole[4 + n..] == rest
  {
    PutU16Size(a.kind);
    PutU16Size(|a.data|);
    hide PutU16;
    var whole, k, l := EncodeArg(a) + rest, PutU16(a.kind), PutU16(|a.data|);
    assert whole == k + l + a.data + rest;
    assert whole[..2] == k && whole[2..4] == l && whole[4..4 + |a.data|] == a.data;
    assert whole[4 + |a.data|..] == rest;
  }

  /** One argument at `off`, followed by `rest`. */
  lemma GetsArg(b: seq<Byte>, off: nat, end: nat, a: Arg, rest: seq<Byte>)
    requires off <= end <= |b| && |a.data| < 0x1_0000 && b[off..end] == EncodeArg(a) + rest
    ensures off + 4 + |a.data| <= end
    ensures GetU16(b, off) == a.kind && GetU16(b, off + 2) == |a.data|
    ensures b[off + 4..off + 4 + |a.data|] == a.data && b[off + 4 + |a.data|..end] == rest
  {
    var n := |a.data|;
    assert |EncodeArg(a)| == 4 + n;
    ArgFields(a, rest);
    SliceOfSlice(b, off, end, 0, 2);
    SliceOfSlice(b, off, end, 2, 4);
    SliceOfSlice(b, off, end, 4, 4 + n);
    SliceOfSlice(b, off, end, 4 + n, end - off);
    GetsPutU16(b, off, a.kind);
    GetsPutU16(b, off + 2, n);
  }

  lemma EncodesHead(c: Codes, args: seq<Arg>, tail: seq<Byte>)
    requires ArgsOk(c, args) && args != []
    ensures ArgOk(c, args[0]) && ArgsOk(c, args[1..])
    ensures EncodeArgs(c, args) + tail == EncodeArg(args[0]) + (EncodeArgs(c, args[1..]) + tail)
  {
    assert ArgOk(c, args[0]);
  }

  lemma ParsesDone(c: Codes, b: seq<Byte>, ret: int, off: nat, i: nat)
    requires i <= c.maxArgs && off + 2 <= ret <= |b| && b[off..off + 2] == EncodeArgs(c, []) + PutU16(c.argDone)
    ensures ParseArgs(c, b, ret, off, i) == ArgsResult([], off + 2)
  {
    assert EncodeArgs(c, []) + PutU16(c.argDone) == PutU16(c.argDone);
    GetsPutU16(b, off, c.argDone);
  }

  /** One argument more in front. */
  lemma ParsesMore(c: Codes, b: seq<Byte>, ret: int, off: nat, i: nat, a: Arg, rest: seq<Arg>, end: nat)
    requires i <= c.maxArgs && off + 4 + |a.data| <= end <= ret <= |b| && off < ret
    requires GetU16(b, off) == a.kind != c.argDone && GetU16(b, off + 2) == |a.data|
    requires b[off + 4..off + 4 + |a.data|] == a.data
    requires ParseArgs(c, b, ret, off + 4 + |a.data|, i + 1) == ArgsResult(rest, end)
    ensures ParseArgs(c, b, ret, off, i) == ArgsResult([a] + rest, end)
  {
    hide GetU16;
  }

  /** Arguments up to the limit are parsed back, end mark included. */
  lemma {:induction false} ParsesArgs(c: Codes, b: seq<Byte>, ret: int, off: nat, i: nat, args: seq<Arg>)
    requires ArgsOk(c, args) && i + |args| <= c.maxArgs
    requires off + ArgsSize(args) + 2 <= ret <= |b|
    requires b[off..off + ArgsSize(args) + 2] == EncodeArgs(c, args) + PutU16(c.argDone)
    ensures ParseArgs(c, b, ret, off, i) == ArgsResult(args, off + ArgsSize(args) + 2)
    decreases |args|
  {
    hide PutU16, GetU16, EncodeArg, EncodeArgs, ParseArgs, ArgsOk;
    if args == [] {
      assert ArgsSize(args) == 0;
      ParsesDone(c, b, ret, off, i);
    } else {
      var a, rest, end := args[0], args[1..], off + ArgsSize(args) + 2;
      assert ArgsSize(args) == 4 + |a.data| + ArgsSize(rest);
      EncodesHead(c, args, PutU16(c.argDone));
      GetsArg(b, off, end, a, EncodeArgs(c, rest) + PutU16(c.argDone));
      ParsesArgs(c, b, ret, off + 4 + |a.data|, i + 1, rest);
      ParsesMore(c, b, ret, off, i, a, rest, end);
      assert [a] + rest == args;
    }
  }

  /** What is parsed for arguments accounts for the bytes passed, and the limit
      is never exceeded by more than one; at that one, no end mark was read. */
  lemma {:induction false} ParsedArgsSize(c: Codes, b: seq<Byte>, ret: int, off: nat, i: nat)
    requires i <= c.maxArgs + 1 && ParseArgs(c, b, ret, off, i).ArgsResult?
    ensures var r := ParseArgs(c, b, ret, off, i);
      && r.off <= off + ArgsSize(r.args) + 2
      && |r.args| + i <= c.maxArgs + 1
      && (|r.args| + i == c.maxArgs + 1 ==> r.off == off + ArgsSize(r.args))
    decreases c.maxArgs + 1 - i
  {
    if off < ret && i <= c.maxArgs && GetU16(b, off) != c.argDone {
      var n := GetU16(b, off + 2);
      ParsedArgsSize(c, b, ret, off + 4 + n as int, i + 1);
      var r := ParseArgs(c, b, ret, off, i);
      assert r.args[1..] == ParseArgs(c, b, ret, off + 4 + n as int, i + 1).args;
    }
  }

  /** A complete parse leaves no byte unaccounted for. */
  lemma {:induction false} ParsedEventsSize(c: Codes, b: seq<Byte>, ret: int, off: nat)
    requires ParseEvents(c, b, ret, off).1 == Parsed
    ensures ret - off <= EventsSize(ParseEvents(c, b, ret, off).0)
    decreases ret - off
  {
    if off < ret {
      var es := ParseEvents(c, b, ret, off).0;
      if GetI32(b, off) == c.dropped {
        ParsedEventsSize(c, b, ret, off + 10);
        assert es[1..] == ParseEvents(c, b, ret, off + 10).0;
      } else {
        var r := ParseArgs(c, b, ret, off + 8, 0);
        ParsedArgsSize(c, b, ret, off + 8, 0);
        ParsedEventsSize(c, b, ret, r.off);
        assert es[1..] == ParseEvents(c, b, ret, r.off).0;
      }
    }
  }

  lemma GetsHeader(b: seq<Byte>, off: nat, end: nat, kind: Int32, pid: Int32, rest: seq<Byte>)
    requires off <= end <= |b| && b[off..end] == PutI32(kind) + PutI32(pid) + rest
    ensures off + 8 <= end && GetI32(b, off) == kind && GetI32(b, off + 4) == pid && b[off + 8..end] == rest
  {
    var whole := PutI32(kind) + PutI32(pid) + rest;
    assert |PutI32(kind)| == 4 == |PutI32(pid)|;
    assert whole[..4] == PutI32(kind) && whole[4..8] == PutI32(pid) && whole[8..] == rest;
    SliceOfSlice(b, off, end, 0, 4);
    SliceOfSlice(b, off, end, 4, 8);
    SliceOfSlice(b, off, end, 8, end - off);
    GetsPutI32(b, off, kind);
    GetsPutI32(b, off + 4, pid);
  }

  lemma ParsesDropped(c: Codes, b: seq<Byte>, ret: nat, off: nat, e: Event, rest: seq<Byte>)
    requires e.Dropped? && off <= ret <= |b| && b[off..ret] == EncodeEvent(c, e) + rest
    ensures off + 10 <= ret && b[off + 10..ret] == rest
    ensures GetI32(b, off) == c.dropped && GetI32(b, off + 4) == e.pid
  {
    PutU16Size(c.argDone);
    hide PutU16, PutI32, GetI32;
    assert EncodeEvent(c, e) + rest == PutI32(c.dropped) + PutI32(e.pid) + (PutU16(c.argDone) + rest);
    GetsHeader(b, off, ret, c.dropped, e.pid, PutU16(c.argDone) + rest);
    SliceOfSlice(b, off + 8, ret, 2, ret - off - 8);
  }

  lemma ParsesDetails(c: Codes, b: seq<Byte>, ret: nat, off: nat, e: Event, rest: seq<Byte>)
    requires EventOk(c, e) && e.Event? && off <= ret <= |b| && b[off..ret] == EncodeEvent(c, e) + rest
    ensures off + EventSize(e) <= ret && b[off + EventSize(e)..ret] == rest
    ensures GetI32(b, off) == e.kind && GetI32(b, off + 4) == e.pid
    ensures Fits(c, e) ==> ParseArgs(c, b, ret, off + 8, 0) == ArgsResult(e.args, off + EventSize(e))
  {
    var body := EncodeArgs(c, e.args) + PutU16(c.argDone);
    EncodedArgsSize(c, e.args);
    PutU16Size(c.argDone);
    hide PutU16, PutI32, GetI32, EncodeArgs;
    assert EncodeEvent(c, e) + rest == PutI32(e.kind) + PutI32(e.pid) + (body + rest);
    GetsHeader(b, off, ret, e.kind, e.pid, body + rest);
    SliceOfSlice(b, off + 8, ret, 0, |body|);
    SliceOfSlice(b, off + 8, ret, |body|, ret - off - 8);
    if Fits(c, e) {
      ParsesArgs(c, b, ret, off + 8, 0, e.args);
    }
  }

  /** One event at `off`, followed by `rest`. */
  lemma ParsesEvent(c: Codes, b: seq<Byte>, ret: nat, off: nat, e: Event, rest: seq<Byte>)
    requires EventOk(c, e) && off <= ret <= |b| && b[off..ret] == EncodeEvent(c, e) + rest
    ensures off + EventSize(e) <= ret && b[off + EventSize(e)..ret] == rest
    ensures Fits(c, e) ==>
      var after := ParseEvents(c, b, ret, off + EventSize(e));
      ParseEvents(c, b, ret, off) == ([e] + after.0, after.1)
    ensures off + 8 <= ret
    ensures !Fits(c, e) ==> GetI32(b, off) == e.kind
  {
    hide PutU16, PutI32, GetI32, EncodeArgs, EncodeEvent;
    if e.Dropped? {
      ParsesDropped(c, b, ret, off, e, rest);
    } else {
      ParsesDetails(c, b, ret, off, e, rest);
    }
  }

  lemma PutU16Size(n: UInt16)
    ensures |PutU16(n)| == 2
  {
  }

  /** An event with more arguments than the limit is not parsed back. */
  lemma TooManyArgs(c: Codes, b: seq<Byte>, ret: nat, off: nat, es: seq<Event>)
    requires es != [] && EventOk(c, es[0]) && !Fits(c, es[0])
    requires off < ret && off + 8 <= |b| && GetI32(b, off) == es[0].kind && ret - off == EventsSize(es)
    ensures ParseEvents(c, b, ret, off) != (es, Parsed)
  {
    var e := es[0];
    if ParseEvents(c, b, ret, off) == (es, Parsed) {
      var r := ParseArgs(c, b, ret, off + 8, 0);
      ParsedArgsSize(c, b, ret, off + 8, 0);
      var after := ParseEvents(c, b, ret, r.off);
      ConsEqual(es, Event(e.kind, GetI32(b, off + 4), r.args), after.1, after.0);
      ParsedEventsSize(c, b, ret, r.off);
      assert false;
    }
  }

  lemma SplitsHead(c: Codes, es: seq<Event>)
    requires EventsOk(c, es) && es != []
    ensures EventOk(c, es[0]) && EventsOk(c, es[1..])
    ensures AllFit(c, es) <==> Fits(c, es[0]) && AllFit(c, es[1..])
    ensures EncodeEvents(c, es) == EncodeEvent(c, es[0]) + EncodeEvents(c, es[1..])
    ensures EventsSize(es) == EventSize(es[0]) + EventsSize(es[1..])
  {
    assert EventOk(c, es[0]);
    if Fits(c, es[0]) && AllFit(c, es[1..]) {
      forall e | e in es ensures Fits(c, e) {
        assert e == es[0] || e in es[1..];
      }
    }
  }

  lemma ConsEqual(es: seq<Event>, f: Event, o: Outcome, fs: seq<Event>)
    requires es != []
    ensures ([f] + fs, o) == (es, Parsed) <==> f == es[0] && (fs, o) == (es[1..], Parsed)
  {
    assert es == [es[0]] + es[1..];
    assert ([f] + fs)[0] == f && ([f] + fs)[1..] == fs;
  }

  lemma NothingToParse(c: Codes, b: seq<Byte>, ret: nat, off: nat)
    requires off <= ret <= |b| && b[off..ret] == EncodeEvents(c, [])
    ensures ParseEvents(c, b, ret, off) == ([], Parsed) && AllFit(c, [])
  {
  }

  /** One event, and what is left of the question. */
  lemma RoundTripHead(c: Codes, b: seq<Byte>, ret: nat, off: nat, es: seq<Event>)
    requires es != [] && EventsOk(c, es) && off <= ret <= |b| && b[off..ret] == EncodeEvents(c, es)
    ensures EventsOk(c, es[1..]) && off + EventSize(es[0]) <= ret
    ensures b[off + EventSize(es[0])..ret] == EncodeEvents(c, es[1..])
    ensures AllFit(c, es) <==> Fits(c, es[0]) && AllFit(c, es[1..])
    ensures ParseEvents(c, b, ret, off) == (es, Parsed) <==>
              Fits(c, es[0]) && ParseEvents(c, b, ret, off + EventSize(es[0])) == (es[1..], Parsed)
  {
    hide EventsOk, EventOk, EncodeEvent, EncodeEvents, EventsSize, EventSize, AllFit, Fits, ParseEvents, GetI32;
    EncodedEventsSize(c, es);
    SplitsHead(c, es);
    ParsesEvent(c, b, ret, off, es[0], EncodeEvents(c, es[1..]));
    if Fits(c, es[0]) {
      var after := ParseEvents(c, b, ret, off + EventSize(es[0]));
      ConsEqual(es, es[0], after.1, after.0);
    } else {
      TooManyArgs(c, b, ret, off, es);
    }
  }

  /** A buffer holding a list of events, and anything after them, is parsed back
      to exactly that list, consuming all of it, if and only if no event has more
      than the limit of arguments. */
  lemma {:induction false} RoundTrip(c: Codes, b: seq<Byte>, ret: nat, off: nat, es: seq<Event>)
    requires EventsOk(c, es) && off <= ret <= |b| && b[off..ret] == EncodeEvents(c, es)
    ensures ParseEvents(c, b, ret, off) == (es, Parsed) <==> AllFit(c, es)
    decreases |es|
  {
    hide EventsOk, EventOk, EncodeEvent, EncodeEvents, EventsSize, EventSize, AllFit, Fits, ParseEvents;
    if es == [] {
      NothingToParse(c, b, ret, off);
    } else {
      RoundTripHead(c, b, ret, off, es);
      RoundTrip(c, b, ret, off + EventSize(es[0]), es[1..]);
    }
  }

  // ----- buffers that are not a list of events -----

  lemma NoSize(args: seq<Arg>)
    requires args == []
    ensures ArgsSize(args) == 0
  {
  }

  lemma OneSize(args: seq<Arg>)
    requires args != []
    ensures ArgsSize(args) == 4 + |args[0].data| + ArgsSize(args[1..])
  {
  }

  /** Arguments in front of anything else, within the limit and one more. */
  lemma {:induction false} ParsesArgsFront(c: Codes, b: seq<Byte>, ret: int, off: nat, i: nat, args: seq<Arg>)
    requires ArgsOk(c, args) && i + |args| <= c.maxArgs + 1
    requires off + ArgsSize(args) <= ret <= |b| && b[off..off + ArgsSize(args)] == EncodeArgs(c, args)
    ensures var rest := ParseArgs(c, b, ret, off + ArgsSize(args), i + |args|);
      ParseArgs(c, b, ret, off, i) == if rest.ArgsOverrun? then ArgsOverrun else ArgsResult(args + rest.args, rest.off)
    decreases |args|
  {
    hide PutU16, GetU16, EncodeArg, EncodeArgs, ParseArgs, ArgsOk, ArgsSize;
    if args == [] {
      NoneInFront(ParseArgs(c, b, ret, off, i));
      NoSize(args);
    } else {
      var a, more, end := args[0], args[1..], off + ArgsSize(args);
      OneSize(args);
      EncodesHead(c, args, []);
      assert EncodeArgs(c, args) + [] == EncodeArgs(c, args) && EncodeArgs(c, more) + [] == EncodeArgs(c, more);
      GetsArg(b, off, end, a, EncodeArgs(c, more));
      ParsesArgsFront(c, b, ret, off + 4 + |a.data|, i + 1, more);
      OneInFront(c, b, ret, off, i, a);
      var rest := ParseArgs(c, b, ret, end, i + |args|);
      if rest.ArgsResult? {
        assert [a] + (more + rest.args) == args + rest.args;
      }
    }
  }

  lemma NoneInFront(r: ArgsResult)
    ensures r == if r.ArgsOverrun? then ArgsOverrun else ArgsResult([] + r.args, r.off)
  {
    if r.ArgsResult? {
      assert [] + r.args == r.args;
    }
  }

  lemma OneInFront(c: Codes, b: seq<Byte>, ret: int, off: nat, i: nat, a: Arg)
    requires i <= c.maxArgs && off < ret && off + 4 + |a.data| <= |b| && |a.data| < 0x1_0000
    requires GetU16(b, off) == a.kind != c.argDone && GetU16(b, off + 2) == |a.data|
    requires b[off + 4..off + 4 + |a.data|] == a.data
    ensures var rest := ParseArgs(c, b, ret, off + 4 + |a.data|, i + 1);
      ParseArgs(c, b, ret, off, i) == if rest.ArgsOverrun? then ArgsOverrun else ArgsResult([a] + rest.args, rest.off)
  {
    hide GetU16;
  }

  /** Of more arguments than the limit, the limit and one are taken, and parsing
      goes on at the next as if an event began there. */
  lemma TooManyTaken(c: Codes, b: seq<Byte>, ret: int, off: nat, args: seq<Arg>)
    requires ArgsOk(c, args) && |args| == c.maxArgs + 1
    requires off + ArgsSize(args) <= ret <= |b| && b[off..off + ArgsSize(args)] == EncodeArgs(c, args)
    ensures ParseArgs(c, b, ret, off, 0) == ArgsResult(args, off + ArgsSize(args))
  {
    hide EncodeArgs, ArgsOk;
    ParsesArgsFront(c, b, ret, off, 0, args);
    assert args + [] == args;
  }

  /** There is no whole argument, nor the mark of their end, at `at`. */
  predicate CutShort(c: Codes, b: seq<Byte>, at: nat) {
    || at + 2 > |b|
    || (GetU16(b, at) != c.argDone && (at + 4 > |b| || at + 4 + GetU16(b, at + 2) as int > |b|))
  }

  /** Arguments of which the last is cut short by the end of the buffer. */
  lemma ArgsCutShort(c: Codes, b: seq<Byte>, ret: int, off: nat, args: seq<Arg>)
    requires ArgsOk(c, args) && |args| <= c.maxArgs
    requires off + ArgsSize(args) < ret <= |b| && b[off..off + ArgsSize(args)] == EncodeArgs(c, args)
    requires CutShort(c, b, off + ArgsSize(args))
    ensures ParseArgs(c, b, ret, off, 0) == ArgsOverrun
  {
    hide EncodeArgs, ArgsOk, GetU16;
    ParsesArgsFront(c, b, ret, off, 0, args);
  }

  /** What parsing makes of `rest` behind `es`. */
  function Behind(es: seq<Event>, rest: (seq<Event>, Outcome)): (seq<Event>, Outcome) {
    (es + rest.0, rest.1)
  }

  /** Events in front of anything else. */
  lemma {:induction false} ParsesEventsFront(c: Codes, b: seq<Byte>, ret: nat, off: nat, es: seq<Event>)
    requires EventsOk(c, es) && AllFit(c, es) && off + EventsSize(es) <= ret <= |b|
    requires b[off..off + EventsSize(es)] == EncodeEvents(c, es)
    ensures ParseEvents(c, b, ret, off) == Behind(es, ParseEvents(c, b, ret, off + EventsSize(es)))
    decreases |es|
  {
    hide EventsOk, EventOk, EncodeEvent, EncodeEvents, EventSize, AllFit, Fits, ParseEvents, GetI32;
    if es == [] {
      assert EventsSize(es) == 0;
      assert [] + ParseEvents(c, b, ret, off).0 == ParseEvents(c, b, ret, off).0;
    } else {
      var e, more, end := es[0], es[1..], off + EventsSize(es);
      SplitsHead(c, es);
      EncodedEventsSize(c, more);
      FrontOf(b, off, end, ret, EncodeEvent(c, e), EncodeEvents(c, more));
      ParsesEvent(c, b, ret, off, e, EncodeEvents(c, more) + b[end..ret]);
      FrontIs(b, off + EventSize(e), end, ret, EncodeEvents(c, more));
      ParsesEventsFront(c, b, ret, off + EventSize(e), more);
      var rest := ParseEvents(c, b, ret, end);
      assert [e] + (more + rest.0) == es + rest.0;
    }
  }

  lemma FrontOf(b: seq<Byte>, off: nat, end: nat, ret: nat, x: seq<Byte>, y: seq<Byte>)
    requires off <= end <= ret <= |b| && b[off..end] == x + y
    ensures b[off..ret] == x + (y + b[end..ret])
  {
    assert b[off..ret] == b[off..end] + b[end..ret];
  }

  lemma FrontIs(b: seq<Byte>, off: nat, end: nat, ret: nat, y: seq<Byte>)
    requires off <= ret <= |b| && end <= ret && off + |y| == end && b[off..ret] == y + b[end..ret]
    ensures b[off..end] == y
  {
    assert b[off..end] == b[off..ret][..end - off];
  }

  /** Behind whole events, a type that no event has stops the parse with it. */
  lemma StopsAtBadType(c: Codes, b: seq<Byte>, ret: nat, off: nat, es: seq<Event>)
    requires EventsOk(c, es) && AllFit(c, es) && off + EventsSize(es) < ret <= |b| && off + EventsSize(es) + 8 <= |b|
    requires b[off..off + EventsSize(es)] == EncodeEvents(c, es)
    requires var kind := GetI32(b, off + EventsSize(es)); kind != c.dropped && !(-1 <= kind < c.maxEvents)
    ensures ParseEvents(c, b, ret, off) == (es, BadType(GetI32(b, off + EventsSize(es))))
  {
    hide EventsOk, EncodeEvents, EventsSize, AllFit, GetI32;
    ParsesEventsFront(c, b, ret, off, es);
    assert es + [] == es;
  }

  /** The event at `at` is cut short by the end of the buffer, in its first fields
      or behind some of its arguments. */
  predicate EventCutShort(c: Codes, b: seq<Byte>, ret: nat, at: nat, args: seq<Arg>) {
    || at + 8 > |b|
    || (&& GetI32(b, at) != c.dropped && -1 <= GetI32(b, at) < c.maxEvents && ArgsOk(c, args) && |args| <= c.maxArgs
        && at + 8 + ArgsSize(args) < ret <= |b| && b[at + 8..at + 8 + ArgsSize(args)] == EncodeArgs(c, args)
        && CutShort(c, b, at + 8 + ArgsSize(args)))
  }

  lemma OverrunsAt(c: Codes, b: seq<Byte>, ret: nat, at: nat, args: seq<Arg>)
    requires at < ret <= |b| && EventCutShort(c, b, ret, at, args)
    ensures ParseEvents(c, b, ret, at) == ([], Overrun)
  {
    hide EncodeArgs, ArgsSize, ArgsOk, CutShort, GetI32, ParseArgs;
    if at + 8 <= |b| {
      ArgsCutShort(c, b, ret, at + 8, args);
    }
  }

  /** Behind whole events, such an event stops the parse as well. */
  lemma StopsWhereCutShort(c: Codes, b: seq<Byte>, ret: nat, off: nat, es: seq<Event>, args: seq<Arg>)
    requires EventsOk(c, es) && AllFit(c, es) && off + EventsSize(es) < ret <= |b|
    requires b[off..off + EventsSize(es)] == EncodeEvents(c, es)
    requires EventCutShort(c, b, ret, off + EventsSize(es), args)
    ensures ParseEvents(c, b, ret, off) == (es, Overrun)
  {
    hide EventsOk, EncodeEvents, EventsSize, AllFit, EventCutShort, ParseEvents;
    ParsesEventsFront(c, b, ret, off, es);
    OverrunsAt(c, b, ret, off + EventsSize(es), args);
    assert es + [] == es;
  }
}
