/** The event-processing loop itself: an offset into the buffer, an argument
    pointer kept in step with it, and a flag that outlives events and reads. */
module EventLogger {
  import opened EventStream

  function Flat(es: seq<Event>): seq<Arg> {
    if es == [] then [] else Flat(es[..|es| - 1]) + (if es[|es| - 1].Event? then es[|es| - 1].args else [])
  }

  /** How each device argument of a stream is shown -- as a file system id or as
      a device number -- and the flag afterwards. */
  datatype Display = Display(fsids: seq<bool>, flag: bool)

  function Step(c: Codes, d: Display, kind: UInt16): Display {
    if kind == c.argVnode then d.(flag := true)
    else if kind == c.argDev then Display(d.fsids + [d.flag], false)
    else d
  }

  function Show(c: Codes, flag: bool, args: seq<Arg>): Display {
    if args == [] then Display([], flag) else Step(c, Show(c, flag, args[..|args| - 1]), args[|args| - 1].kind)
  }

  /** Whether, of the path and device arguments in a stream, the last is a path. */
  predicate LastIsVnode(c: Codes, flag: bool, args: seq<Arg>) {
    if args == [] then flag
    else if args[|args| - 1].kind == c.argVnode then true
    else if args[|args| - 1].kind == c.argDev then false
    else LastIsVnode(c, flag, args[..|args| - 1])
  }

  /** The device arguments of a stream, as positions. */
  function DevCount(c: Codes, args: seq<Arg>): nat {
    if args == [] then 0
    else DevCount(c, args[..|args| - 1]) + (if args[|args| - 1].kind == c.argDev && c.argDev != c.argVnode then 1 else 0)
  }

  /** A device argument, wherever it is in the stream, is shown as a file system
      id if and only if the nearest path or device argument before it is a path;
      event boundaries do not matter. */
  lemma {:induction false} ShownAsFsid(c: Codes, flag: bool, args: seq<Arg>, k: nat)
    requires k < |args| && args[k].kind == c.argDev && c.argDev != c.argVnode
    ensures |Show(c, flag, args).fsids| == DevCount(c, args) && DevCount(c, args[..k]) < DevCount(c, args)
    ensures Show(c, flag, args).fsids[DevCount(c, args[..k])] == LastIsVnode(c, flag, args[..k])
    decreases |args|
  {
    var front := args[..|args| - 1];
    ShowsAll(c, flag, front);
    if k < |front| {
      assert front[..k] == args[..k];
      ShownAsFsid(c, flag, front, k);
    } else {
      assert front == args[..k];
    }
  }

  lemma {:induction false} ShowsAll(c: Codes, flag: bool, args: seq<Arg>)
    ensures c.argDev != c.argVnode ==> |Show(c, flag, args).fsids| == DevCount(c, args)
    ensures Show(c, flag, args).flag == LastIsVnode(c, flag, args)
    decreases |args|
  {
    if args != [] {
      ShowsAll(c, flag, args[..|args| - 1]);
    }
  }

  lemma ShowsOneMore(c: Codes, flag: bool, args: seq<Arg>, a: Arg)
    ensures Show(c, flag, args + [a]) == Step(c, Show(c, flag, args), a.kind)
  {
    assert (args + [a])[..|args|] == args;
  }

  lemma FlatMore(es: seq<Event>, e: Event)
    ensures Flat(es + [e]) == Flat(es) + (if e.Event? then e.args else [])
  {
    assert (es + [e])[..|es|] == es;
  }

  /** What has been parsed, followed by what parsing the rest gives. */
  predicate Follows(c: Codes, b: seq<Byte>, ret: int, events: seq<Event>, off: nat) {
    var whole, rest := ParseEvents(c, b, ret, 0), ParseEvents(c, b, ret, off);
    whole == (events + rest.0, rest.1)
  }

  predicate ArgsFollow(c: Codes, b: seq<Byte>, ret: int, start: nat, args: seq<Arg>, off: nat, i: nat, done: bool) {
    var whole := ParseArgs(c, b, ret, start, 0);
    if done then whole == ArgsResult(args, off)
    else
      var rest := ParseArgs(c, b, ret, off, i);
      if rest.ArgsOverrun? then whole.ArgsOverrun? else whole == ArgsResult(args + rest.args, rest.off)
  }

  lemma OneArg(c: Codes, b: seq<Byte>, ret: int, start: nat, args: seq<Arg>, off: nat, i: nat)
    requires ArgsFollow(c, b, ret, start, args, off, i, false) && off < ret && i <= c.maxArgs
    ensures off + 2 > |b| ==> ParseArgs(c, b, ret, start, 0).ArgsOverrun?
    ensures off + 2 <= |b| && GetU16(b, off) == c.argDone ==> ArgsFollow(c, b, ret, start, args, off + 2, i + 1, true)
    ensures off + 2 <= |b| && GetU16(b, off) != c.argDone ==>
      (off + 4 > |b| || off + 4 + GetU16(b, off + 2) as int > |b| ==> ParseArgs(c, b, ret, start, 0).ArgsOverrun?)
      && (off + 4 <= |b| && off + 4 + GetU16(b, off + 2) as int <= |b| ==>
            var n := GetU16(b, off + 2) as int;
            ArgsFollow(c, b, ret, start, args + [Arg(GetU16(b, off), b[off + 4..off + 4 + n])], off + 4 + n, i + 1, false))
  {
    if off + 4 <= |b| && GetU16(b, off) != c.argDone && off + 4 + GetU16(b, off + 2) as int <= |b| {
      var n := GetU16(b, off + 2) as int;
      var a := [Arg(GetU16(b, off), b[off + 4..off + 4 + n])];
      var rest := ParseArgs(c, b, ret, off + 4 + n, i + 1);
      if rest.ArgsResult? {
        assert args + (a + rest.args) == (args + a) + rest.args;
      }
    } else if off + 2 <= |b| && GetU16(b, off) == c.argDone {
      assert args + [] == args;
    }
  }

  lemma ArgsEnd(c: Codes, b: seq<Byte>, ret: int, start: nat, args: seq<Arg>, off: nat, i: nat, done: bool)
    requires ArgsFollow(c, b, ret, start, args, off, i, done) && (done || off >= ret || i > c.maxArgs)
    ensures ParseArgs(c, b, ret, start, 0) == ArgsResult(args, off)
  {
    assert args + [] == args;
  }

  /** One argument, as the display goes. */
  lemma ShowsArg(c: Codes, flag: bool, before: seq<Arg>, args: seq<Arg>, a: Arg, d: Display)
    requires d == Show(c, flag, before + args)
    ensures Step(c, d, a.kind) == Show(c, flag, before + (args + [a]))
  {
    ShowsOneMore(c, flag, before + args, a);
    assert (before + args) + [a] == before + (args + [a]);
  }

  lemma EventsFollow(c: Codes, b: seq<Byte>, ret: int, events: seq<Event>, off: nat)
    requires Follows(c, b, ret, events, off)
    ensures off >= ret ==> ParseEvents(c, b, ret, 0) == (events, Parsed)
    ensures off < ret && off + 8 > |b| ==> ParseEvents(c, b, ret, 0) == (events, Overrun)
    ensures off < ret && off + 8 <= |b| ==>
      var kind, pid := GetI32(b, off), GetI32(b, off + 4);
      if kind == c.dropped then Follows(c, b, ret, events + [Dropped(pid)], off + 10)
      else if kind < c.maxEvents && kind >= -1 then
        var r := ParseArgs(c, b, ret, off + 8, 0);
        if r.ArgsOverrun? then ParseEvents(c, b, ret, 0) == (events, Overrun)
        else Follows(c, b, ret, events + [Event(kind, pid, r.args)], r.off)
      else ParseEvents(c, b, ret, 0) == (events, BadType(kind))
  {
    assert events + [] == events;
    if off < ret && off + 8 <= |b| {
      var kind, pid := GetI32(b, off), GetI32(b, off + 4);
      if kind == c.dropped {
        var rest := ParseEvents(c, b, ret, off + 10).0;
        assert events + ([Dropped(pid)] + rest) == (events + [Dropped(pid)]) + rest;
      } else if kind < c.maxEvents && kind >= -1 {
        var r := ParseArgs(c, b, ret, off + 8, 0);
        if r.ArgsResult? {
          var e, rest := Event(kind, pid, r.args), ParseEvents(c, b, ret, r.off).0;
          assert events + ([e] + rest) == (events + [e]) + rest;
        }
      }
    }
  }

  class Logger {
    var isFseArgVnode: bool
    var fsids: seq<bool>     // how the device arguments of this read were shown

    constructor ()
      ensures !isFseArgVnode && fsids == []
    {
      isFseArgVnode, fsids := false, [];
    }

    /** The arguments of one event, from its first argument at `start`. */
    method ProcessArguments(c: Codes, buffer: seq<Byte>, ret: int, start: nat, ghost flag: bool, ghost before: seq<Arg>)
      returns (args: seq<Arg>, off: nat, overrun: bool)
      requires Display(fsids, isFseArgVnode) == Show(c, flag, before)
      modifies this
      ensures ParseArgs(c, buffer, ret, start, 0) == if overrun then ArgsOverrun else ArgsResult(args, off)
      ensures Display(fsids, isFseArgVnode) == Show(c, flag, before + args)
      ensures !overrun ==> off >= start
    {
      hide ArgsFollow, Show, ParseArgs, GetU16;
      args, off, overrun := [], start, false;
      assert before + [] == before;
      ArgsBegin(c, buffer, ret, start);
      var kea := off;
      var i := 0;
      var done := false;
      while !done && off < ret && i <= c.maxArgs
        invariant (kea == off || done) && off >= start
        invariant 0 <= i <= c.maxArgs + 1
        invariant ArgsFollow(c, buffer, ret, start, args, off, i, done)
        invariant Display(fsids, isFseArgVnode) == Show(c, flag, before + args)
        decreases c.maxArgs + 1 - i
      {
        OneArg(c, buffer, ret, start, args, off, i);
        i := i + 1;
        if kea + 2 > |buffer| {
          overrun := true;
          return;
        }
        var kind := GetU16(buffer, kea);
        if kind == c.argDone {
          off := off + 2;
          done := true;
        } else {
          if kea + 4 > |buffer| || kea + 4 + GetU16(buffer, kea + 2) as int > |buffer| {
            overrun := true;
            return;
          }
          var eoff := 4 + GetU16(buffer, kea + 2) as int;
          off := off + eoff;
          var a := Arg(kind, buffer[kea + 4..kea + eoff]);
          ShowsArg(c, flag, before, args, a, Display(fsids, isFseArgVnode));
          if kind == c.argVnode {
            isFseArgVnode := true;
          } else if kind == c.argDev {
            fsids := fsids + [isFseArgVnode];
            isFseArgVnode := false;
          }
          args := args + [a];
          kea := kea + eoff;
        }
      }
      ArgsEnd(c, buffer, ret, start, args, off, i, done);
    }

    /** All events of one read of the device. */
    method ProcessBuffer(c: Codes, buffer: seq<Byte>, ret: int) returns (events: seq<Event>, outcome: Outcome)
      requires ret <= |buffer|
      modifies this
      ensures (events, outcome) == ParseEvents(c, buffer, ret, 0)
      ensures outcome != Overrun ==>
        Display(fsids, isFseArgVnode) == Show(c, old(isFseArgVnode), Flat(events))
    {
      events, outcome := [], Parsed;
      fsids := [];
      var off := 0;
      ghost var flag := isFseArgVnode;
      EventsBegin(c, buffer, ret);
      while off < ret
        invariant Follows(c, buffer, ret, events, off)
        invariant Display(fsids, isFseArgVnode) == Show(c, flag, Flat(events))
        decreases ret - off
      {
        hide Follows, Show, Flat, ParseEvents, ParseArgs, GetI32;
        EventsFollow(c, buffer, ret, events, off);
        var kfse := off;
        off := off + 8;
        if off > |buffer| {
          outcome := Overrun;
          return;
        }
        var kind, pid := GetI32(buffer, kfse), GetI32(buffer, kfse + 4);
        if kind == c.dropped {
          FlatMore(events, Dropped(pid));
          NothingShown(c, flag, Flat(events));
          events := events + [Dropped(pid)];
          off := off + 2;
          continue;
        }
        if !(kind < c.maxEvents && kind >= -1) {
          outcome := BadType(kind);
          return;
        }
        var args, overrun;
        args, off, overrun := ProcessArguments(c, buffer, ret, kfse + 8, flag, Flat(events));
        if overrun {
          outcome := Overrun;
          return;
        }
        FlatMore(events, Event(kind, pid, args));
        events := events + [Event(kind, pid, args)];
      }
      EventsFollow(c, buffer, ret, events, off);
    }
  }

  lemma NothingShown(c: Codes, flag: bool, args: seq<Arg>)
    ensures Show(c, flag, args + []) == Show(c, flag, args)
  {
    assert args + [] == args;
  }

  lemma ArgsBegin(c: Codes, b: seq<Byte>, ret: int, start: nat)
    ensures ArgsFollow(c, b, ret, start, [], start, 0, false)
  {
    var rest := ParseArgs(c, b, ret, start, 0);
    assert rest.ArgsResult? ==> [] + rest.args == rest.args;
  }

  lemma EventsBegin(c: Codes, b: seq<Byte>, ret: int)
    ensures Follows(c, b, ret, [], 0)
  {
    var rest := ParseEvents(c, b, ret, 0);
    assert [] + rest.0 == rest.0;
  }
}
