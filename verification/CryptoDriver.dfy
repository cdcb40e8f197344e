/** The filter's methods, with the effects of the state machine's steps. */
module CryptoDriver {
  import opened Wrappers
  import opened CryptoBytes
  import opened CryptoProtocol

  const BLOCK := 512

  /** The bytes of an array of UInt64. */
  function Bytes(block: seq<UInt64>): (s: seq<Byte>)
    ensures |s| == 8 * |block|
  {
    seq(8 * |block|, k requires 0 <= k < 8 * |block| => Split(block[k / 8])[k % 8])
  }

  /** 64 words read, complemented and written are 512 bytes complemented. */
  lemma BlockComplements(data: seq<Byte>, words: seq<UInt64>)
    requires |data| == BLOCK && |words| == 64
    requires forall j :: 0 <= j < 64 ==> words[j] == Not(Join(data[8 * j..8 * j + 8]))
    ensures Bytes(words) == Complement(data)
  {
    forall k | 0 <= k < BLOCK ensures Bytes(words)[k] == Complement(data)[k] {
      var j := k / 8;
      NotComplements(data[8 * j..8 * j + 8]);
      assert words[j] == Not(Join(data[8 * j..8 * j + 8]));
      assert data[8 * j..8 * j + 8][k % 8] == data[k];
    }
  }

  /** A buffer of which the first n bytes have been complemented. */
  function Upto(whole: seq<Byte>, n: nat): seq<Byte>
    requires n <= |whole|
  {
    Complement(whole[..n]) + whole[n..]
  }

  lemma UptoStarts(whole: seq<Byte>)
    ensures Upto(whole, 0) == whole && Upto(whole, |whole|) == Complement(whole)
  {
    assert whole[..|whole|] == whole;
  }

  lemma UptoLength(whole: seq<Byte>, n: nat)
    requires n <= |whole|
    ensures |Upto(whole, n)| == |whole|
  {
  }

  lemma ComplementGrows(source: seq<Byte>, n: nat)
    requires n + BLOCK <= |source|
    ensures Complement(source[..n + BLOCK]) == Complement(source[..n]) + Complement(source[n..n + BLOCK])
  {
    assert source[..n + BLOCK] == source[..n] + source[n..n + BLOCK];
  }

  lemma UptoGrows(whole: seq<Byte>, n: nat)
    requires n + BLOCK <= |whole|
    ensures Upto(whole, n)[n..n + BLOCK] == whole[n..n + BLOCK]
    ensures Upto(whole, n)[..n] + Complement(whole[n..n + BLOCK]) + Upto(whole, n)[n + BLOCK..] == Upto(whole, n + BLOCK)
  {
    ComplementGrows(whole, n);
    var u := Upto(whole, n);
    assert u[..n] == Complement(whole[..n]);
    assert u[n..] == whole[n..];
    assert u[n..n + BLOCK] == u[n..][..BLOCK] && whole[n..n + BLOCK] == whole[n..][..BLOCK];
    assert u[n + BLOCK..] == u[n..][BLOCK..] && whole[n + BLOCK..] == whole[n..][BLOCK..];
  }

  lemma AddsThree<T>(m: multiset<T>, a: T, b: T, c: T)
    ensures m + multiset{a} + multiset{b} + multiset{c} == m + multiset{a, b, c}
  {
    assert multiset{a, b, c} == multiset{a} + multiset{b} + multiset{c};
  }

  /** What is given back before the context. */
  function OfTransfer(c: Context): multiset<Resource>
    requires Releasable(c)
  {
    if c.bufferWO.None? then multiset{}
    else multiset{c.bufferRO.value, c.bufferWO.value, MemoryBlock(c.memory.value)}
  }

  lemma GivenInTwo(released: multiset<Resource>, c: Context, id: nat)
    requires Releasable(c)
    ensures released + OfTransfer(c) + multiset{ContextBlock(id)} == released + Given(c, id)
  {
    assert Given(c, id) == OfTransfer(c) + multiset{ContextBlock(id)};
  }

  class SimpleCryptoDisk {
    var raw: seq<Byte>
    var buffers: map<nat, seq<Byte>>
    var temps: map<nat, seq<Byte>>
    var contexts: map<nat, Context>
    var pending: map<nat, Request>
    var reports: map<nat, Report>
    var next: nat
    ghost var started: seq<Started>
    ghost var released: multiset<Resource>
    ghost var delivered: multiset<Delivery>

    ghost predicate Valid()
      reads this
    {
      next == |started|
    }

    ghost function World(): State
      reads this
    {
      State(raw, buffers, temps, contexts, pending, reports, started, released, delivered)
    }

    constructor (raw: seq<Byte>, buffers: map<nat, seq<Byte>>)
      ensures Valid() && Inv(World()) && this.raw == raw && this.buffers == buffers && started == []
    {
      this.raw, this.buffers := raw, buffers;
      temps, contexts, pending, reports, next := map[], map[], map[], map[], 0;
      started, released, delivered := [], multiset{}, multiset{};
    }

    method ReadBytes(data: seq<Byte>, offset: nat, byteBlock: array<UInt64>)
      requires offset + BLOCK <= |data| && byteBlock.Length == 64
      modifies byteBlock
      ensures forall j :: 0 <= j < 64 ==> byteBlock[j] == Join(data[offset..offset + BLOCK][8 * j..8 * j + 8])
    {
      forall j | 0 <= j < 64 {
        byteBlock[j] := Join(data[offset..offset + BLOCK][8 * j..8 * j + 8]);
      }
    }

    method ComplementBlock(byteBlock: array<UInt64>)
      requires byteBlock.Length == 64
      modifies byteBlock
      ensures forall j :: 0 <= j < 64 ==> byteBlock[j] == Not(old(byteBlock[j]))
    {
      for j := 0 to 64
        invariant forall k :: 0 <= k < j ==> byteBlock[k] == Not(old(byteBlock[k]))
        invariant forall k :: j <= k < 64 ==> byteBlock[k] == old(byteBlock[k])
      {
        byteBlock[j] := Not(byteBlock[j]);
      }
    }

    method FixBlock(data: seq<Byte>, offset: nat, byteBlock: array<UInt64>) returns (block: seq<Byte>)
      requires offset + BLOCK <= |data| && byteBlock.Length == 64
      modifies byteBlock
      ensures block == Complement(data[offset..offset + BLOCK])
    {
      ReadBytes(data, offset, byteBlock);
      ComplementBlock(byteBlock);
      BlockComplements(data[offset..offset + BLOCK], byteBlock[..]);
      block := Bytes(byteBlock[..]);
    }

    /** Decrypts a client's buffer in place, a block at a time. */
    method FixBufferUserRead(buffer: nat)
      requires buffer in buffers && |buffers[buffer]| % BLOCK == 0
      modifies this`buffers
      ensures buffers == old(buffers)[buffer := Complement(old(buffers[buffer]))]
    {
      ghost var whole := buffers[buffer];
      UptoStarts(whole);
      hide Upto;
      var length := |buffers[buffer]| / BLOCK;
      var byteBlock := new UInt64[64];
      var i := 0;
      while i < length
        invariant 0 <= i <= length
        invariant buffers == old(buffers)[buffer := Upto(whole, i * BLOCK)]
      {
        var data := buffers[buffer];
        assert |data| == |whole| by { UptoLength(whole, i * BLOCK); }
        var block := FixBlock(data, i * BLOCK, byteBlock);
        UptoGrows(whole, i * BLOCK);
        buffers := buffers[buffer := data[..i * BLOCK] + block + data[i * BLOCK + BLOCK..]];
        i := i + 1;
      }
    }

    /** Encrypts a client's buffer into temporary memory, a block at a time. */
    method FixBufferUserWrite(bufferR: nat, bufferW: nat)
      requires bufferR in buffers && bufferW in temps
      requires |buffers[bufferR]| % BLOCK == 0 && |temps[bufferW]| == |buffers[bufferR]|
      modifies this`temps
      ensures temps == old(temps)[bufferW := Complement(buffers[bufferR])]
    {
      var source := buffers[bufferR];
      var length := |source| / BLOCK;
      var byteBlock := new UInt64[64];
      var i := 0;
      while i < length
        invariant 0 <= i <= length && bufferW in temps && temps == old(temps)[bufferW := temps[bufferW]]
        invariant |temps[bufferW]| == |source|
        invariant temps[bufferW][..i * BLOCK] == Complement(source[..i * BLOCK])
      {
        var block := FixBlock(source, i * BLOCK, byteBlock);
        ComplementGrows(source, i * BLOCK);
        var data := temps[bufferW];
        temps := temps[bufferW := data[..i * BLOCK] + block + data[i * BLOCK + BLOCK..]];
        assert temps[bufferW][..(i + 1) * BLOCK] == data[..i * BLOCK] + block;
        i := i + 1;
      }
      assert temps[bufferW][..length * BLOCK] == temps[bufferW] && source[..length * BLOCK] == source;
    }

    method Read(byteStart: nat, buffer: nat, completion: Completion)
      requires Valid() && MayRead(World(), buffer)
      modifies this
      ensures Valid() && World() == AfterRead(old(World()), byteStart, buffer, completion)
    {
      var id := next;
      next := next + 1;
      started := started + [Started(false, byteStart, buffer, buffers[buffer], completion)];
      contexts := contexts[id := Context(buffer, None, None, None, 0, completion)];
      // handed over to the provider, with the filter's completion and this context
      pending := pending[id := Request(false, byteStart, Client(buffer), id)];
    }

    // What the fields a write concerns make of the rest.
    twostate lemma WriteChanged()
      requires unchanged(`raw, `buffers, `reports, `released, `delivered)
      ensures World() == old(World()).(temps := temps, contexts := contexts, pending := pending, started := started)
    {
    }

    method Write(byteStart: nat, buffer: nat, completion: Completion)
      requires Valid() && MayWrite(World(), buffer)
      modifies this
      ensures Valid() && World() == AfterWrite(old(World()), byteStart, buffer, completion)
    {
      assert buffer in buffers && |buffers[buffer]| % BLOCK == 0;
      hide World, MayWrite, Complement;
      var id := next;
      next := next + 1;
      started := started + [Started(true, byteStart, buffer, buffers[buffer], completion)];
      var length := |buffers[buffer]|;
      var memory: seq<Byte> :| |memory| == length by { assert |seq(length, _ => 0 as Byte)| == length; }
      temps := temps[id := memory];
      contexts := contexts[id := Context(buffer, Some(BufferRO(id)), Some(BufferWO(id)), Some(id), length, completion)];
      FixBufferUserWrite(buffer, id);
      assert temps == old(temps)[id := Complement(buffers[buffer])];
      pending := pending[id := Request(true, byteStart, Temporary(id), id)];
      WriteChanged();
    }

    /** The provider takes a request off its list and runs its completion. */
    method ProviderCompletes(r: nat)
      requires Valid() && Inv(World()) && Completes(World(), r)
      modifies this
      ensures Valid() && World() == AfterComplete(old(World()), r)
    {
      ghost var s := World();
      BuffersAreBlocks(s, r);
      hide Inv, Finish, Decrypted, TempsLeft, Given, RunOf;
      var q := pending[r];
      pending := pending - {r};
      ghost var called := World();
      SCDReadWriteCompletion(q.context, r, reports[r]);
      FieldsFinish(called, q.context, r, reports[r], World());
    }

    // What the fields a completion leaves alone make of the rest.
    twostate lemma WorldChanged()
      requires unchanged(`raw, `pending, `reports, `started)
      ensures World() == old(World()).(buffers := buffers, temps := temps, contexts := contexts, released := released, delivered := delivered)
    {
    }

    method SCDReadWriteCompletion(parameter: nat, ghost r: nat, report: Report)
      requires Valid() && parameter in contexts && contexts[parameter].buffer in buffers && Releasable(contexts[parameter])
      requires |buffers[contexts[parameter].buffer]| % BLOCK == 0
      modifies this`buffers, this`temps, this`contexts, this`released, this`delivered
      ensures Valid() && World() == old(World()).(buffers := buffers, temps := temps, contexts := contexts, released := released, delivered := delivered)
      ensures var c := old(contexts[parameter]);
        && buffers == Decrypted(old(buffers), c) && temps == TempsLeft(old(temps), c)
        && contexts == old(contexts) - {parameter} && released == old(released) + Given(c, parameter)
        && delivered == old(delivered) + RunOf(c, r, report)
    {
      hide World, Decrypted, TempsLeft, Given, OfTransfer, Releasable;
      var context := contexts[parameter];
      ghost var released0 := released;
      FinishTransfer(context);
      var completion := context.completion;
      FreeContext(parameter);
      if completion.action {
        delivered := delivered + multiset{Delivery(r, completion, report)};
      }
      GivenInTwo(released0, context, parameter);
      WorldChanged();
    }

    /** A read's buffer is decrypted; what a write was given is released. */
    method FinishTransfer(context: Context)
      requires context.buffer in buffers && Releasable(context) && |buffers[context.buffer]| % BLOCK == 0
      modifies this`buffers, this`temps, this`released
      ensures buffers == Decrypted(old(buffers), context) && temps == TempsLeft(old(temps), context)
      ensures released == old(released) + OfTransfer(context)
    {
      if context.bufferWO.None? {
        FixBufferUserRead(context.buffer);
      } else {
        ReleaseTemporary(context.bufferRO.value, context.bufferWO.value, context.memory.value);
      }
    }

    method ReleaseTemporary(bufferRO: Resource, bufferWO: Resource, memory: nat)
      modifies this`temps, this`released
      ensures temps == old(temps) - {memory}
      ensures released == old(released) + multiset{bufferRO, bufferWO, MemoryBlock(memory)}
    {
      AddsThree(released, bufferRO, bufferWO, MemoryBlock(memory));
      released := released + multiset{bufferRO};
      released := released + multiset{bufferWO};
      temps := temps - {memory};
      released := released + multiset{MemoryBlock(memory)};
    }

    method FreeContext(context: nat)
      modifies this`contexts, this`released
      ensures contexts == old(contexts) - {context} && released == old(released) + multiset{ContextBlock(context)}
    {
      contexts := contexts - {context};
      released := released + multiset{ContextBlock(context)};
    }
  }

  lemma FieldsFinish(s: State, id: nat, r: nat, report: Report, t: State)
    requires id in s.contexts && s.contexts[id].buffer in s.buffers && Releasable(s.contexts[id])
    requires var c := s.contexts[id];
      && t.buffers == Decrypted(s.buffers, c) && t.temps == TempsLeft(s.temps, c) && t.contexts == s.contexts - {id}
      && t.released == s.released + Given(c, id) && t.delivered == s.delivered + RunOf(c, r, report)
    requires t.raw == s.raw && t.pending == s.pending && t.reports == s.reports && t.started == s.started
    ensures t == Finish(s, id, r, report)
  {
  }

  lemma BuffersAreBlocks(s: State, r: nat)
    requires Inv(s) && Completes(s, r)
    ensures |s.buffers[s.contexts[s.pending[r].context].buffer]| % BLOCK == 0
  {
    assert RequestOk(s, r);
  }
}
