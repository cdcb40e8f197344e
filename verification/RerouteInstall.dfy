/** `frr_install` and `frr_remove` as they write memory, step by step. What the
    system decides -- allocations, protection changes, another thread's store at
    the original -- comes in as parameters. */
module RerouteInstall {
  import opened Wrappers
  import opened PowerPC
  import opened Templates
  import opened Reroute

  /** The metadata block returned by install. */
  class FrrData {
    const block: Word
    var fOrig: Word
    var fNew: Word
    var fStub: Word
    var fBytes: Word

    constructor (block: Word)
      ensures this.block == block
    {
      this.block := block;
      fOrig, fNew, fStub, fBytes := 0, 0, 0, 0;
    }
  }

  /** `early` and `race` are words another thread stores at the original: `early`
      after its word has been saved and before it is read again for comparison,
      `race` after that and just before the atomic update. */
  datatype System = System(
    metadata: Option<Word>,       // malloc of the metadata
    stub: Option<Word>,           // malloc of the stub
    originalWritable: bool,       // the two mprotect calls
    stubWritable: bool,
    early: Option<Word>,
    race: Option<Word>)

  /** What malloc promises: a block of mapped words, away from the code. */
  predicate StubPlaced(mem: map<Word, Word>, original: Word, stub: Word) {
    && stub % 4 == 0 && stub + STUB_BYTES <= 0x1_0000_0000
    && (original < stub || stub + STUB_BYTES <= original)
    && forall a :: stub <= a < stub + STUB_BYTES && a % 4 == 0 ==> a in mem
  }

  /** The word the compare-and-store finds itself told to expect. */
  function Expected(saved: Word, early: Option<Word>): Word {
    if early.Some? then early.value else saved
  }

  /** Memory as it was but for an early store at the original. */
  function Overwritten(u: map<Word, Word>, original: Word, early: Option<Word>): map<Word, Word> {
    if early.Some? then u[original := early.value] else u
  }

  /** u with the stub filled, for the word saved. */
  function Filled(u: map<Word, Word>, original: Word, stub: Word, saved: Word): map<Word, Word>
    requires stub as int + 4 < 0x1_0000_0000
  {
    u[stub := saved][stub + 4 := BranchWord(Wrap(original + 4))]
  }

  /** ... and the original patched. */
  function Patch(u: map<Word, Word>, original: Word, new_: Word, stub: Word, saved: Word): map<Word, Word>
    requires stub as int + 4 < 0x1_0000_0000
  {
    Filled(u, original, stub, saved)[original := BranchWord(new_)]
  }

  /** Of the words of u, `t` has changed none but the first of the original and
      those of the stub. */
  predicate OnlyPatched(u: map<Word, Word>, t: map<Word, Word>, original: Word, stub: Word) {
    t.Keys == u.Keys && forall a :: a in u && a != original && a !in Block(stub, STUB_BYTES) ==> t[a] == u[a]
  }

  /** What install leaves is a rerouting of the program it found exactly if the
      word in the stub is the one that was overwritten. */
  lemma PatchReroutes(u: map<Word, Word>, original: Word, new_: Word, stub: Word, saved: Word)
    requires original in u && original % 4 == 0 && StubPlaced(u, original, stub)
    ensures Rerouted(u, Patch(u, original, new_, stub, saved), original, new_, stub) <==> saved == u[original]
  {
    hide BranchWord;
    var p := Patch(u, original, new_, stub, saved);
    assert stub in u && stub + 4 in u && p.Keys == u.Keys && p[stub] == saved;
  }

  /** A store that install cannot notice, for every place of the original and the
      stub: the program has come to load 2 where it loaded 1 when it was saved,
      and the stub goes on loading 1. */
  lemma StaleStub(m: Machine, original: Word, new_: Word, stub: Word)
    requires original in m.mem && original % 4 == 0 && StubPlaced(m.mem, original, stub) && m.pc == original
    requires m.mem[original] == PackD(DForm(14, 3, 0, 2))
    ensures var saved := PackD(DForm(14, 3, 0, 1));
      var p := Patch(m.mem, original, new_, stub, saved);
      && !Rerouted(m.mem, p, original, new_, stub)
      && Step(m).Some? && Step(m).value.gpr[3] == 2
      && Step(m.(pc := stub, mem := p)).Some? && Step(m.(pc := stub, mem := p)).value.gpr[3] == 1
  {
    hide Decode, PackD, BranchWord, Rerouted;
    var saved := PackD(DForm(14, 3, 0, 1));
    DecodesAddi(DForm(14, 3, 0, 1));
    DecodesAddi(DForm(14, 3, 0, 2));
    PatchReroutes(m.mem, original, new_, stub, saved);
    assert stub != original && Patch(m.mem, original, new_, stub, saved)[stub] == saved;
  }

  /** What the first word of the original may be at a store: the one saved, one
      that another thread stored, or, if install succeeds, the branch. */
  predicate IsKnown(w: Word, saved: Word, new_: Word, early: Option<Word>, race: Option<Word>, installed: bool) {
    w == saved || Some(w) == early || Some(w) == race || (installed && w == BranchWord(new_))
  }

  /** A memory that install or remove may leave at a store. */
  predicate IsStage(u: map<Word, Word>, t: map<Word, Word>, original: Word, new_: Word, stub: Word, sys: System, installed: bool)
    requires original in u
  {
    OnlyPatched(u, t, original, stub) && original in t
    && IsKnown(t[original], u[original], new_, sys.early, sys.race, installed)
  }

  /** What install leaves when another thread makes the update fail. */
  function Disturbed(u: map<Word, Word>, original: Word, stub: Word, saved: Word, race: Word): map<Word, Word>
    requires stub as int + 4 < 0x1_0000_0000
  {
    Filled(u, original, stub, saved)[original := race]
  }

  /** How installing and then removing, as `main` does, can end. */
  datatype Outcome =
    | Failed      // install returned null
    | Removed     // the rerouting was installed and removed
    | FreesTwice  // main hands the block that install has freed to remove, which frees it again

  class Process {
    var mem: map<Word, Word>              // word memory, code included
    var live: set<Word>                   // blocks allocated and not freed
    ghost var trace: seq<map<Word, Word>> // memory after each store

    constructor (mem: map<Word, Word>, live: set<Word>)
      ensures this.mem == mem && this.live == live && trace == []
    {
      this.mem, this.live, trace := mem, live, [];
    }

    method Store(a: Word, v: Word)
      requires a in mem
      modifies this`mem, this`trace
      ensures mem == old(mem)[a := v] && trace == old(trace) + [mem]
    {
      mem := mem[a := v];
      trace := trace + [mem];
    }

    method Free(block: Word)
      requires block in live
      modifies this`live
      ensures live == old(live) - {block}
    {
      live := live - {block};
    }

    /** Atomic; another thread may store to the word just before it. */
    method HwCompareAndStore(expected: Word, new_: Word, address: Word, race: Option<Word>) returns (ret: int)
      requires address in mem
      modifies this`mem, this`trace
      ensures var found := if race.Some? then race.value else old(mem[address]);
        && ret == (if found == expected then 1 else 0)
        && mem == old(mem)[address := if ret == 1 then new_ else found]
        && old(trace) <= trace
        && (forall k :: |old(trace)| <= k < |trace| ==>
              trace[k] == old(mem)[address := found] || trace[k] == mem)
    {
      if race.Some? {
        Store(address, race.value);
      }
      if mem[address] == expected {
        Store(address, new_);
        ret := 1;
      } else {
        ret := 0;
      }
    }

    /** Everything the code checks before its last step. */
    predicate Admitted(original: Word, new_: Word, sys: System)
    {
      && new_ / 0x200_0000 == 0 && sys.metadata.Some? && sys.stub.Some?
      && sys.originalWritable && sys.stubWritable && Wrap(original + 4) / 4 / 0x200_0000 == 0
    }

    /** No store came between the comparison word's reading and the update, or none
        that matters. */
    predicate Undisturbed(original: Word, sys: System)
      requires original in mem
      reads this`mem
    {
      sys.race.None? || sys.race.value == Expected(mem[original], sys.early)
    }

    /** Returns null, or a block that is live exactly when the patches are in
        place: on a late error the block returned has been freed. An early store
        is not noticed. */
    method FrrInstall(original: Word, new_: Word, sys: System) returns (frr: FrrData?)
      requires original % 4 == 0 && original in mem
      requires sys.metadata.Some? ==> sys.metadata.value !in live
      requires sys.stub.Some? ==> sys.stub.value !in live && StubPlaced(mem, original, sys.stub.value)
      requires sys.metadata.Some? && sys.stub.Some? ==> sys.metadata.value != sys.stub.value
      modifies this
      ensures frr != null ==> fresh(frr) && sys.metadata == Some(frr.block)
      ensures var installed := Admitted(original, new_, sys) && old(Undisturbed(original, sys));
        var u := Overwritten(old(mem), original, sys.early);
        && (frr != null && frr.block in live <==> installed)
        && (installed ==>
              && frr.fOrig == original && frr.fNew == new_ && sys.stub == Some(frr.fStub)
              && frr.fBytes == old(mem[original])
              && live == old(live) + {frr.block, frr.fStub}
              && mem == Patch(u, original, new_, frr.fStub, old(mem[original]))
              && (Rerouted(u, mem, original, new_, frr.fStub) <==>
                    sys.early.None? || sys.early.value == old(mem[original])))
        && (!installed ==> live == old(live))
      ensures !Admitted(original, new_, sys) ==> mem == old(mem) && trace == old(trace)
      ensures Admitted(original, new_, sys) && !old(Undisturbed(original, sys)) ==>
        mem == Disturbed(old(mem), original, sys.stub.value, old(mem[original]), sys.race.value)
      ensures frr != null <==> new_ / 0x200_0000 == 0 && sys.metadata.Some? && sys.stub.Some?
      ensures old(trace) <= trace && (|old(trace)| < |trace| ==> sys.stub.Some?)
      ensures forall k :: |old(trace)| <= k < |trace| ==>
        IsStage(old(mem), trace[k], original, new_, sys.stub.value, sys,
                Admitted(original, new_, sys) && old(Undisturbed(original, sys)))
    {
      frr := null;
      // the check on the new function's address
      if new_ / 0x200_0000 != 0 {
        return null;
      }
      if sys.metadata.None? {
        return null;
      }
      live := live + {sys.metadata.value};
      frr := new FrrData(sys.metadata.value);
      frr.fOrig := original;
      frr.fNew := new_;
      if sys.stub.None? {
        Free(frr.block);
        return null;
      }
      live := live + {sys.stub.value};
      frr.fStub := sys.stub.value;
      var ok := sys.originalWritable;
      if ok {
        ok := sys.stubWritable;
      }
      hide Patch, Rerouted, StubPlaced, IsStage, Disturbed, Overwritten, BranchWord;
      if ok {
        ok := PatchCode(frr, sys);
      }
      if !ok {
        Free(frr.fStub);
        Free(frr.block);
      }
    }

    /** With both pages writable: save the first word, fill the stub, and update
        the original in one store. */
    method PatchCode(frr: FrrData, sys: System) returns (ok: bool)
      requires frr.fOrig in mem && frr.fOrig % 4 == 0 && StubPlaced(mem, frr.fOrig, frr.fStub)
      modifies this`mem, this`trace, frr`fBytes
      ensures frr.fBytes == old(mem[frr.fOrig])
      ensures ok <==>
        && Wrap(frr.fOrig + 4) / 4 / 0x200_0000 == 0 && frr.fNew / 4 / 0x200_0000 == 0
        && (sys.race.None? || sys.race.value == Expected(old(mem[frr.fOrig]), sys.early))
      ensures ok ==>
        var u := Overwritten(old(mem), frr.fOrig, sys.early);
        && mem == Patch(u, frr.fOrig, frr.fNew, frr.fStub, old(mem[frr.fOrig]))
        && (Rerouted(u, mem, frr.fOrig, frr.fNew, frr.fStub) <==>
              sys.early.None? || sys.early.value == old(mem[frr.fOrig]))
      ensures !ok ==>
        if Wrap(frr.fOrig + 4) / 4 / 0x200_0000 != 0 then mem == old(mem) && trace == old(trace)
        else if frr.fNew / 4 / 0x200_0000 != 0 then mem == Filled(old(mem), frr.fOrig, frr.fStub, old(mem[frr.fOrig]))
        else mem == Disturbed(old(mem), frr.fOrig, frr.fStub, old(mem[frr.fOrig]), sys.race.value)
      ensures old(trace) <= trace
      ensures forall k :: |old(trace)| <= k < |trace| ==>
        IsStage(old(mem), trace[k], frr.fOrig, frr.fNew, frr.fStub, sys, ok)
    {
      hide Patch, Rerouted, OnlyPatched, IsKnown, Block;
      frr.fBytes := mem[frr.fOrig];
      var target := Wrap(frr.fOrig + 4) / 4;
      if target / 0x200_0000 != 0 {
        return false;
      }
      var branch := IForm(BRANCH_MOPCODE, target % 0x100_0000, 1, 0);
      Store(frr.fStub, frr.fBytes);
      Store(frr.fStub + 4, PackI(branch));
      target := frr.fNew / 4;
      if target / 0x200_0000 != 0 {
        Stages(old(mem), frr.fOrig, frr.fNew, frr.fStub, sys, false);
        return false;
      }
      branch := branch.(LI := target % 0x100_0000);
      if sys.early.Some? {
        Store(frr.fOrig, sys.early.value);
      }
      ghost var before, stages := mem, trace;
      var ret := HwCompareAndStore(mem[frr.fOrig], PackI(branch), frr.fOrig, sys.race);
      ok := ret == 1;
      Stages(old(mem), frr.fOrig, frr.fNew, frr.fStub, sys, ok);
      forall k | |stages| <= k < |trace|
        ensures IsStage(old(mem), trace[k], frr.fOrig, frr.fNew, frr.fStub, sys, ok)
      {
        UpdateStages(old(mem), frr.fOrig, frr.fNew, frr.fStub, sys, before, trace[k][frr.fOrig], ok);
      }
      if ok {
        Patches(old(mem), frr.fOrig, frr.fNew, frr.fStub, sys.early, mem);
      } else {
        Disturbs(old(mem), frr.fOrig, frr.fStub, sys, mem);
      }
    }

    /** Puts the saved word back, in one store, and frees both blocks once each.
        It does so even when another thread's store makes the update fail. */
    method FrrRemove(frr: FrrData?, writable: bool, race: Option<Word>) returns (ret: int)
      requires frr != null ==> frr.block in live && frr.fStub in live && frr.block != frr.fStub && frr.fOrig in mem
      modifies this`mem, this`trace, this`live
      ensures ret == (if frr != null && !writable then -1 else 0)
      ensures frr == null || !writable ==> mem == old(mem) && live == old(live) && trace == old(trace)
      ensures frr != null && writable ==>
        && live == old(live) - {frr.block, frr.fStub}
        && mem == old(mem)[frr.fOrig :=
             if race.None? || race.value == old(mem[frr.fOrig]) then frr.fBytes else race.value]
      ensures old(trace) <= trace && forall k :: |old(trace)| <= k < |trace| ==>
        frr != null && frr.fOrig in trace[k] && trace[k] == old(mem)[frr.fOrig := trace[k][frr.fOrig]] &&
        (trace[k][frr.fOrig] == old(mem[frr.fOrig]) || trace[k][frr.fOrig] == frr.fBytes
         || Some(trace[k][frr.fOrig]) == race)
    {
      if frr == null {
        return 0;
      }
      if !writable {
        return -1;
      }
      var _ := HwCompareAndStore(mem[frr.fOrig], frr.fBytes, frr.fOrig, race);
      Free(frr.fStub);
      Free(frr.block);
      return 0;
    }

    /** What `main` does: install, and if that gave a pointer, remove. It cannot
        tell a block that install has freed. With no other thread storing at the
        original during removal, all memory outside the freed stub is as it was
        when install saved the first word, and no block is left over; when nothing
        is installed, memory is as it was but for the stub and another thread's
        store. At every store on the way only the first word and the stub have
        changed, and that word is its own, another thread's, or the whole branch. */
    method InstallAndRemove(original: Word, new_: Word, sys: System) returns (outcome: Outcome)
      requires original % 4 == 0 && original in mem
      requires sys.metadata.Some? ==> sys.metadata.value !in live
      requires sys.stub.Some? ==> sys.stub.value !in live && StubPlaced(mem, original, sys.stub.value)
      requires sys.metadata.Some? && sys.stub.Some? ==> sys.metadata.value != sys.stub.value
      modifies this
      ensures outcome == Failed <==> !(new_ / 0x200_0000 == 0 && sys.metadata.Some? && sys.stub.Some?)
      ensures outcome == Removed <==> Admitted(original, new_, sys) && old(Undisturbed(original, sys))
      ensures live == old(live)
      ensures outcome == Removed ==> sys.stub.Some? && mem.Keys == old(mem).Keys
      ensures outcome == Removed ==>
        forall a :: a in old(mem) && a !in Block(sys.stub.value, STUB_BYTES) ==> mem[a] == old(mem)[a]
      ensures !Admitted(original, new_, sys) ==> mem == old(mem) && trace == old(trace)
      ensures outcome == FreesTwice && Admitted(original, new_, sys) ==>
        mem == Disturbed(old(mem), original, sys.stub.value, old(mem[original]), sys.race.value)
      ensures old(trace) <= trace && (|old(trace)| < |trace| ==> sys.stub.Some?)
      ensures forall k :: |old(trace)| <= k < |trace| ==>
        IsStage(old(mem), trace[k], original, new_, sys.stub.value, sys, outcome == Removed)
    {
      hide IsStage, Disturbed, Patch, Rerouted, Overwritten;
      var frr := FrrInstall(original, new_, sys);
      if frr == null {
        return Failed;
      }
      if frr.block !in live {
        return FreesTwice;
      }
      PatchKeeps(old(mem), original, new_, frr.fStub, old(mem[original]), sys.early);
      ghost var patched, stages := mem, trace;
      var _ := FrrRemove(frr, true, None);
      forall k | |stages| <= k < |trace|
        ensures IsStage(old(mem), trace[k], original, new_, frr.fStub, sys, true)
      {
        StaysStage(old(mem), patched, original, new_, frr.fStub, sys, trace[k][original]);
      }
      outcome := Removed;
    }
  }

  /** The stores of install, one after the other. */
  lemma Patches(u: map<Word, Word>, original: Word, new_: Word, stub: Word, early: Option<Word>, p: map<Word, Word>)
    requires original in u && original % 4 == 0 && StubPlaced(u, original, stub)
    requires p == Overwritten(Filled(u, original, stub, u[original]), original, early)[original := BranchWord(new_)]
    ensures var o := Overwritten(u, original, early);
      && p == Patch(o, original, new_, stub, u[original])
      && (Rerouted(o, p, original, new_, stub) <==> early.None? || early.value == u[original])
  {
    hide BranchWord;
    var o := Overwritten(u, original, early);
    assert p == Patch(o, original, new_, stub, u[original]);
    PatchReroutes(o, original, new_, stub, u[original]);
  }

  lemma Disturbs(u: map<Word, Word>, original: Word, stub: Word, sys: System, p: map<Word, Word>)
    requires original in u && StubPlaced(u, original, stub) && sys.race.Some?
    requires p == Overwritten(Filled(u, original, stub, u[original]), original, sys.early)[original := sys.race.value]
    ensures p == Disturbed(u, original, stub, u[original], sys.race.value)
  {
    hide BranchWord;
  }

  lemma StubInBlock(stub: Word)
    requires stub as int + STUB_BYTES <= 0x1_0000_0000
    ensures stub as int in Block(stub, STUB_BYTES) && stub as int + 4 in Block(stub, STUB_BYTES)
  {
    hide Block;
  }

  /** Memory with the stub begun and filled, and with an early store. */
  lemma Stages(u: map<Word, Word>, original: Word, new_: Word, stub: Word, sys: System, installed: bool)
    requires original in u && StubPlaced(u, original, stub)
    ensures var filled := Filled(u, original, stub, u[original]);
      && IsStage(u, u[stub := u[original]], original, new_, stub, sys, installed)
      && IsStage(u, filled, original, new_, stub, sys, installed)
      && IsStage(u, Overwritten(filled, original, sys.early), original, new_, stub, sys, installed)
  {
    hide BranchWord, Block;
    StubInBlock(stub);
    assert stub in u && stub + 4 in u;
  }

  /** And whatever the update leaves at the original. */
  lemma UpdateStages(u: map<Word, Word>, original: Word, new_: Word, stub: Word, sys: System, before: map<Word, Word>,
                     w: Word, installed: bool)
    requires original in u && StubPlaced(u, original, stub)
    requires before == Overwritten(Filled(u, original, stub, u[original]), original, sys.early)
    requires w == before[original] || Some(w) == sys.race || (installed && w == BranchWord(new_))
    ensures IsStage(u, before[original := w], original, new_, stub, sys, installed)
  {
    hide BranchWord, Block;
    StubInBlock(stub);
    assert stub in u && stub + 4 in u;
  }

  /** Apart from the first word and the stub, the patched memory is the old one. */
  lemma PatchKeeps(u: map<Word, Word>, original: Word, new_: Word, stub: Word, saved: Word, early: Option<Word>)
    requires original in u && StubPlaced(u, original, stub)
    ensures var p := Patch(Overwritten(u, original, early), original, new_, stub, saved);
      OnlyPatched(u, p, original, stub) && p[original] == BranchWord(new_)
  {
    hide BranchWord, Block;
    StubInBlock(stub);
  }

  lemma StaysStage(u: map<Word, Word>, p: map<Word, Word>, original: Word, new_: Word, stub: Word, sys: System, w: Word)
    requires original in u && OnlyPatched(u, p, original, stub) && (w == u[original] || w == BranchWord(new_))
    ensures IsStage(u, p[original := w], original, new_, stub, sys, true)
  {
    hide BranchWord, Block;
  }
}
