/** The memory pool: a pointer that grows with allocations and is set back to free (mpool.c). */
module MPool {

  const MP_ALIGN := 4
  const MP_POOL_END := 0x0100_0000

  /** MP_ALIGN_COMP on an address. */
  function AlignUp(addr: nat): (a: nat)
    ensures a % MP_ALIGN == 0 && addr <= a < addr + MP_ALIGN
  {
    (addr + 3) / 4 * 4
  }

  /** The length mp_alloc reserves: rounded up, in 16 bits. */
  function Reserved(length: nat): nat
    requires length < 0x10000
  {
    AlignUp(length) % 0x10000
  }

  /** The rounded length covers the one asked for if and only if it does not wrap. */
  lemma ReservedCoversIff(length: nat)
    requires length < 0x10000
    ensures Reserved(length) % MP_ALIGN == 0
    ensures Reserved(length) >= length <==> length <= 65532
    ensures length <= 65532 ==> Reserved(length) < length + MP_ALIGN
    ensures length == 0 || length > 65532 ==> Reserved(length) == 0
  {
  }

  datatype Block = Block(start: nat, size: nat)

  /** Blocks from `from` to `to`, each behind the one before, none empty, all aligned. */
  predicate Stack(live: seq<Block>, from: nat, to: nat) {
    if live == [] then from == to
    else
      var b := live[|live| - 1];
      b.size > 0 && b.start % MP_ALIGN == 0 && b.size % MP_ALIGN == 0 && b.start + b.size == to &&
      Stack(live[..|live| - 1], from, b.start)
  }

  /** Blocks in a stack lie between its ends, in order and apart. */
  lemma {:induction false} StackDisjoint(live: seq<Block>, from: nat, to: nat, i: nat)
    requires Stack(live, from, to) && i < |live|
    ensures from <= live[i].start && live[i].start + live[i].size <= to
    ensures live[i].start % MP_ALIGN == 0 && live[i].size > 0
    ensures forall j :: i < j < |live| ==> live[i].start + live[i].size <= live[j].start
    decreases |live|
  {
    var n := |live| - 1;
    if i < n {
      StackDisjoint(live[..n], from, live[n].start, i);
    } else {
      StackOrdered(live[..n], from, live[n].start);
    }
  }

  lemma {:induction false} StackOrdered(live: seq<Block>, from: nat, to: nat)
    requires Stack(live, from, to)
    ensures from <= to
    ensures live != [] ==> from < to
    decreases |live|
  {
    if live != [] {
      StackOrdered(live[..|live| - 1], from, live[|live| - 1].start);
    }
  }

  /** The blocks, or what is left of them, when everything from addr on is given back. */
  function Cut(live: seq<Block>, addr: nat): seq<Block> {
    if live == [] then []
    else
      var front, b := live[..|live| - 1], live[|live| - 1];
      if b.start >= addr then Cut(front, addr)
      else if b.start + b.size > addr then front + [Block(b.start, addr - b.start)]
      else live
  }

  /** A cut at an aligned address leaves a stack that ends there, whose blocks start where they
      did and but for the last one are as they were. */
  lemma {:induction false} CutStack(live: seq<Block>, from: nat, to: nat, addr: nat)
    requires Stack(live, from, to) && from <= addr <= to && addr % MP_ALIGN == 0
    ensures Stack(Cut(live, addr), from, addr)
    ensures |Cut(live, addr)| <= |live|
    ensures forall i :: 0 <= i < |Cut(live, addr)| ==> Cut(live, addr)[i].start == live[i].start < addr
    ensures forall i :: 0 <= i < |Cut(live, addr)| - 1 ==> Cut(live, addr)[i] == live[i]
    ensures forall i :: |Cut(live, addr)| <= i < |live| ==> live[i].start >= addr
    decreases |live|
  {
    if live != [] {
      var front, b := live[..|live| - 1], live[|live| - 1];
      StackOrdered(front, from, b.start);
      forall i | 0 <= i < |front|
        ensures live[i].start < b.start
      {
        StackDisjoint(live, from, to, i);
      }
      if b.start >= addr {
        CutStack(front, from, b.start, addr);
      }
    }
  }

  /** The start of a block gives back that block and the later ones, all of them and no other. */
  lemma {:induction false} CutAtBlock(live: seq<Block>, from: nat, to: nat, k: nat)
    requires Stack(live, from, to) && k < |live|
    ensures from <= live[k].start < to && live[k].start % MP_ALIGN == 0
    ensures Cut(live, live[k].start) == live[..k]
    decreases |live|
  {
    StackDisjoint(live, from, to, k);
    var n := |live| - 1;
    if k < n {
      CutAtBlock(live[..n], from, live[n].start, k);
      assert live[..n][..k] == live[..k];
    }
  }

  /** The module, with the blocks handed out and not freed, oldest first. */
  class Pool {
    const eflash: nat  // end of the program's own memory
    var floor: nat
    var pos: nat
    var initDone: bool
    ghost var live: seq<Block>

    ghost predicate Valid()
      reads this
    {
      initDone ==> floor == AlignUp(eflash) && Stack(live, floor, pos) &&
                   (live != [] ==> pos < MP_POOL_END)
    }

    constructor (eflash: nat)
      ensures Valid() && !initDone && this.eflash == eflash
    {
      this.eflash, floor, pos, initDone, live := eflash, 0, 0, false, [];
    }

    /** mp_init */
    method Init(force: bool)
      requires Valid()
      modifies this
      ensures Valid() && initDone && floor == AlignUp(eflash)
      ensures if old(initDone) && !force then pos == old(pos) && live == old(live) else live == [] && pos == floor
    {
      if !initDone || force {
        floor := AlignUp(eflash);
        pos := floor;
        initDone := true;
        live := [];
      }
    }

    /** mp_alloc; 0 for NULL. Lengths that round to zero get an address and no room. */
    method Alloc(length: nat) returns (ret: nat)
      requires Valid() && initDone && length < 0x10000
      modifies this
      ensures Valid() && initDone && floor == old(floor)
      ensures old(pos) + Reserved(length) >= 0x0100_0000 ==> ret == 0 && live == old(live) && pos == old(pos)
      ensures old(pos) + Reserved(length) < 0x0100_0000 ==>
                && ret == old(pos) && pos == old(pos) + Reserved(length)
                && live == old(live) + if 1 <= length <= 65532 then [Block(ret, Reserved(length))] else []
    {
      ReservedCoversIff(length);
      hide Reserved, AlignUp;
      var len := Reserved(length);
      var tmp := pos + len;
      if tmp >= MP_POOL_END {
        return 0;
      }
      ret := pos;
      pos := tmp;
      StartAligned(live, floor, ret);
      if len > 0 {
        live := live + [Block(ret, len)];
        assert live[..|live| - 1] == old(live);
      }
    }

    /** The addresses mp_free_to takes. */
    ghost predicate CanFree(addr: nat)
      reads this
    {
      floor <= addr < pos && addr % MP_ALIGN == 0
    }

    /** mp_free_to, for any address. */
    method FreeTo(addr: nat)
      requires Valid() && initDone
      modifies this
      ensures Valid() && initDone && floor == old(floor)
      ensures if old(CanFree(addr)) then pos == addr && live == Cut(old(live), addr)
              else pos == old(pos) && live == old(live)
    {
      if addr >= floor && addr < pos && addr == AlignUp(addr) {
        CutStack(live, floor, pos, addr);
        pos := addr;
        live := Cut(live, addr);
      }
    }

    /** Everything in use is inside the pool, aligned, and disjoint. */
    lemma LiveBlocksAreApart(i: nat, j: nat)
      requires Valid() && initDone && i < j < |live|
      ensures AlignUp(eflash) <= live[i].start
      ensures live[i].start % MP_ALIGN == 0 && live[i].start + live[i].size <= live[j].start
      ensures live[j].start + live[j].size <= pos < MP_POOL_END
    {
      StackDisjoint(live, floor, pos, i);
      StackDisjoint(live, floor, pos, j);
    }
  }

  lemma StartAligned(live: seq<Block>, from: nat, to: nat)
    requires Stack(live, from, to) && from % MP_ALIGN == 0
    ensures to % MP_ALIGN == 0
  {
  }

  /** What users of the pool do after loop_init. */
  datatype Use = Take(length: nat) | Give(addr: nat)

  /** loop_init (loop.c), when its allocations all succeed, then any use of the pool that does not
      free the loop's data, then the mp_free_to of loop_deinit: the pool is as it was, or as it is
      when set up if loop_init had to do that. */
  method LoopInitDeinit(pool: Pool, loopData: nat, maxFunc: nat, maxTimer: nat, later: seq<Use>)
    requires pool.Valid() && 1 <= loopData <= 65532 && maxFunc < 256 && maxTimer < 256
    requires var base := if pool.initDone then pool.pos else AlignUp(pool.eflash);
             && base + Reserved(loopData) + Reserved(4 * maxFunc) + Reserved(4 * maxTimer) < MP_POOL_END
             && forall i :: 0 <= i < |later| ==> if later[i].Give? then later[i].addr > base else later[i].length < 0x10000
    modifies pool
    ensures pool.Valid() && pool.initDone
    ensures pool.pos == if old(pool.initDone) then old(pool.pos) else AlignUp(pool.eflash)
    ensures pool.live == if old(pool.initDone) then old(pool.live) else []
  {
    pool.Init(false);
    ghost var before := pool.live;
    var d := pool.Alloc(loopData);
    var f := pool.Alloc(4 * maxFunc);
    var t := pool.Alloc(4 * maxTimer);
    ghost var k := |before|;
    var i := 0;
    while i < |later|
      invariant 0 <= i <= |later|
      invariant pool.Valid() && pool.initDone && k < |pool.live| && pool.live[..k] == before && pool.live[k].start == d
    {
      match later[i] {
        case Take(length) =>
          var _ := pool.Alloc(length);
        case Give(addr) =>
          CutKeepsBelow(pool.live, pool.floor, pool.pos, addr, k);
          pool.FreeTo(addr);
      }
      i := i + 1;
    }
    CutAtBlock(pool.live, pool.floor, pool.pos, k);
    pool.FreeTo(d);
  }

  lemma CutKeepsBelow(live: seq<Block>, from: nat, to: nat, addr: nat, k: nat)
    requires Stack(live, from, to) && k < |live| && live[k].start < addr
    ensures from <= addr < to && addr % MP_ALIGN == 0 ==>
              var cut := Cut(live, addr); k < |cut| && cut[..k] == live[..k] && cut[k].start == live[k].start
  {
    hide Stack, Cut;
    if from <= addr < to && addr % MP_ALIGN == 0 {
      CutStack(live, from, to, addr);
    }
  }
}
