/**
 * The memory registers of mem.c: the static `mem[MEM_SIZE]` array of
 * `double`s (modelled as `real`, as they are only stored and read back),
 * addressed by a letter: register `A` is index 0.
 */
module Mem {
  import opened Wrappers
  import opened CStr

  /** The number of registers; its header is not part of this model, and 26 gives `A` to `Z`. */
  const MEM_SIZE: nat := 26

  /** `mem_var_to_i`: `var - 'A'` with `var` a signed `char`, or -1 outside `0..MEM_SIZE-1`. */
  function VarToIndex(v: CChar): (i: int)
    ensures -1 <= i < MEM_SIZE
    ensures i >= 0 <==> 0 <= Signed(v) - 'A' as int < MEM_SIZE
    ensures i >= 0 ==> i == v as int - 'A' as int
  {
    var i := Signed(v) - 'A' as int;
    if i < 0 || i >= MEM_SIZE then -1 else i
  }

  /** With 26 registers, exactly the capital letters name one. */
  lemma CapitalsAreRegisters(v: CChar)
    ensures VarToIndex(v) >= 0 <==> 'A' <= v <= 'Z'
  {
  }

  /** What `mem_get` yields: the register's value, or nothing for a name that is not a register. */
  function Lookup(regs: seq<real>, v: CChar): (r: Option<real>)
    requires |regs| == MEM_SIZE
  {
    var i := VarToIndex(v);
    if i < 0 then None else Some(regs[i])
  }

  /** The registers after `mem_set(v, x)`; a name that is not a register changes nothing. */
  function Store(regs: seq<real>, v: CChar, x: real): (r: seq<real>)
    requires |regs| == MEM_SIZE
    ensures |r| == MEM_SIZE
  {
    var i := VarToIndex(v);
    if i < 0 then regs else regs[i := x]
  }

  /** A value stored in a register is the one read back from it. */
  lemma GetAfterSet(regs: seq<real>, v: CChar, x: real)
    requires |regs| == MEM_SIZE && VarToIndex(v) >= 0
    ensures Lookup(Store(regs, v, x), v) == Some(x)
  {
  }

  /** Storing into one register leaves what every other name reads unchanged. */
  lemma SetOthersUnchanged(regs: seq<real>, v: CChar, w: CChar, x: real)
    requires |regs| == MEM_SIZE && VarToIndex(w) != VarToIndex(v)
    ensures Lookup(Store(regs, v, x), w) == Lookup(regs, w)
  {
  }

  /** A name that is not a register reads as nothing and stores nothing. */
  lemma InvalidName(regs: seq<real>, v: CChar, x: real)
    requires |regs| == MEM_SIZE && !('A' <= v <= 'Z')
    ensures Lookup(regs, v) == None && Store(regs, v, x) == regs
  {
  }

  /** The static register array. */
  class Registers {
    var mem: array<real>

    ghost predicate Valid()
      reads this
    {
      mem.Length == MEM_SIZE
    }

    ghost function Regs(): (r: seq<real>)
      reads this, mem
      requires Valid()
      ensures |r| == MEM_SIZE
    {
      mem[..]
    }

    /** Static storage starts zeroed. */
    constructor ()
      ensures Valid() && Regs() == seq(MEM_SIZE, _ => 0.0) && fresh(mem)
    {
      mem := new real[MEM_SIZE](_ => 0.0);
    }

    /**
     * `mem_get`: -1 for a name that is not a register, with `*val` (here
     * `val`, handed back) untouched; otherwise 0 and the register's value.
     */
    method Get(val: real, v: CChar) returns (status: int, r: real)
      requires Valid()
      ensures status == (if Lookup(Regs(), v).None? then -1 else 0)
      ensures r == if Lookup(Regs(), v).None? then val else Lookup(Regs(), v).value
    {
      var i := VarToIndex(v);
      if i < 0 {
        return -1, val;
      }
      r := mem[i];
      status := 0;
    }

    /** `mem_set`: -1 and no change for a name that is not a register; otherwise 0 and that register set. */
    method Set(v: CChar, val: real) returns (status: int)
      requires Valid()
      modifies mem
      ensures Valid()
      ensures status == (if VarToIndex(v) < 0 then -1 else 0)
      ensures Regs() == Store(old(Regs()), v, val)
    {
      var i := VarToIndex(v);
      if i < 0 {
        return -1;
      }
      mem[i] := val;
      status := 0;
    }
  }
}
