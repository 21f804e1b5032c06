/**
 * The bounded operand stack of stack.c: a `Stack` holds `sp`, the index of
 * the top element (-1 when empty), and `elems[STK_STACK_SIZE]`. Elements
 * are `double`s that are only stored and moved, never computed on, so
 * they are modelled as `real`.
 *
 * The abstract view is `Contents()`, the elements `elems[0..sp]`, bottom
 * first; the top is its last item.
 */
module Stacks {

  /** The capacity: 32, the size stack.h gives the stack. */
  const STK_STACK_SIZE: nat := 32

  /** STK_SUCCESS, STK_ERR_STACK_MIN, STK_ERR_STACK_MAX. */
  datatype StackStatus = Success | ErrStackMin | ErrStackMax

  /** `c` with its top two elements exchanged. */
  function Swapped(c: seq<real>): (r: seq<real>)
    requires |c| >= 2
    ensures |r| == |c| && r[..|c| - 2] == c[..|c| - 2]
  {
    c[..|c| - 2] + [c[|c| - 1], c[|c| - 2]]
  }

  /** Swapping twice gives back the stack. */
  lemma SwapTwice(c: seq<real>)
    requires |c| >= 2
    ensures Swapped(Swapped(c)) == c
  {
    var n := |c|;
    var s := Swapped(c);
    assert s[n - 1] == c[n - 2] && s[n - 2] == c[n - 1];
    assert Swapped(s) == c[..n - 2] + [c[n - 2], c[n - 1]];
    assert c == c[..n - 2] + [c[n - 2], c[n - 1]];
  }

  /** A swap keeps the elements, only their order changes. */
  lemma SwapKeeps(c: seq<real>)
    requires |c| >= 2
    ensures multiset(Swapped(c)) == multiset(c)
  {
    var n := |c|;
    assert c == c[..n - 2] + [c[n - 2], c[n - 1]];
  }

  class Stack {
    var sp: int
    var elems: array<real>

    ghost predicate Valid()
      reads this
    {
      elems.Length == STK_STACK_SIZE && -1 <= sp < STK_STACK_SIZE
    }

    /** The elements, bottom first. */
    ghost function Contents(): (c: seq<real>)
      reads this, elems
      requires Valid()
      ensures |c| == sp + 1 <= STK_STACK_SIZE
    {
      elems[..sp + 1]
    }

    /** A `Stack` value whose `sp` is still to be set by `stack_init`. */
    constructor ()
      ensures elems.Length == STK_STACK_SIZE && fresh(elems)
    {
      elems := new real[STK_STACK_SIZE];
    }

    /** `stack_init`: only the pointer is reset, the elements are left as they are. */
    method Init()
      requires elems.Length == STK_STACK_SIZE
      modifies this
      ensures Valid() && Contents() == [] && elems == old(elems)
    {
      sp := -1;
    }

    /**
     * `stack_push`: on a full stack `sp` goes up and straight back down and
     * NULL is returned (`ok` false); otherwise `elem` becomes the top.
     */
    method Push(elem: real) returns (ok: bool)
      requires Valid()
      modifies this, elems
      ensures Valid() && elems == old(elems)
      ensures ok <==> |old(Contents())| < STK_STACK_SIZE
      ensures Contents() == if ok then old(Contents()) + [elem] else old(Contents())
    {
      sp := sp + 1;
      if sp == STK_STACK_SIZE {
        sp := sp - 1;
        return false;
      }
      elems[sp] := elem;
      ok := true;
    }

    /**
     * `stack_peek`: the top element, written to `*dest` only when there is
     * one; `dest` is the caller's value, handed back unchanged on an error.
     */
    method Peek(dest: real) returns (status: StackStatus, v: real)
      requires Valid()
      ensures status in {Success, ErrStackMin}
      ensures status == Success <==> Contents() != []
      ensures v == if Contents() == [] then dest else Contents()[|Contents()| - 1]
    {
      if sp < 0 {
        return ErrStackMin, dest;
      }
      v := elems[sp];
      status := Success;
    }

    /** `stack_pop`: peek, then move `sp` down. */
    method Pop(dest: real) returns (status: StackStatus, v: real)
      requires Valid()
      modifies this
      ensures Valid() && elems == old(elems)
      ensures status in {Success, ErrStackMin}
      ensures var c := old(Contents());
        if c == [] then status == ErrStackMin && v == dest && Contents() == []
        else status == Success && v == c[|c| - 1] && Contents() == c[..|c| - 1]
    {
      status, v := Peek(dest);
      if status != Success {
        return;
      }
      sp := sp - 1;
    }

    /** `stack_drop`: remove the top without reading it. */
    method Drop() returns (status: StackStatus)
      requires Valid()
      modifies this
      ensures Valid() && elems == old(elems)
      ensures var c := old(Contents());
        if c == [] then status == ErrStackMin && Contents() == []
        else status == Success && Contents() == c[..|c| - 1]
    {
      if sp < 0 {
        return ErrStackMin;
      }
      sp := sp - 1;
      status := Success;
    }

    /** `stack_dup`: push a copy of the top; an empty or a full stack is left as it is. */
    method Dup() returns (status: StackStatus)
      requires Valid()
      modifies this, elems
      ensures Valid() && elems == old(elems)
      ensures var c := old(Contents());
        if c == [] then status == ErrStackMin && Contents() == c
        else if |c| == STK_STACK_SIZE then status == ErrStackMax && Contents() == c
        else status == Success && Contents() == c + [c[|c| - 1]]
    {
      var top;
      status, top := Peek(0.0);
      if status != Success {
        return;
      }
      var ok := Push(top);
      if !ok {
        return ErrStackMax;
      }
      status := Success;
    }

    /**
     * `stack_swap` as written: two pops, then the two values pushed back in
     * the order they came off, which exchanges them. With a single element
     * the first pop has already removed it when the second one fails, so
     * that element is lost. The two pushes cannot fail after two pops.
     */
    method Swap() returns (status: StackStatus)
      requires Valid()
      modifies this, elems
      ensures Valid() && elems == old(elems)
      ensures var c := old(Contents());
        if |c| == 0 then status == ErrStackMin && Contents() == c
        else if |c| == 1 then status == ErrStackMin && Contents() == []
        else status == Success && Contents() == Swapped(c)
    {
      var ax, bx;
      status, ax := Pop(0.0);
      if status != Success {
        return;
      }
      status, bx := Pop(0.0);
      if status != Success {
        return;
      }
      var ok := Push(ax);
      assert ok;
      ok := Push(bx);
      assert ok;
      status := Success;
    }

    /** `stack_swap` with the shortage checked first, as `apply_op` does: a short stack is left as it is. */
    method SwapGuarded() returns (status: StackStatus)
      requires Valid()
      modifies this, elems
      ensures Valid() && elems == old(elems)
      ensures var c := old(Contents());
        if |c| < 2 then status == ErrStackMin && Contents() == c
        else status == Success && Contents() == Swapped(c)
    {
      if sp + 1 < 2 {
        return ErrStackMin;
      }
      status := Swap();
    }
  }
}
