/**
 * The parts of scalc.c's main loop that decide what a line is: leading
 * white space is skipped (`chomp_lead`), a blank line is ignored, `:quit`
 * ends the program, another `:` line is a command and anything else is a
 * math expression; and the operand guard of `apply_op`, which pops the
 * operands of an operation off the stack only when they are all there.
 */
module Scalc {
  import opened Wrappers
  import opened CStr
  import opened Stacks
  import opened Cmd

  /** The size of the expression buffer, and the bound of the `:quit` comparison. */
  const SCALC_EXPR_SIZE: nat := 64

  /** The text after the leading white space. */
  function Chomped(s: seq<CChar>): (r: seq<CChar>)
    ensures |r| <= |s| && r == s[|s| - |r|..]
    ensures r == [] || !IsSpace(r[0])
    ensures forall i :: 0 <= i < |s| - |r| ==> IsSpace(s[i])
  {
    if s != [] && IsSpace(s[0]) then Chomped(s[1..]) else s
  }

  /** A line without leading white space is its own result. */
  lemma ChompedNoLead(s: seq<CChar>)
    requires s == [] || !IsSpace(s[0])
    ensures Chomped(s) == s
  {
  }

  /** Chomping twice is chomping once. */
  lemma ChompedIdempotent(s: seq<CChar>)
    ensures Chomped(Chomped(s)) == Chomped(s)
  {
    ChompedNoLead(Chomped(s));
  }

  /** Leading white space does not change the result. */
  lemma {:induction false} ChompedSkipsSpace(w: seq<CChar>, s: seq<CChar>)
    requires forall i :: 0 <= i < |w| ==> IsSpace(w[i])
    ensures Chomped(w + s) == Chomped(s)
  {
    if w != [] {
      assert (w + s)[0] == w[0] && (w + s)[1..] == w[1..] + s;
      ChompedSkipsSpace(w[1..], s);
    } else {
      assert w + s == s;
    }
  }

  /**
   * `chomp_lead`: the pointer is moved past white space; the returned
   * pointer is `s + k`. The terminator stops the loop, as NUL is not
   * white space.
   */
  method ChompLead(s: seq<CChar>) returns (k: nat)
    ensures k <= |s| && s[k..] == Chomped(s)
  {
    k := 0;
    while k < |s| && IsSpace(s[k])
      invariant k <= |s| && Chomped(s[k..]) == Chomped(s)
    {
      assert s[k..][1..] == s[k + 1..];
      k := k + 1;
    }
    ChompedNoLead(s[k..]);
  }

  /** What the main loop does with a line. */
  datatype Action = Skip | Quit | Command(line: seq<CChar>) | Math(line: seq<CChar>)

  /**
   * The dispatch of the main loop on the chomped line: blank lines are
   * skipped, `:quit` (compared with `strncmp` up to 64 bytes) ends the
   * program, other `:` lines go to `eval_cmd`, the rest to `eval_math`.
   */
  function Classify(expr: seq<CChar>): (a: Action)
    ensures a.Command? || a.Math? ==> a.line == Chomped(expr) && a.line != []
  {
    var e := Chomped(expr);
    if |e| == 0 then Skip
    else if StrnEqual(e, ":quit", SCALC_EXPR_SIZE) then Quit
    else if e[0] == ':' then Command(e)
    else Math(e)
  }

  /** The four outcomes, each by what the line holds after its leading white space. */
  lemma ClassifyCases(expr: seq<CChar>)
    ensures Classify(expr) == Skip <==> forall i :: 0 <= i < |expr| ==> IsSpace(expr[i])
    ensures Classify(expr) == Quit <==> Chomped(expr) == ":quit"
    ensures Classify(expr).Command? <==> Chomped(expr) != [] && Chomped(expr)[0] == ':' && Chomped(expr) != ":quit"
    ensures Classify(expr).Math? <==> Chomped(expr) != [] && Chomped(expr)[0] != ':'
  {
    var e := Chomped(expr);
    StrnEqualShortRight(e, ":quit", SCALC_EXPR_SIZE);
    ChompedBlank(expr);
    if e == [] {
      assert Classify(expr) == Skip;
    } else if e == ":quit" {
      assert Classify(expr) == Quit;
    } else if e[0] == ':' {
      assert Classify(expr) == Command(e);
    } else {
      assert Classify(expr) == Math(e);
    }
  }

  /** Nothing is left exactly when the line is all white space. */
  lemma ChompedBlank(expr: seq<CChar>)
    ensures Chomped(expr) == [] <==> forall i :: 0 <= i < |expr| ==> IsSpace(expr[i])
  {
    var e := Chomped(expr);
    if e == [] {
      assert |expr| - |e| == |expr|;
    } else {
      assert !IsSpace(expr[|expr| - |e|]);
    }
  }

  /** Leading blanks before `:quit` do not matter. */
  lemma BlanksThenQuit(w: seq<CChar>)
    requires forall i :: 0 <= i < |w| ==> IsSpace(w[i])
    ensures Classify(w + ":quit") == Quit
  {
    var q: seq<CChar> := ":quit";
    ChompedSkipsSpace(w, q);
    ChompedNoLead(q);
    assert StrnEqual(q, ":quit", SCALC_EXPR_SIZE);
  }

  /** `:quit` must be the whole line: with anything after it, the line is a command. */
  lemma QuitPrefixIsCommand(rest: seq<CChar>)
    requires rest != []
    ensures Classify(":quit" + rest) == Command(":quit" + rest)
  {
    var e := ":quit" + rest;
    assert e[0] == ':';
    ChompedNoLead(e);
    ClassifyCases(e);
    assert |e| > 5;
  }

  /**
   * `apply_op` up to the call of the operation's function: `argN` is the
   * operation's operand count, `None` for an invalid operation. When the
   * stack holds fewer operands than needed, STACK_ERR_MIN is set and
   * nothing is popped; otherwise the operands are popped into `args` from
   * the last slot back, so `args[0]` is the deepest and `args[argN-1]` the
   * old top.
   */
  method ApplyOp(stk: Stack, argN: Option<nat>) returns (status: int, err: Option<ErrCode>, args: seq<real>)
    requires stk.Valid() && (argN.Some? ==> argN.value <= 2)
    modifies stk
    ensures stk.Valid() && stk.elems == old(stk.elems)
    ensures var c := old(stk.Contents());
      if argN.None? then status == -1 && err == None && args == [] && stk.Contents() == c
      else if argN.value > |c| then status == -1 && err == Some(StackErrMin) && args == [] && stk.Contents() == c
      else status == 0 && err == None && args == c[|c| - argN.value..] && stk.Contents() == c[..|c| - argN.value]
  {
    if argN.None? {
      return -1, None, [];
    }
    var n := argN.value;
    if n > stk.sp + 1 {
      return -1, Some(StackErrMin), [];
    }
    ghost var c := stk.Contents();
    ghost var base := |c| - n;
    var slots := new real[2];
    var i := n - 1;
    while i >= 0
      invariant -1 <= i < n && stk.Valid() && stk.elems == old(stk.elems)
      invariant stk.Contents() == c[..base + i + 1]
      invariant forall j :: i < j < n ==> slots[j] == c[base + j]
    {
      var st, v := stk.Pop(0.0);
      assert st == Success;
      slots[i] := v;
      i := i - 1;
    }
    args := slots[..n];
    assert forall j :: 0 <= j < n ==> args[j] == c[base..][j];
    status, err := 0, None;
  }
}
