/**
 * Properties of the line session that span several keys: browsing the
 * history up and back down, typing a whole line through the decoder, and
 * the editing scenarios of the line editor.
 */
module SlineProps {
  import opened CStr
  import opened Terminal
  import opened SlineKeys
  import opened SlineBuffer
  import opened Sline

  /** The keys `ks` applied one after the other, with all their output. */
  function Steps(st: State, ks: seq<Key>, entries: seq<seq<CChar>>, size: nat): (r: Stepped)
    requires Inv(st, entries, size) && EntriesFit(entries, size)
    ensures Inv(r.st, entries, size)
    decreases |ks|
  {
    if ks == [] then Stepped(st, [])
    else
      var s := Step(st, ks[0], entries, size);
      var r := Steps(s.st, ks[1..], entries, size);
      Stepped(r.st, s.out + r.out)
  }

  /** After any keys, the terminal shows the text with the cursor in place. */
  lemma {:induction false} StepsShow(st: State, ks: seq<Key>, entries: seq<seq<CChar>>, size: nat)
    requires Inv(st, entries, size) && EntriesFit(entries, size)
    ensures var r := Steps(st, ks, entries, size);
      Shows(Play(Screen(st.content, st.pos), r.out), r.st)
    decreases |ks|
  {
    if ks != [] {
      var s := Step(st, ks[0], entries, size);
      StepsShow(s.st, ks[1..], entries, size);
      PlayAppend(Screen(st.content, st.pos), s.out, Steps(s.st, ks[1..], entries, size).out);
    }
  }

  /** One key, then the rest. */
  lemma StepsFirst(st: State, ks: seq<Key>, entries: seq<seq<CChar>>, size: nat)
    requires Inv(st, entries, size) && EntriesFit(entries, size) && ks != []
    ensures Steps(st, ks, entries, size).st == Steps(Step(st, ks[0], entries, size).st, ks[1..], entries, size).st
  {
  }

  /** The last key of a run. */
  lemma StepsOne(st: State, k: Key, entries: seq<seq<CChar>>, size: nat)
    requires Inv(st, entries, size) && EntriesFit(entries, size)
    ensures Steps(st, [k], entries, size).st == Step(st, k, entries, size).st
  {
    assert [k][1..] == [];
  }

  /** A character typed with room for it goes in at the cursor, which moves past it. */
  lemma StepChr(st: State, c: CChar, entries: seq<seq<CChar>>, size: nat)
    requires Inv(st, entries, size) && EntriesFit(entries, size)
    requires c != NUL && |st.content| + 2 <= size
    ensures Step(st, Chr(c), entries, size).st == State(Inserted(st.content, st.pos, c), st.pos + 1, |entries| - 1)
  {
  }

  /** Left moves the cursor back one place unless it is at the start. */
  lemma StepLeft(st: State, entries: seq<seq<CChar>>, size: nat)
    requires Inv(st, entries, size) && EntriesFit(entries, size) && st.pos > 0
    ensures Step(st, Lft, entries, size).st == State(st.content, st.pos - 1, st.histNum)
  {
  }

  function Repeat(k: Key, n: nat): (ks: seq<Key>)
    ensures |ks| == n && forall i :: 0 <= i < n ==> ks[i] == k
  {
    seq(n, _ => k)
  }

  lemma {:induction false} StepsAppend(st: State, a: seq<Key>, b: seq<Key>, entries: seq<seq<CChar>>, size: nat)
    requires Inv(st, entries, size) && EntriesFit(entries, size)
    ensures Steps(st, a + b, entries, size).st == Steps(Steps(st, a, entries, size).st, b, entries, size).st
    decreases |a|
  {
    if a == [] {
      assert a + b == b;
    } else {
      assert (a + b)[0] == a[0] && (a + b)[1..] == a[1..] + b;
      StepsAppend(Step(st, a[0], entries, size).st, a[1..], b, entries, size);
    }
  }

  /**
   * `k` presses of up from `hist_num == j` (with `k <= j`) recall the entry
   * `k` places older, with the cursor at its end.
   */
  lemma {:induction false} UpsRecall(st: State, k: nat, entries: seq<seq<CChar>>, size: nat)
    requires Inv(st, entries, size) && EntriesFit(entries, size)
    requires 1 <= k <= st.histNum
    ensures var j := st.histNum - k;
      Steps(st, Repeat(Up, k), entries, size).st == State(entries[j], |entries[j]|, j)
    decreases k
  {
    var s := Step(st, Up, entries, size);
    assert Repeat(Up, k)[0] == Up && Repeat(Up, k)[1..] == Repeat(Up, k - 1);
    if k > 1 {
      UpsRecall(s.st, k - 1, entries, size);
    }
  }

  /**
   * Pressing down from `hist_num == j` until one past the newest entry
   * brings back the blank prompt.
   */
  lemma {:induction false} DownsReturn(st: State, entries: seq<seq<CChar>>, size: nat)
    requires Inv(st, entries, size) && EntriesFit(entries, size)
    requires st.histNum < |entries|
    ensures Steps(st, Repeat(Dwn, |entries| - st.histNum), entries, size).st == State([], 0, |entries|)
    decreases |entries| - st.histNum
  {
    var d := |entries| - st.histNum;
    var s := Step(st, Dwn, entries, size);
    assert Repeat(Dwn, d)[0] == Dwn && Repeat(Dwn, d)[1..] == Repeat(Dwn, d - 1);
    if d > 1 {
      DownsReturn(s.st, entries, size);
    } else {
      assert Repeat(Dwn, d)[1..] == [];
    }
  }

  /**
   * From a fresh prompt, `k` presses of up (k at most the number of
   * entries) recall the k-th most recent entry, and `k` presses of down
   * then return to an empty line.
   */
  lemma UpThenDown(st: State, k: nat, entries: seq<seq<CChar>>, size: nat)
    requires Inv(st, entries, size) && EntriesFit(entries, size)
    requires st.histNum == |entries| && 1 <= k <= |entries|
    ensures var up := Steps(st, Repeat(Up, k), entries, size).st;
      up.content == entries[|entries| - k] && up.pos == |entries[|entries| - k]|
    ensures Steps(st, Repeat(Up, k) + Repeat(Dwn, k), entries, size).st == State([], 0, |entries|)
  {
    var ups, downs := Repeat(Up, k), Repeat(Dwn, k);
    var j := |entries| - k;
    var up := Steps(st, ups, entries, size).st;
    assert up == State(entries[j], |entries[j]|, j) by {
      UpsRecall(st, k, entries, size);
    }
    assert Steps(up, downs, entries, size).st == State([], 0, |entries|) by {
      DownsReturn(up, entries, size);
    }
    StepsAppend(st, ups, downs, entries, size);
  }

  /**
   * Typing resets `hist_num` to `hist_last`, not past it, so the first up
   * after a keystroke skips the newest entry and recalls the one before.
   */
  lemma TypingThenUpSkipsNewest(st: State, c: CChar, entries: seq<seq<CChar>>, size: nat)
    requires Inv(st, entries, size) && EntriesFit(entries, size) && |entries| >= 2
    ensures var n := |entries|;
      Step(Step(st, Chr(c), entries, size).st, Up, entries, size).st == State(entries[n - 2], |entries[n - 2]|, n - 2)
  {
  }

  // ---- Typing through the decoder ----

  /** What a terminal sends for the keys `ks`. */
  function Typed(ks: seq<Key>): (bs: seq<CChar>)
  {
    if ks == [] then [] else KeyBytes(ks[0]) + Typed(ks[1..])
  }

  lemma {:induction false} BytesAppend(a: seq<CChar>, b: seq<CChar>)
    ensures Bytes(a + b) == Bytes(a) + Bytes(b)
  {
  }

  /**
   * The session reads the keys a terminal sends for `ks` exactly as
   * `Steps` applies them, then carries on with the reads that follow.
   */
  lemma {:induction false} RunTyped(st: State, ks: seq<Key>, rest: seq<Read>, entries: seq<seq<CChar>>, size: nat)
    requires Inv(st, entries, size) && EntriesFit(entries, size)
    requires forall i :: 0 <= i < |ks| ==> Sendable(ks[i]) && ks[i] != Eof && ks[i] != Ret
    ensures var s := Steps(st, ks, entries, size);
      Run(Bytes(Typed(ks)) + rest, st, entries, size) == Preceded(s.out, Run(rest, s.st, entries, size))
    decreases |ks|
  {
    if ks == [] {
      assert Bytes([]) + rest == rest;
      assert [] + Run(rest, st, entries, size).out == Run(rest, st, entries, size).out;
    } else {
      var k := ks[0];
      var s := Step(st, k, entries, size);
      var tail := Bytes(Typed(ks[1..])) + rest;
      assert Run(Bytes(Typed(ks)) + rest, st, entries, size) == Preceded(s.out, Run(tail, s.st, entries, size)) by {
        TypedFirst(ks, rest);
        RunKey(st, k, tail, entries, size);
      }
      RunTyped(s.st, ks[1..], rest, entries, size);
      var t := Steps(s.st, ks[1..], entries, size);
      PrecededTwice(s.out, t.out, Run(rest, t.st, entries, size));
    }
  }

  /** The reads for the first key, then the reads for the others. */
  lemma TypedFirst(ks: seq<Key>, rest: seq<Read>)
    requires ks != []
    ensures Bytes(Typed(ks)) + rest == Bytes(KeyBytes(ks[0])) + (Bytes(Typed(ks[1..])) + rest)
  {
    var a, b := Bytes(KeyBytes(ks[0])), Bytes(Typed(ks[1..]));
    assert Typed(ks) == KeyBytes(ks[0]) + Typed(ks[1..]);
    assert Bytes(Typed(ks)) == a + b by { BytesAppend(KeyBytes(ks[0]), Typed(ks[1..])); }
    assert (a + b) + rest == a + (b + rest);
  }

  /** The session reads one key as a terminal sends it and steps by it. */
  lemma RunKey(st: State, k: Key, tail: seq<Read>, entries: seq<seq<CChar>>, size: nat)
    requires Inv(st, entries, size) && EntriesFit(entries, size)
    requires Sendable(k) && k != Eof && k != Ret
    ensures var s := Step(st, k, entries, size);
      Run(Bytes(KeyBytes(k)) + tail, st, entries, size) == Preceded(s.out, Run(tail, s.st, entries, size))
  {
    DecodeKeyBytes(k, tail);
    RunStep(Bytes(KeyBytes(k)) + tail, st, k, tail, entries, size);
  }

  /** Typing `ks` and pressing return submits the line `Steps` builds. */
  lemma TypedLine(st: State, ks: seq<Key>, entries: seq<seq<CChar>>, size: nat)
    requires Inv(st, entries, size) && EntriesFit(entries, size)
    requires forall i :: 0 <= i < |ks| ==> Sendable(ks[i]) && ks[i] != Eof && ks[i] != Ret
    ensures var s := Steps(st, ks, entries, size);
      Run(Bytes(Typed(ks)) + [Byte(LF)], st, entries, size) == Session(Submitted, s.st, s.out + [Newline])
  {
    var s := Steps(st, ks, entries, size);
    RunTyped(st, ks, [Byte(LF)], entries, size);
    PlainByte(LF, []);
    assert Bytes([LF]) + [] == [Byte(LF)];
    RunEnds([Byte(LF)], s.st, entries, size);
  }

  // ---- Scenarios ----

  /** "abc" with the cursor at the end; left, left, `X`: "aXbc" with the cursor at 2. */
  lemma LeftLeftInsert(h: int, entries: seq<seq<CChar>>, size: nat)
    requires EntriesFit(entries, size) && size >= 5 && -1 <= h <= |entries|
    ensures Steps(State("abc", 3, h), [Lft, Lft, Chr('X')], entries, size).st == State("aXbc", 2, |entries| - 1)
  {
    var ks := [Lft, Lft, Chr('X')];
    var s0, s1, s2 := State("abc", 3, h), State("abc", 2, h), State("abc", 1, h);
    StepLeft(s0, entries, size);
    StepLeft(s1, entries, size);
    StepChr(s2, 'X', entries, size);
    assert Inserted("abc", 1, 'X') == "aXbc";
    StepsFirst(s0, ks, entries, size);
    assert ks[1..] == [Lft, Chr('X')] && ks[1..][1..] == [Chr('X')];
    StepsFirst(s1, ks[1..], entries, size);
    StepsOne(s2, Chr('X'), entries, size);
  }

  /** "abc" with the cursor at 1; forward delete: "ac", cursor still at 1. */
  lemma ForwardDeleteScenario(entries: seq<seq<CChar>>, size: nat)
    requires EntriesFit(entries, size) && size >= 4
    ensures Step(State("abc", 1, |entries|), Dlt, entries, size).st == State("ac", 1, |entries| - 1)
  {
    assert Removed("abc", 1) == "ac";
  }

  /** Typing `abc` on a fresh prompt. */
  lemma TypeAbc(entries: seq<seq<CChar>>, size: nat)
    requires EntriesFit(entries, size) && size >= 5
    ensures Steps(State([], 0, |entries|), [Chr('a'), Chr('b'), Chr('c')], entries, size).st == State("abc", 3, |entries| - 1)
  {
    var n := |entries|;
    var ks := [Chr('a'), Chr('b'), Chr('c')];
    var s0, s1, s2 := State([], 0, n), State("a", 1, n - 1), State("ab", 2, n - 1);
    StepChr(s0, 'a', entries, size);
    assert Inserted([], 0, 'a') == "a";
    StepChr(s1, 'b', entries, size);
    assert Inserted("a", 1, 'b') == "ab";
    StepChr(s2, 'c', entries, size);
    assert Inserted("ab", 2, 'c') == "abc";
    StepsFirst(s0, ks, entries, size);
    assert ks[1..] == [Chr('b'), Chr('c')] && ks[1..][1..] == [Chr('c')];
    StepsFirst(s1, ks[1..], entries, size);
    StepsOne(s2, Chr('c'), entries, size);
  }

  /** The keys of the scenario below: `abc`, two left arrows, `X`. */
  lemma KeyedSteps(ks: seq<Key>, entries: seq<seq<CChar>>, size: nat)
    requires ks == [Chr('a'), Chr('b'), Chr('c'), Lft, Lft, Chr('X')]
    requires EntriesFit(entries, size) && size >= 5
    ensures Steps(State([], 0, |entries|), ks, entries, size).st == State("aXbc", 2, |entries| - 1)
  {
    var st := State([], 0, |entries|);
    var abc, llx := [Chr('a'), Chr('b'), Chr('c')], [Lft, Lft, Chr('X')];
    assert abc + llx == ks;
    assert Steps(st, abc + llx, entries, size).st == Steps(Steps(st, abc, entries, size).st, llx, entries, size).st by {
      StepsAppend(st, abc, llx, entries, size);
    }
    assert Steps(st, abc, entries, size).st == State("abc", 3, |entries| - 1) by {
      TypeAbc(entries, size);
    }
    LeftLeftInsert(|entries| - 1, entries, size);
  }

  /** The bytes a terminal sends for those keys, then return. */
  lemma KeyedBytes(ks: seq<Key>)
    requires ks == [Chr('a'), Chr('b'), Chr('c'), Lft, Lft, Chr('X')]
    ensures Typed(ks) + [LF] == "abc\U{1B}[D\U{1B}[DX\n"
  {
    var e: seq<Key> := [];
    var t5 := [Chr('X')] + e;
    var t4 := [Lft] + t5;
    var t3 := [Lft] + t4;
    var t2 := [Chr('c')] + t3;
    var t1 := [Chr('b')] + t2;
    assert ks == [Chr('a')] + t1;
    TypedCons(Chr('a'), t1);
    TypedCons(Chr('b'), t2);
    TypedCons(Chr('c'), t3);
    TypedCons(Lft, t4);
    TypedCons(Lft, t5);
    TypedCons(Chr('X'), e);
    var esc := [ESC, '[', 'D'];
    assert Typed(ks) == ['a'] + (['b'] + (['c'] + (esc + (esc + (['X'] + [])))));
  }

  /** Those keys can all be sent, and none of them ends the line. */
  lemma KeyedSendable(ks: seq<Key>)
    requires ks == [Chr('a'), Chr('b'), Chr('c'), Lft, Lft, Chr('X')]
    ensures forall i :: 0 <= i < |ks| ==> Sendable(ks[i]) && ks[i] != Eof && ks[i] != Ret
  {
    forall i | 0 <= i < |ks|
      ensures Sendable(ks[i]) && ks[i] != Eof && ks[i] != Ret
    {
      if ks[i].Chr? {
        assert ks[i].c in "abcX";
        PlainLetter(ks[i].c);
      }
    }
  }

  lemma PlainLetter(c: CChar)
    requires c in "abcX"
    ensures c != ESC && Plain(c) == Chr(c)
  {
  }

  lemma TypedCons(k: Key, ks: seq<Key>)
    ensures Typed([k] + ks) == KeyBytes(k) + Typed(ks)
  {
    assert ([k] + ks)[1..] == ks;
  }

  /**
   * The same session through the decoder: typing `abc`, two left arrows,
   * `X` and return on a fresh prompt submits "aXbc".
   */
  lemma TypedScenario(entries: seq<seq<CChar>>, size: nat)
    requires EntriesFit(entries, size) && size >= 5
    ensures var r := Run(Bytes("abc\U{1B}[D\U{1B}[DX\n"), State([], 0, |entries|), entries, size);
      r.ending == Submitted && r.st.content == "aXbc" && r.st.pos == 2
  {
    var ks := [Chr('a'), Chr('b'), Chr('c'), Lft, Lft, Chr('X')];
    KeyedSendable(ks);
    KeyedBytes(ks);
    BytesAppend(Typed(ks), [LF]);
    assert Bytes([LF]) == [Byte(LF)];
    TypedLine(State([], 0, |entries|), ks, entries, size);
    KeyedSteps(ks, entries, size);
  }
}
