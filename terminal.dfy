/**
 * An abstract account of what the line editor writes to the terminal, and
 * of the line the user then sees. The editor's escape strings are named by
 * what they do: `ESC [ n D` / `ESC [ n C` move the cursor, `ESC [ 0 K`
 * clears to the end of the line, and `ln_redraw` (clear, save the cursor,
 * write a suffix, restore the cursor) redraws the tail of the line.
 */
module Terminal {
  import opened CStr

  datatype Out =
    | CursorLeft(n: nat)    // ESC [ D, ESC [ n D
    | CursorRight(n: nat)   // ESC [ C, ESC [ n C
    | Text(s: seq<CChar>)   // bytes written at the cursor
    | Redraw(s: seq<CChar>) // ln_redraw: ESC [ 0 K, ESC 7, s, ESC 8
    | ClearToEnd            // ESC [ 0 K
    | Back                  // \b
    | Newline               // \n

  /** The line being edited as displayed, and the terminal cursor's column in it. */
  datatype Screen = Screen(line: seq<CChar>, col: nat)

  /** Writing `s` at column `col` overwrites what is there (blanks fill a gap). */
  function Overwrite(line: seq<CChar>, col: nat, s: seq<CChar>): (r: seq<CChar>)
    ensures |r| == Max(|line|, col + |s|)
    ensures r[..Min(col, |line|)] == line[..Min(col, |line|)]
    ensures r[col..col + |s|] == s
  {
    var head := if col <= |line| then line[..col] else line + seq(col - |line|, _ => ' ');
    var tail := if col + |s| < |line| then line[col + |s|..] else [];
    head + s + tail
  }

  /**
   * One write. Cursor moves leave the line alone; text is printed from the
   * cursor, which ends after it; a redraw or a clear keeps the cursor (ESC 7
   * and ESC 8 save and restore it) and what lies before it.
   */
  function Put(sc: Screen, o: Out): (r: Screen)
    ensures o.CursorLeft? || o.CursorRight? || o.Back? ==> r.line == sc.line
    ensures o.Text? ==> r.col == sc.col + |o.s| <= |r.line| && r.line[sc.col..r.col] == o.s
    ensures o.Redraw? || o.ClearToEnd? ==>
      r.col == sc.col && Min(sc.col, |sc.line|) <= |r.line| && r.line[..Min(sc.col, |sc.line|)] == sc.line[..Min(sc.col, |sc.line|)]
    ensures o.Redraw? && sc.col <= |sc.line| ==> |r.line| == sc.col + |o.s| && r.line[sc.col..] == o.s
  {
    match o
    case CursorLeft(n) => Screen(sc.line, Max(0, sc.col - n))
    case CursorRight(n) => Screen(sc.line, sc.col + n)
    case Text(s) => Screen(Overwrite(sc.line, sc.col, s), sc.col + |s|)
    case Redraw(s) => Screen(sc.line[..Min(sc.col, |sc.line|)] + s, sc.col)
    case ClearToEnd => Screen(sc.line[..Min(sc.col, |sc.line|)], sc.col)
    case Back => Screen(sc.line, Max(0, sc.col - 1))
    case Newline => Screen([], 0)
  }

  /** The screen after a series of writes, in order. */
  function Play(sc: Screen, outs: seq<Out>): (r: Screen)
    ensures (forall i :: 0 <= i < |outs| ==> outs[i].CursorLeft? || outs[i].CursorRight? || outs[i].Back?) ==>
      r.line == sc.line
    decreases |outs|
  {
    if outs == [] then sc else Play(Put(sc, outs[0]), outs[1..])
  }

  lemma {:induction false} PlayAppend(sc: Screen, a: seq<Out>, b: seq<Out>)
    ensures Play(sc, a + b) == Play(Play(sc, a), b)
    decreases |a|
  {
    if a == [] {
      assert a + b == b;
    } else {
      assert (a + b)[0] == a[0];
      assert (a + b)[1..] == a[1..] + b;
      PlayAppend(Put(sc, a[0]), a[1..], b);
    }
  }

  lemma PlayTwo(sc: Screen, a: Out, b: Out)
    ensures Play(sc, [a, b]) == Put(Put(sc, a), b)
  {
    assert [a, b][1..] == [b];
    assert [b][1..] == [];
    assert Play(Put(sc, a), [b]) == Play(Put(Put(sc, a), b), []);
  }
}
