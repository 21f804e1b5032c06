/**
 * The line buffer editor of sline.c: a fixed-size NUL-terminated `char`
 * buffer and a cursor `pos` into it. `chr_insert` and `chr_delete` splice
 * the buffer in place through `buf_slice`; `key_left`, `key_right`,
 * `key_home` and `key_end` only move the cursor.
 *
 * Each operation is specified twice over: by a function on the text the
 * buffer holds (`Insert`, `Backspace`, ...), whose contract says that it keeps
 * `0 <= pos <= strlen(buf) < size` and that its terminal output leaves the
 * displayed line equal to the text with the terminal cursor at `pos`; and,
 * for the operations that write the buffer, by a method on the array whose
 * contract ties the new buffer to that function.
 */
module SlineBuffer {
  import opened Wrappers
  import opened CStr
  import opened Terminal

  /** What an editing key does: the new text, the new cursor and what is written to the terminal. */
  datatype Edited = Edited(content: seq<CChar>, pos: nat, out: seq<Out>)

  /** The buffer invariant on the text: a C string, `pos <= strlen(buf) < size`. */
  ghost predicate Fits(s: seq<CChar>, pos: nat, size: nat)
  {
    NoNul(s) && pos <= |s| < size
  }

  /** The invariant on the buffer itself. */
  ghost predicate Valid(buf: array<CChar>, pos: nat)
    reads buf
  {
    pos <= Strlen(buf[..]) < buf.Length
  }

  /** From a screen that shows `s` with the cursor at `pos`, the output of `e` shows `e`'s text and cursor. */
  ghost predicate Displayed(s: seq<CChar>, pos: nat, e: Edited)
  {
    Play(Screen(s, pos), e.out) == Screen(e.content, e.pos)
  }

  function Inserted(s: seq<CChar>, i: nat, c: CChar): (r: seq<CChar>)
    requires i <= |s|
    ensures |r| == |s| + 1 && r[i] == c && r[..i] == s[..i] && r[i + 1..] == s[i..]
  {
    s[..i] + [c] + s[i..]
  }

  function Removed(s: seq<CChar>, i: nat): (r: seq<CChar>)
    requires i < |s|
    ensures |r| == |s| - 1 && r[..i] == s[..i] && r[i..] == s[i + 1..]
  {
    s[..i] + s[i + 1..]
  }

  /**
   * `chr_insert`: the byte goes in at the cursor and the cursor moves past
   * it; the output writes the byte and redraws the old suffix after it.
   * The insertion is refused, with no output, when the cursor is at `size`
   * (sline.c:276), and also when the buffer is full or the byte is NUL,
   * which sline.c:270-293 does not check (see `InsertTerminatorAsWritten`
   * and `InsertAsWritten`).
   */
  function Insert(s: seq<CChar>, pos: nat, c: CChar, size: nat): (e: Edited)
    requires Fits(s, pos, size)
    ensures Fits(e.content, e.pos, size)
    ensures Displayed(s, pos, e)
    ensures e.content == s || (e.content == Inserted(s, pos, c) && e.pos == pos + 1)
    ensures e.content == s <==> (|s| + 2 > size || c == NUL)
    ensures e.content == s ==> e.pos == pos && e.out == []
  {
    if pos >= size || |s| + 2 > size || c == NUL then Edited(s, pos, [])
    else
      var e := Edited(Inserted(s, pos, c), pos + 1, [Text([c]), Redraw(s[pos..])]);
      PlayTwo(Screen(s, pos), Text([c]), Redraw(s[pos..]));
      e
  }

  /**
   * `chr_delete` in backspace mode: at the start of the line nothing
   * happens; otherwise the byte before the cursor goes and the cursor
   * moves back onto its place.
   */
  function Backspace(s: seq<CChar>, pos: nat, size: nat): (e: Edited)
    requires Fits(s, pos, size)
    ensures Fits(e.content, e.pos, size)
    ensures Displayed(s, pos, e)
    ensures pos == 0 ==> e == Edited(s, 0, [])
    ensures pos > 0 ==> e.content == Removed(s, pos - 1) && e.pos == pos - 1
  {
    if pos == 0 then Edited(s, 0, [])
    else
      var e := Edited(Removed(s, pos - 1), pos - 1, [Back, Redraw(s[pos..])]);
      PlayTwo(Screen(s, pos), Back, Redraw(s[pos..]));
      e
  }

  /**
   * `chr_delete` in forward mode: the byte under the cursor goes and the
   * cursor stays; at the end of the line the text is unchanged (the
   * suffix is redrawn, empty).
   */
  function DeleteAt(s: seq<CChar>, pos: nat, size: nat): (e: Edited)
    requires Fits(s, pos, size)
    ensures Fits(e.content, e.pos, size)
    ensures Displayed(s, pos, e)
    ensures e.pos == pos
    ensures pos < |s| ==> e.content == Removed(s, pos)
    ensures pos == |s| ==> e.content == s
  {
    if pos == |s| then
      var e := Edited(s, pos, [Redraw([])]);
      assert Play(Screen(s, pos), e.out) == Put(Screen(s, pos), Redraw([]));
      e
    else
      var e := Edited(Removed(s, pos), pos, [Redraw(s[pos + 1..])]);
      assert Play(Screen(s, pos), e.out) == Put(Screen(s, pos), Redraw(s[pos + 1..]));
      e
  }

  /** `key_left`: one cell left unless at the start; output only when the cursor moves. */
  function KeyLeft(s: seq<CChar>, pos: nat, size: nat): (e: Edited)
    requires Fits(s, pos, size)
    ensures Fits(e.content, e.pos, size) && Displayed(s, pos, e) && e.content == s
    ensures e.out == [] <==> e.pos == pos
    ensures e.pos == pos || e.pos + 1 == pos
  {
    if pos > 0 then Edited(s, pos - 1, [CursorLeft(1)]) else Edited(s, pos, [])
  }

  /** `key_right`: one cell right unless at the end of the text. */
  function KeyRight(s: seq<CChar>, pos: nat, size: nat): (e: Edited)
    requires Fits(s, pos, size)
    ensures Fits(e.content, e.pos, size) && Displayed(s, pos, e) && e.content == s
    ensures e.out == [] <==> e.pos == pos
    ensures e.pos == pos || e.pos == pos + 1
  {
    if pos < |s| then Edited(s, pos + 1, [CursorRight(1)]) else Edited(s, pos, [])
  }

  /** `key_home`: to the start of the line, in one jump of `pos` cells. */
  function KeyHome(s: seq<CChar>, pos: nat, size: nat): (e: Edited)
    requires Fits(s, pos, size)
    ensures Fits(e.content, e.pos, size) && Displayed(s, pos, e) && e.content == s
    ensures e.pos == 0 && (e.out == [] <==> pos == 0)
  {
    if pos > 0 then Edited(s, 0, [CursorLeft(pos)]) else Edited(s, 0, [])
  }

  /** `key_end`: to the end of the text, in one jump. */
  function KeyEnd(s: seq<CChar>, pos: nat, size: nat): (e: Edited)
    requires Fits(s, pos, size)
    ensures Fits(e.content, e.pos, size) && Displayed(s, pos, e) && e.content == s
    ensures e.pos == |s| && (e.out == [] <==> pos == |s|)
  {
    if pos < |s| then Edited(s, |s|, [CursorRight(|s| - pos)]) else Edited(s, |s|, [])
  }

  /**
   * The buffer side of `key_up` / `key_down` recalling a history entry:
   * the entry is copied in with `strlcpy(buf, hist, size)`, the cursor goes
   * home, the rest of the line is cleared and the entry written; the new
   * cursor is the entry's length.
   */
  function Recall(s: seq<CChar>, pos: nat, h: seq<CChar>, size: nat): (e: Edited)
    requires Fits(s, pos, size) && NoNul(h) && |h| < size
    ensures Fits(e.content, e.pos, size) && Displayed(s, pos, e)
    ensures e.content == h && e.pos == |h|
  {
    var home := KeyHome(s, pos, size);
    var e := Edited(h[..Min(|h|, size - 1)], |h|, home.out + [ClearToEnd, Text(h)]);
    PlayAppend(Screen(s, pos), home.out, [ClearToEnd, Text(h)]);
    assert Play(Screen([], 0), [Text(h)]) == Put(Screen([], 0), Text(h));
    e
  }

  /** The buffer side of `key_down` past the newest entry: a blank prompt. */
  function Blank(s: seq<CChar>, pos: nat, size: nat): (e: Edited)
    requires Fits(s, pos, size)
    ensures Fits(e.content, e.pos, size) && Displayed(s, pos, e)
    ensures e.content == [] && e.pos == 0
  {
    var home := KeyHome(s, pos, size);
    PlayAppend(Screen(s, pos), home.out, [ClearToEnd]);
    Edited([], 0, home.out + [ClearToEnd])
  }

  /** Backspace undoes an insertion: text and cursor come back. */
  lemma InsertThenBackspace(s: seq<CChar>, pos: nat, c: CChar, size: nat)
    requires Fits(s, pos, size) && |s| + 2 <= size && c != NUL
    ensures var e := Insert(s, pos, c, size);
      Backspace(e.content, e.pos, size).content == s && Backspace(e.content, e.pos, size).pos == pos
  {
    assert Removed(Inserted(s, pos, c), pos) == s;
  }

  /** Forward delete after a left move undoes an insertion as well. */
  lemma InsertThenLeftDelete(s: seq<CChar>, pos: nat, c: CChar, size: nat)
    requires Fits(s, pos, size) && |s| + 2 <= size && c != NUL
    ensures var e := Insert(s, pos, c, size);
      var l := KeyLeft(e.content, e.pos, size);
      DeleteAt(l.content, l.pos, size).content == s && DeleteAt(l.content, l.pos, size).pos == pos
  {
    assert Removed(Inserted(s, pos, c), pos) == s;
  }

  // ---- chr_insert and chr_delete as written ----

  /**
   * Where `chr_insert` as written puts the terminator (sline.c:282-285): the
   * `len - pos` bytes of the suffix go after the new byte at `pos + 1`, and
   * `strlcpy` ends them with a NUL.
   */
  function InsertTerminatorAsWritten(len: nat, pos: nat): (i: nat)
    requires pos <= len
    ensures i > len
  {
    pos + 1 + (len - pos)
  }

  /**
   * The only guard of `chr_insert` (sline.c:276) admits a full buffer
   * (`strlen(buf) == size - 1`), and the terminator then lands at
   * `buf[size]`, one byte past the end.
   */
  lemma InsertOverflowsFullBuffer(len: nat, pos: nat, size: nat)
    requires pos <= len && len + 1 == size
    ensures !(pos >= size)
    ensures InsertTerminatorAsWritten(len, pos) == size
  {
  }

  /**
   * `chr_insert` as written, on the text: whatever the byte, it is stored at
   * `pos` and the cursor moves to `pos + 1`; a NUL byte ends the string there.
   */
  function InsertAsWritten(s: seq<CChar>, pos: nat, c: CChar): (e: Edited)
    requires NoNul(s) && pos <= |s|
    ensures e.pos == pos + 1
    ensures c != NUL ==> e.content == Inserted(s, pos, c)
  {
    var b := Inserted(s, pos, c);
    Edited(CString(b), pos + 1, [Text([c]), Redraw(s[pos..])])
  }

  /**
   * A NUL keystroke (Ctrl-@ arrives as the byte 0 and decodes to VT_CHR)
   * cuts the text at the cursor while the cursor moves past the cut:
   * `pos > strlen(buf)` afterwards.
   */
  lemma NulKeystrokeBreaksInvariant(s: seq<CChar>, pos: nat)
    requires NoNul(s) && pos <= |s|
    ensures InsertAsWritten(s, pos, NUL).content == s[..pos]
    ensures InsertAsWritten(s, pos, NUL).pos > |InsertAsWritten(s, pos, NUL).content|
  {
    var b := Inserted(s, pos, NUL);
    assert b[..pos] == s[..pos];
    CStringAt(b, pos);
  }

  /**
   * The slice `buf_slice` allocates (sline.c:72-75): `strlen(buf) + 1`
   * zeroed bytes holding the text from `pivot` on.
   */
  function SliceAsWritten(s: seq<CChar>, pivot: nat): (slice: seq<CChar>)
    requires pivot <= |s|
    ensures |slice| == |s| + 1
  {
    s[pivot..] + seq(pivot + 1, _ => NUL)
  }

  /**
   * What `chr_delete` as written copies back (sline.c:310-312): the string
   * at `slice + 1`, or `None` when that byte lies outside the allocation.
   */
  function DeleteTailAsWritten(slice: seq<CChar>): (r: Option<seq<CChar>>)
    ensures r.Some? <==> |slice| >= 2
  {
    if |slice| < 2 then None else Some(CString(slice[1..]))
  }

  /** On an empty line, forward delete reads past the one-byte slice. */
  lemma ForwardDeleteOnEmptyReadsPastSlice()
    ensures DeleteTailAsWritten(SliceAsWritten([], 0)) == None
  {
  }

  /**
   * Everywhere else the source's copy-back is defined and agrees with
   * `DeleteAt`: the corrected delete changes nothing but the empty line.
   */
  lemma {:induction false} DeleteAsWrittenAgrees(s: seq<CChar>, pos: nat, size: nat)
    requires Fits(s, pos, size) && |s| > 0
    ensures DeleteTailAsWritten(SliceAsWritten(s, pos)) == Some(DeleteAt(s, pos, size).content[pos..])
  {
    var slice := SliceAsWritten(s, pos);
    var tail := slice[1..];
    if pos < |s| {
      assert tail[..|s| - pos - 1] == s[pos + 1..];
      CStringAt(tail, |s| - pos - 1);
    } else {
      CStringAt(tail, 0);
    }
  }

  // ---- The buffer in place ----

  /**
   * `buf_slice`: returns a copy of the text from `pivot` on and cuts the
   * buffer there by zeroing those bytes.
   */
  method BufSlice(src: array<CChar>, pivot: nat) returns (suff: seq<CChar>)
    requires pivot <= Strlen(src[..]) < src.Length
    modifies src
    ensures suff == old(CString(src[..]))[pivot..]
    ensures forall i :: 0 <= i < src.Length ==>
      src[i] == if pivot <= i < old(Strlen(src[..])) then NUL else old(src[i])
  {
    var len := Strlen(src[..]);
    suff := src[pivot..len];
    Memset(src, pivot, len - pivot);
  }

  /**
   * The body of `chr_insert` past its guard: slices the buffer at `pos`,
   * writes the byte there and copies the slice back after it; returns the
   * slice.
   */
  method OpenGap(buf: array<CChar>, pos: nat, chr: CChar) returns (suff: seq<CChar>)
    requires pos <= Strlen(buf[..]) && Strlen(buf[..]) + 2 <= buf.Length && chr != NUL
    modifies buf
    ensures var s := old(CString(buf[..]));
      suff == s[pos..] && Strlen(buf[..]) == |s| + 1 && CString(buf[..]) == Inserted(s, pos, chr)
  {
    ghost var s := CString(buf[..]);
    var len := Strlen(buf[..]);
    suff := BufSlice(buf, pos);
    buf[pos] := chr;
    Strlcpy(buf, pos + 1, suff, |suff| + 1);
    ghost var r := Inserted(s, pos, chr);
    forall i | 0 <= i < len + 1
      ensures buf[i] == r[i]
    {
      if i < pos {
        assert r[i] == r[..pos][i] == s[i];
      } else if i > pos {
        assert r[i] == r[pos + 1..][i - pos - 1] == suff[i - pos - 1];
      }
    }
    assert buf[..][..len + 1] == r;
    CStringAt(buf[..], len + 1);
  }

  /** `chr_insert` on the buffer. */
  method ChrInsert(buf: array<CChar>, pos: nat, chr: CChar) returns (newPos: nat, out: seq<Out>)
    requires Valid(buf, pos)
    modifies buf
    ensures Valid(buf, newPos)
    ensures Edited(CString(buf[..]), newPos, out) == Insert(old(CString(buf[..])), pos, chr, buf.Length)
  {
    var len := Strlen(buf[..]);
    if pos >= buf.Length || len + 2 > buf.Length || chr == NUL {
      return pos, [];
    }
    var suff := OpenGap(buf, pos, chr);
    newPos := pos + 1;
    out := [Text([chr]), Redraw(suff)];
  }

  /**
   * The body shared by both modes of `chr_delete`: slices the buffer at
   * `p`, drops the slice's first byte, if any, and copies the rest back;
   * returns what was copied back.
   */
  method CloseGap(buf: array<CChar>, p: nat) returns (tail: seq<CChar>)
    requires p <= Strlen(buf[..]) < buf.Length
    modifies buf
    ensures var s := old(CString(buf[..]));
      tail == (if p < |s| then s[p + 1..] else [])
      && Strlen(buf[..]) == (if p < |s| then |s| - 1 else |s|)
      && CString(buf[..]) == (if p < |s| then Removed(s, p) else s)
  {
    ghost var s := CString(buf[..]);
    var len := Strlen(buf[..]);
    var suff := BufSlice(buf, p);
    tail := if |suff| == 0 then suff else suff[1..];
    Strlcpy(buf, p, tail, |tail| + 1);
    if p < len {
      assert buf[..][..len - 1] == Removed(s, p);
      CStringAt(buf[..], len - 1);
    } else {
      assert buf[..][..len] == s;
      CStringAt(buf[..], len);
    }
  }

  /**
   * `chr_delete` on the buffer (`backspace` selects the mode). At the end of
   * the text the slice is empty and nothing is removed; the source reads one
   * byte past that empty slice there (see `DeleteTailAsWritten`).
   */
  method ChrDelete(buf: array<CChar>, pos: nat, backspace: bool) returns (newPos: nat, out: seq<Out>)
    requires Valid(buf, pos)
    modifies buf
    ensures Valid(buf, newPos)
    ensures var s := old(CString(buf[..]));
      Edited(CString(buf[..]), newPos, out)
        == if backspace then Backspace(s, pos, buf.Length) else DeleteAt(s, pos, buf.Length)
  {
    var p := pos;
    if backspace {
      if pos == 0 {
        return pos, [];
      }
      p := pos - 1;
    }
    var tail := CloseGap(buf, p);
    out := (if backspace then [Back] else []) + [Redraw(tail)];
    newPos := p;
  }

  /** `strlcpy(buf, hist, size)` for a recalled entry. */
  method RecallInto(buf: array<CChar>, pos: nat, h: seq<CChar>) returns (newPos: nat, out: seq<Out>)
    requires Valid(buf, pos) && NoNul(h) && |h| < buf.Length
    modifies buf
    ensures Valid(buf, newPos)
    ensures Edited(CString(buf[..]), newPos, out) == Recall(old(CString(buf[..])), pos, h, buf.Length)
  {
    ghost var s := CString(buf[..]);
    Strlcpy(buf, 0, h, buf.Length);
    newPos := |h|;
    out := (if pos > 0 then [CursorLeft(pos)] else []) + [ClearToEnd, Text(h)];
    assert buf[..][..|h|] == h;
    CStringAt(buf[..], |h|);
  }

  /** `memset(buf, 0, size)` and a return to column 0, for a blank prompt. */
  method BlankInto(buf: array<CChar>, pos: nat) returns (newPos: nat, out: seq<Out>)
    requires Valid(buf, pos)
    modifies buf
    ensures Valid(buf, newPos)
    ensures forall i :: 0 <= i < buf.Length ==> buf[i] == NUL
    ensures Edited(CString(buf[..]), newPos, out) == Blank(old(CString(buf[..])), pos, buf.Length)
  {
    ghost var s := CString(buf[..]);
    Memset(buf, 0, buf.Length);
    newPos := 0;
    out := (if pos > 0 then [CursorLeft(pos)] else []) + [ClearToEnd];
    CStringAt(buf[..], 0);
  }
}
