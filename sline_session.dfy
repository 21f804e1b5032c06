/**
 * The line session of sline.c (`sline`, `key_up`, `key_down`,
 * `sline_errmsg`): the loop that reads keys, edits the buffer, browses the
 * history with the navigation pointer `hist_num`, and ends on return (the
 * line is stored in the history) or end of input.
 *
 * `Step` and `Run` are the session as functions of the text, the cursor and
 * `hist_num`; `KeyUp`, `KeyDown`, `Dispatch` and `ReadLine` are the same
 * session on the real buffer, proved to follow them.
 */
module Sline {
  import opened Wrappers
  import opened CStr
  import opened Terminal
  import opened SlineKeys
  import opened SlineBuffer
  import opened SlineHistory

  /** The values of `sline_errno`. */
  datatype Err = ErrDef | ErrEof | ErrIo | ErrMemory | ErrTermiosGet | ErrTermiosSet

  /** `sline_errmsg`: the message for the last error; SLINE_ERR_DEF has none of its own. */
  function ErrMsg(e: Err): (m: string)
    ensures m == "unknown error." <==> e == ErrDef
    ensures e == ErrEof ==> m == "EOF caught."
    ensures e == ErrIo ==> m == "I/O error."
  {
    match e
    case ErrEof => "EOF caught."
    case ErrIo => "I/O error."
    case ErrMemory => "could not allocate internal memory."
    case ErrTermiosGet => "could not read attributes."
    case ErrTermiosSet => "could not set attributes."
    case ErrDef => "unknown error."
  }

  /** What the loop carries from key to key: the buffer's text, `pos` and `hist_num`. */
  datatype State = State(content: seq<CChar>, pos: nat, histNum: int)

  datatype Stepped = Stepped(st: State, out: seq<Out>)

  /** Every history entry is a C string that fits the buffer (entries are lines of the same size). */
  ghost predicate EntriesFit(entries: seq<seq<CChar>>, size: nat)
  {
    forall i :: 0 <= i < |entries| ==> NoNul(entries[i]) && |entries[i]| < size
  }

  /** The loop invariant: the buffer invariant, and `-1 <= hist_num <= hist_last + 1`. */
  ghost predicate Inv(st: State, entries: seq<seq<CChar>>, size: nat)
  {
    Fits(st.content, st.pos, size) && -1 <= st.histNum <= |entries|
  }

  /** The terminal shows the state's text with the cursor at its `pos`. */
  ghost predicate Shows(sc: Screen, st: State)
  {
    sc == Screen(st.content, st.pos)
  }

  /**
   * `key_up`: `hist_num` moves one entry older, stopping at 0; if there is
   * an entry there it replaces the text and the cursor goes to its end,
   * otherwise text and cursor stay.
   */
  function Older(st: State, entries: seq<seq<CChar>>, size: nat): (r: Stepped)
    requires Inv(st, entries, size) && EntriesFit(entries, size)
    ensures Inv(r.st, entries, size) && Shows(Play(Screen(st.content, st.pos), r.out), r.st)
    ensures r.st.histNum == if st.histNum > 0 then st.histNum - 1 else st.histNum
    ensures 0 <= r.st.histNum < |entries| ==>
      r.st.content == entries[r.st.histNum] && r.st.pos == |entries[r.st.histNum]|
    ensures !(0 <= r.st.histNum < |entries|) ==> r == Stepped(State(st.content, st.pos, r.st.histNum), [])
  {
    var h := if st.histNum > 0 then st.histNum - 1 else st.histNum;
    if 0 <= h < |entries| then
      var e := Recall(st.content, st.pos, entries[h], size);
      Stepped(State(e.content, e.pos, h), e.out)
    else Stepped(State(st.content, st.pos, h), [])
  }

  /**
   * `key_down`: `hist_num` moves one entry newer; past the newest entry the
   * line is blanked and `hist_num` stays at `hist_last + 1`.
   */
  function Newer(st: State, entries: seq<seq<CChar>>, size: nat): (r: Stepped)
    requires Inv(st, entries, size) && EntriesFit(entries, size)
    ensures Inv(r.st, entries, size) && Shows(Play(Screen(st.content, st.pos), r.out), r.st)
    ensures st.histNum + 1 >= |entries| ==> r.st == State([], 0, |entries|)
    ensures 0 <= st.histNum + 1 < |entries| ==>
      r.st == State(entries[st.histNum + 1], |entries[st.histNum + 1]|, st.histNum + 1)
  {
    var h := st.histNum + 1;
    if h > |entries| - 1 then
      var e := Blank(st.content, st.pos, size);
      Stepped(State(e.content, e.pos, |entries|), e.out)
    else if h < 0 then Stepped(State(st.content, st.pos, h), [])
    else
      var e := Recall(st.content, st.pos, entries[h], size);
      Stepped(State(e.content, e.pos, h), e.out)
  }

  function Edit(e: Edited, histNum: int): Stepped
  {
    Stepped(State(e.content, e.pos, histNum), e.out)
  }

  /**
   * One pass of the `sline` loop for a key other than return and end of
   * input. Inserting and deleting set `hist_num` to `hist_last`;
   * unrecognised keys change nothing.
   */
  function Step(st: State, k: Key, entries: seq<seq<CChar>>, size: nat): (r: Stepped)
    requires Inv(st, entries, size) && EntriesFit(entries, size)
    ensures Inv(r.st, entries, size)
    ensures Shows(Play(Screen(st.content, st.pos), r.out), r.st)
    ensures k == Def ==> r == Stepped(st, [])
    ensures k in {Bkspc, Dlt} || k.Chr? ==> r.st.histNum == |entries| - 1
    ensures k in {Lft, Rght, Home, End} ==> r.st.content == st.content && r.st.histNum == st.histNum
  {
    var (s, p, n) := (st.content, st.pos, st.histNum);
    match k
    case Bkspc => Edit(Backspace(s, p, size), |entries| - 1)
    case Dlt => Edit(DeleteAt(s, p, size), |entries| - 1)
    case Chr(c) => Edit(Insert(s, p, c, size), |entries| - 1)
    case Up => Older(st, entries, size)
    case Dwn => Newer(st, entries, size)
    case Lft => Edit(KeyLeft(s, p, size), n)
    case Rght => Edit(KeyRight(s, p, size), n)
    case Home => Edit(KeyHome(s, p, size), n)
    case End => Edit(KeyEnd(s, p, size), n)
    case _ => Stepped(st, [])
  }

  /** How a session ends; `Waiting` means the reads ran out and the source would go on waiting. */
  datatype Ending = Submitted | EndOfInput | IoFailed | Waiting

  datatype Session = Session(ending: Ending, st: State, out: seq<Out>)

  /**
   * The whole `sline` loop on the reads `input` from state `st`: how it
   * ends, the state it ends in and what it writes. A line that ends with
   * return or end of input is left behind by a final newline.
   */
  function Run(input: seq<Read>, st: State, entries: seq<seq<CChar>>, size: nat): (r: Session)
    requires Inv(st, entries, size) && EntriesFit(entries, size)
    ensures Inv(r.st, entries, size)
    ensures r.ending in {Submitted, EndOfInput} ==> |r.out| > 0 && r.out[|r.out| - 1] == Newline
    decreases |input|
  {
    match TermKey(input)
    case Blocked => Session(Waiting, st, [])
    case IoError => Session(IoFailed, st, [])
    case Decoded(k, rest) =>
      if k == Eof then Session(EndOfInput, st, [Newline])
      else if k == Ret then Session(Submitted, st, [Newline])
      else
        var s := Step(st, k, entries, size);
        var r := Run(rest, s.st, entries, size);
        Session(r.ending, r.st, s.out + r.out)
  }

  /** A session whose output is preceded by `before`. */
  function Preceded(before: seq<Out>, r: Session): Session
  {
    Session(r.ending, r.st, before + r.out)
  }

  /** The session's output before its final newline, if it has one. */
  function Shown(r: Session): seq<Out>
  {
    if r.ending in {Submitted, EndOfInput} && |r.out| > 0 then r.out[..|r.out| - 1] else r.out
  }

  /**
   * The terminal follows the session: its output, up to the final newline
   * when there is one, leaves the line showing the final text with the
   * cursor at the final position.
   */
  lemma {:induction false} RunShows(input: seq<Read>, st: State, entries: seq<seq<CChar>>, size: nat)
    requires Inv(st, entries, size) && EntriesFit(entries, size)
    ensures var r := Run(input, st, entries, size);
      Shows(Play(Screen(st.content, st.pos), Shown(r)), r.st)
    decreases |input|
  {
    match TermKey(input)
    case Blocked =>
    case IoError =>
    case Decoded(k, rest) =>
      if k != Eof && k != Ret {
        var s := Step(st, k, entries, size);
        var r := Run(rest, s.st, entries, size);
        RunStep(input, st, k, rest, entries, size);
        RunShows(rest, s.st, entries, size);
        ShownSplit(s.out, r);
        PlayAppend(Screen(st.content, st.pos), s.out, Shown(r));
      }
  }

  /** Output in front of a session stays in front of what it shows. */
  lemma ShownSplit(a: seq<Out>, r: Session)
    requires r.ending in {Submitted, EndOfInput} ==> |r.out| > 0
    ensures Shown(Session(r.ending, r.st, a + r.out)) == a + Shown(r)
  {
    if r.ending in {Submitted, EndOfInput} {
      assert (a + r.out)[..|a + r.out| - 1] == a + r.out[..|r.out| - 1];
    }
  }

  /** The turns that end the loop: no key, a failed read, end of input or return. */
  lemma RunEnds(input: seq<Read>, st: State, entries: seq<seq<CChar>>, size: nat)
    requires Inv(st, entries, size) && EntriesFit(entries, size)
    ensures TermKey(input) == Blocked ==> Run(input, st, entries, size) == Session(Waiting, st, [])
    ensures TermKey(input) == IoError ==> Run(input, st, entries, size) == Session(IoFailed, st, [])
    ensures TermKey(input).Decoded? && TermKey(input).key == Eof ==>
      Run(input, st, entries, size) == Session(EndOfInput, st, [Newline])
    ensures TermKey(input).Decoded? && TermKey(input).key == Ret ==>
      Run(input, st, entries, size) == Session(Submitted, st, [Newline])
  {
  }

  /** One turn of the loop: a key other than return and end of input is a `Step`, then the rest of the session. */
  lemma RunStep(input: seq<Read>, st: State, k: Key, rest: seq<Read>, entries: seq<seq<CChar>>, size: nat)
    requires Inv(st, entries, size) && EntriesFit(entries, size)
    requires TermKey(input) == Decoded(k, rest) && k != Eof && k != Ret
    ensures var s := Step(st, k, entries, size);
      Run(input, st, entries, size) == Preceded(s.out, Run(rest, s.st, entries, size))
  {
  }

  // ---- The session on the real buffer ----

  /** `key_up` on the buffer: returns the new `pos`, writes `*hist_num`. */
  method KeyUp(h: History, buf: array<CChar>, histNum: int, pos: nat) returns (newHist: int, newPos: nat, out: seq<Out>)
    requires h.Valid() && Valid(buf, pos) && EntriesFit(h.Entries(), buf.Length)
    requires Inv(State(CString(buf[..]), pos, histNum), h.Entries(), buf.Length)
    modifies buf
    ensures Valid(buf, newPos)
    ensures Older(State(old(CString(buf[..])), pos, histNum), h.Entries(), buf.Length)
      == Stepped(State(CString(buf[..]), newPos, newHist), out)
  {
    newHist := histNum;
    if newHist > 0 {
      newHist := newHist - 1;
    }
    var hist := h.Get(newHist);
    if hist.None? {
      return newHist, pos, [];
    }
    newPos, out := RecallInto(buf, pos, hist.value);
  }

  /** `key_down` on the buffer. */
  method KeyDown(h: History, buf: array<CChar>, histNum: int, pos: nat) returns (newHist: int, newPos: nat, out: seq<Out>)
    requires h.Valid() && Valid(buf, pos) && EntriesFit(h.Entries(), buf.Length)
    requires Inv(State(CString(buf[..]), pos, histNum), h.Entries(), buf.Length)
    modifies buf
    ensures Valid(buf, newPos)
    ensures Newer(State(old(CString(buf[..])), pos, histNum), h.Entries(), buf.Length)
      == Stepped(State(CString(buf[..]), newPos, newHist), out)
  {
    newHist := histNum + 1;
    if newHist > h.last {
      newPos, out := BlankInto(buf, pos);
      newHist := h.last + 1;
      return;
    }
    var hist := h.Get(newHist);
    if hist.None? {
      return newHist, pos, [];
    }
    newPos, out := RecallInto(buf, pos, hist.value);
  }

  /** The `switch` of `sline` (sline.c:441-482) for a key other than return and end of input. */
  method Dispatch(h: History, buf: array<CChar>, k: Key, pos: nat, histNum: int)
    returns (newPos: nat, newHist: int, out: seq<Out>)
    requires h.Valid() && Valid(buf, pos) && EntriesFit(h.Entries(), buf.Length)
    requires Inv(State(CString(buf[..]), pos, histNum), h.Entries(), buf.Length)
    modifies buf
    ensures Valid(buf, newPos)
    ensures Step(State(old(CString(buf[..])), pos, histNum), k, h.Entries(), buf.Length)
      == Stepped(State(CString(buf[..]), newPos, newHist), out)
  {
    ghost var s := CString(buf[..]);
    newHist := histNum;
    out := [];
    match k
    case Bkspc =>
      newPos, out := ChrDelete(buf, pos, true);
      newHist := h.last;
    case Dlt =>
      newPos, out := ChrDelete(buf, pos, false);
      newHist := h.last;
    case Chr(c) =>
      newPos, out := ChrInsert(buf, pos, c);
      newHist := h.last;
    case Up =>
      newHist, newPos, out := KeyUp(h, buf, histNum, pos);
    case Dwn =>
      newHist, newPos, out := KeyDown(h, buf, histNum, pos);
    case Lft =>
      var e := KeyLeft(CString(buf[..]), pos, buf.Length);
      newPos, out := e.pos, e.out;
    case Rght =>
      var e := KeyRight(CString(buf[..]), pos, buf.Length);
      newPos, out := e.pos, e.out;
    case Home =>
      var e := KeyHome(CString(buf[..]), pos, buf.Length);
      newPos, out := e.pos, e.out;
    case End =>
      var e := KeyEnd(CString(buf[..]), pos, buf.Length);
      newPos, out := e.pos, e.out;
    case _ =>
      newPos := pos;
  }

  /**
   * One turn of the loop on the buffer, for a key read from `input` that
   * does not end it; `before` is the output of the earlier turns.
   */
  method Advance(h: History, buf: array<CChar>, input: seq<Read>, k: Key, rest: seq<Read>, pos: nat, histNum: int, ghost before: seq<Out>)
    returns (newPos: nat, newHist: int, out: seq<Out>)
    requires h.Valid() && Valid(buf, pos) && EntriesFit(h.Entries(), buf.Length)
    requires Inv(State(CString(buf[..]), pos, histNum), h.Entries(), buf.Length)
    requires TermKey(input) == Decoded(k, rest) && k != Eof && k != Ret
    modifies buf
    ensures Valid(buf, newPos) && Inv(State(CString(buf[..]), newPos, newHist), h.Entries(), buf.Length)
    ensures Preceded(before, Run(input, State(old(CString(buf[..])), pos, histNum), h.Entries(), buf.Length))
      == Preceded(before + out, Run(rest, State(CString(buf[..]), newPos, newHist), h.Entries(), buf.Length))
  {
    ghost var cur := State(CString(buf[..]), pos, histNum);
    newPos, newHist, out := Dispatch(h, buf, k, pos, histNum);
    RunStep(input, cur, k, rest, h.Entries(), buf.Length);
    PrecededTwice(before, out, Run(rest, State(CString(buf[..]), newPos, newHist), h.Entries(), buf.Length));
  }

  lemma PrecededTwice(a: seq<Out>, b: seq<Out>, r: Session)
    ensures Preceded(a, Preceded(b, r)) == Preceded(a + b, r)
  {
    assert a + (b + r.out) == (a + b) + r.out;
  }

  /**
   * One pass of the loop of `sline`: reads a key from `input` and either
   * ends the loop (`done`, with the ending and the final output) or
   * edits the buffer and goes on with the reads left in `rest`. `before`
   * is the output of the earlier passes.
   */
  method Turn(h: History, buf: array<CChar>, input: seq<Read>, pos: nat, histNum: int, ghost before: seq<Out>)
    returns (done: bool, ending: Ending, rest: seq<Read>, newPos: nat, newHist: int, out: seq<Out>)
    requires h.Valid() && Valid(buf, pos) && EntriesFit(h.Entries(), buf.Length)
    requires Inv(State(CString(buf[..]), pos, histNum), h.Entries(), buf.Length)
    modifies buf
    ensures Valid(buf, newPos) && Inv(State(CString(buf[..]), newPos, newHist), h.Entries(), buf.Length)
    ensures var now := State(CString(buf[..]), newPos, newHist);
      Preceded(before, Run(input, State(old(CString(buf[..])), pos, histNum), h.Entries(), buf.Length))
        == if done then Session(ending, now, before + out)
           else Preceded(before + out, Run(rest, now, h.Entries(), buf.Length))
    ensures !done ==> |rest| < |input|
  {
    var d := ReadKey(input);
    RunEnds(input, State(CString(buf[..]), pos, histNum), h.Entries(), buf.Length);
    newPos, newHist, rest := pos, histNum, input;
    if d.Blocked? || d.IoError? {
      assert before + [] == before;
      return true, if d.Blocked? then Waiting else IoFailed, rest, newPos, newHist, [];
    }
    var k := d.key;
    if k == Eof || k == Ret {
      return true, if k == Eof then EndOfInput else Submitted, rest, newPos, newHist, [Newline];
    }
    done, ending, rest := false, Waiting, d.rest;
    newPos, newHist, out := Advance(h, buf, input, k, d.rest, pos, histNum, before);
  }

  /**
   * The loop of `sline` (sline.c:436-484) from the buffer, cursor and
   * `hist_num` it has reached: edits until return, end of input, a read
   * error or the end of the reads.
   */
  method EditFrom(h: History, buf: array<CChar>, input: seq<Read>, pos0: nat, hist0: int) returns (ending: Ending, out: seq<Out>)
    requires h.Valid() && Valid(buf, pos0) && EntriesFit(h.Entries(), buf.Length)
    requires Inv(State(CString(buf[..]), pos0, hist0), h.Entries(), buf.Length)
    modifies buf
    ensures var r := Run(input, State(old(CString(buf[..])), pos0, hist0), h.Entries(), buf.Length);
      ending == r.ending && out == r.out && CString(buf[..]) == r.st.content
  {
    ghost var entries := h.Entries();
    ghost var total := Run(input, State(CString(buf[..]), pos0, hist0), entries, buf.Length);
    var pos, histNum, rest := pos0, hist0, input;
    out := [];
    assert Preceded(out, total) == total;
    while true
      invariant Valid(buf, pos) && Inv(State(CString(buf[..]), pos, histNum), entries, buf.Length)
      invariant total == Preceded(out, Run(rest, State(CString(buf[..]), pos, histNum), entries, buf.Length))
      decreases |rest|
    {
      var done, e, next, o;
      done, e, next, pos, histNum, o := Turn(h, buf, rest, pos, histNum, out);
      out := out + o;
      if done {
        return e, out;
      }
      rest := next;
    }
  }

  /**
   * `sline`'s start of the loop: clears the buffer, starts `hist_num` one
   * past the newest entry, then edits.
   */
  method EditLine(h: History, buf: array<CChar>, input: seq<Read>) returns (ending: Ending, out: seq<Out>)
    requires h.Valid() && buf.Length > 0 && EntriesFit(h.Entries(), buf.Length)
    modifies buf
    ensures var r := Run(input, State([], 0, |h.Entries()|), h.Entries(), buf.Length);
      ending == r.ending && out == r.out && CString(buf[..]) == r.st.content
  {
    Memset(buf, 0, buf.Length);
    assert buf[..][0] == NUL && NoNul(buf[..][..0]);
    CStringAt(buf[..], 0);
    ending, out := EditFrom(h, buf, input, 0, h.last + 1);
  }

  /**
   * `sline(buf, size)`: edits a line; on return the line is added to the
   * history and `history_add`'s result is returned (`alloc` says whether
   * its copy can be allocated); end of input returns -1 with
   * SLINE_ERR_EOF, a read error -1 with SLINE_ERR_IO. `setErr` is what the
   * call stores in `sline_errno`, if anything.
   */
  method ReadLine(h: History, buf: array<CChar>, input: seq<Read>, alloc: bool)
    returns (status: int, setErr: Option<Err>, ending: Ending, out: seq<Out>)
    requires h.Valid() && buf.Length > 0 && EntriesFit(h.Entries(), buf.Length)
    modifies buf, h, h.slots
    ensures h.Valid() && h.slots == old(h.slots) && EntriesFit(h.Entries(), buf.Length)
    ensures var r := Run(input, State([], 0, |old(h.Entries())|), old(h.Entries()), buf.Length);
      ending == r.ending && out == r.out && CString(buf[..]) == r.st.content
    ensures ending == Submitted ==>
      (setErr == None && status == (if CString(buf[..]) != [] && !alloc then -1 else 0))
    ensures ending == Submitted && alloc ==>
      h.Entries() == Appended(old(h.Entries()), CString(buf[..]), HISTORY_SIZE)
    ensures ending == Submitted && !alloc ==>
      h.Entries() == if CString(buf[..]) == [] || |old(h.Entries())| < HISTORY_SIZE then old(h.Entries()) else old(h.Entries())[1..]
    ensures ending == EndOfInput ==> status == -1 && setErr == Some(ErrEof)
    ensures ending == IoFailed ==> status == -1 && setErr == Some(ErrIo)
    ensures ending != Submitted ==> h.Entries() == old(h.Entries())
  {
    ending, out := EditLine(h, buf, input);
    match ending
    case Waiting => return -1, None, ending, out;
    case IoFailed => return -1, Some(ErrIo), ending, out;
    case EndOfInput => return -1, Some(ErrEof), ending, out;
    case Submitted =>
      var line := CString(buf[..]);
      status := h.Add(line, alloc);
      setErr := None;
  }
}
