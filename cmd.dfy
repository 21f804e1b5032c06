/**
 * The command table of cmd.c: `cmd_defs`, a constant array of `:`-commands
 * closed by a terminator entry whose `func` is NULL; `cmd` looks a name up
 * in it, `cmd_valid` tells the terminator from a command, and `cmd_dmp`
 * writes the session's history to a file, minus blank lines and commands.
 */
module Cmd {
  import opened Wrappers
  import opened CStr
  import opened SlineHistory

  /** The global `err` codes of utils.h. */
  datatype ErrCode =
    | NoErr | CmdErrFewArgs | CmdErrFileIo | CmdErrInvalid | CmdErrWhatisNotFound
    | MemErrNotFound | MemErrRegArg | OpErrInvalid | StackErrMax | StackErrMin

  /** The command functions the table points to; the terminator has none. */
  datatype CmdFunc = CmdD | CmdDmp | CmdDup | CmdMclr | CmdList | CmdP | CmdSav | CmdSwp | CmdVer | CmdWhatis

  datatype CmdReg = CmdReg(id: seq<CChar>, func: Option<CmdFunc>, desc: string)

  /** `strncmp` bound used by the lookup. */
  const CMD_ID_SIZE: nat := 32

  /** The number of commands; `cmd_defs[CMD_COUNT]` is the terminator. */
  const CMD_COUNT: nat := 10

  const CmdDefs: seq<CmdReg> := [
    CmdReg(":d", Some(CmdD), "Drop the stack."),
    CmdReg(":dmp", Some(CmdDmp), "Dump session to file."),
    CmdReg(":dup", Some(CmdDup), "Duplicate last element in stack."),
    CmdReg(":mclr", Some(CmdMclr), "Clear all memory registers."),
    CmdReg(":list", Some(CmdList), "List all available operations."),
    CmdReg(":p", Some(CmdP), "Print stack."),
    CmdReg(":sav", Some(CmdSav), "Save value to register."),
    CmdReg(":swp", Some(CmdSwp), "Swap the two last elements in stack."),
    CmdReg(":ver", Some(CmdVer), "Shows scalc version information."),
    CmdReg(":whatis", Some(CmdWhatis), "Show info on command or operation."),
    CmdReg("", None, "")
  ]

  /** The table is well formed: commands first, each with a short id, then exactly one terminator. */
  lemma TableShape()
    ensures |CmdDefs| == CMD_COUNT + 1
    ensures forall i :: 0 <= i <= CMD_COUNT ==> (CmdDefs[i].func.None? <==> i == CMD_COUNT)
    ensures forall i :: 0 <= i < CMD_COUNT ==> 0 < |CmdDefs[i].id| < CMD_ID_SIZE && NoNul(CmdDefs[i].id)
  {
  }

  /** The ids of the commands, in table order. */
  function Ids(): (ids: seq<seq<CChar>>)
    ensures |ids| == CMD_COUNT && forall i :: 0 <= i < CMD_COUNT ==> ids[i] == CmdDefs[i].id
  {
    seq(CMD_COUNT, i requires 0 <= i < CMD_COUNT => CmdDefs[i].id)
  }

  /**
   * Where the lookup stops when it starts at entry `i`: the first entry
   * from `i` on whose id agrees with `name` in its first `CMD_ID_SIZE`
   * bytes, or the terminator, which is never compared.
   */
  function Find(name: seq<CChar>, i: nat): (r: nat)
    requires i <= CMD_COUNT
    ensures i <= r <= CMD_COUNT
    ensures r < CMD_COUNT ==> StrnEqual(CmdDefs[r].id, name, CMD_ID_SIZE)
    ensures forall j :: i <= j < r ==> !StrnEqual(CmdDefs[j].id, name, CMD_ID_SIZE)
    decreases CMD_COUNT - i
  {
    if CmdDefs[i].func.None? then i
    else if StrnEqual(CmdDefs[i].id, name, CMD_ID_SIZE) then i
    else Find(name, i + 1)
  }

  /**
   * `cmd`: the pointer loop over the table. It returns the index of the
   * entry found, and `setErr` says whether `err` was set to
   * CMD_ERR_INVALID, which happens exactly when the terminator is returned.
   */
  method Lookup(name: seq<CChar>) returns (p: nat, setErr: bool)
    ensures p <= CMD_COUNT && p == Find(name, 0)
    ensures setErr <==> CmdDefs[p].func.None?
  {
    p := 0;
    while CmdDefs[p].func.Some?
      invariant p <= CMD_COUNT && Find(name, p) == Find(name, 0)
      decreases CMD_COUNT - p
    {
      if StrnEqual(CmdDefs[p].id, name, CMD_ID_SIZE) {
        return p, false;
      }
      p := p + 1;
    }
    setErr := true;
  }

  /** `cmd_valid`: -1 for the terminator, 0 for a command. */
  function CmdValid(p: CmdReg): (r: int)
    ensures r in {-1, 0}
  {
    if p.func.None? then -1 else 0
  }

  /** A name is valid for `cmd_valid(cmd(name))` exactly when it is one of the ids in the table. */
  lemma ValidIffNamed(name: seq<CChar>)
    ensures CmdValid(CmdDefs[Find(name, 0)]) == 0 <==> name in Ids()
  {
    TableShape();
    var r := Find(name, 0);
    if r < CMD_COUNT {
      StrnEqualShort(CmdDefs[r].id, name, CMD_ID_SIZE);
      assert Ids()[r] == name;
    } else {
      forall i | 0 <= i < CMD_COUNT
        ensures Ids()[i] != name
      {
        StrnEqualShort(CmdDefs[i].id, name, CMD_ID_SIZE);
      }
    }
  }

  /** Every command is found by its own id: the ids are distinct and none is a prefix match of another. */
  lemma EveryCommandFound(i: nat)
    requires i < CMD_COUNT
    ensures Find(CmdDefs[i].id, 0) == i
  {
    TableShape();
    var r := Find(CmdDefs[i].id, 0);
    StrnEqualShort(CmdDefs[i].id, CmdDefs[i].id, CMD_ID_SIZE);
    StrnEqualShort(CmdDefs[r].id, CmdDefs[i].id, CMD_ID_SIZE);
  }

  /** The empty name reaches the terminator, whose own id is empty: it is never compared. */
  lemma EmptyNameInvalid()
    ensures Find([], 0) == CMD_COUNT && CmdDefs[CMD_COUNT].id == []
  {
    ValidIffNamed([]);
  }

  // ---- cmd_dmp ----

  /** The lines `cmd_dmp` keeps: not blank and not a command. */
  predicate Kept(line: seq<CChar>): (k: bool)
    ensures k ==> forall i :: 0 <= i < CMD_COUNT ==> line != CmdDefs[i].id
  {
    line != [] && line[0] != ':'
  }

  /** The history lines written to the dump file, in order. */
  function Dumped(lines: seq<seq<CChar>>): (r: seq<seq<CChar>>)
    ensures |r| <= |lines|
  {
    if lines == [] then []
    else if Kept(lines[0]) then [lines[0]] + Dumped(lines[1..])
    else Dumped(lines[1..])
  }

  lemma {:induction false} DumpedAppend(a: seq<seq<CChar>>, b: seq<seq<CChar>>)
    ensures Dumped(a + b) == Dumped(a) + Dumped(b)
  {
    if a == [] {
      assert a + b == b;
    } else {
      assert (a + b)[0] == a[0] && (a + b)[1..] == a[1..] + b;
      DumpedAppend(a[1..], b);
    }
  }

  /** A line is written exactly when it is in the history and is kept. */
  lemma {:induction false} DumpedMembers(lines: seq<seq<CChar>>, x: seq<CChar>)
    ensures x in Dumped(lines) <==> x in lines && Kept(x)
  {
    if lines != [] {
      DumpedMembers(lines[1..], x);
      assert lines == [lines[0]] + lines[1..];
    }
  }

  /**
   * `cmd_dmp`, without the file itself: NULL or empty `args` fail with
   * CMD_ERR_FEW_ARGS; a file that cannot be opened (`canOpen` false) with
   * CMD_ERR_FILE_IO; otherwise the history entries from index 0 up to the
   * first missing one are read, and `written` holds the lines printed.
   */
  method Dump(h: History, args: Option<seq<CChar>>, canOpen: bool) returns (status: int, err: Option<ErrCode>, written: seq<seq<CChar>>)
    requires h.Valid()
    ensures args.None? || args.value == [] ==> status == -1 && err == Some(CmdErrFewArgs) && written == []
    ensures args.Some? && args.value != [] && !canOpen ==> status == -1 && err == Some(CmdErrFileIo) && written == []
    ensures args.Some? && args.value != [] && canOpen ==> status == 0 && err == None && written == Dumped(h.Entries())
  {
    if args.None? || |args.value| == 0 {
      return -1, Some(CmdErrFewArgs), [];
    }
    if !canOpen {
      return -1, Some(CmdErrFileIo), [];
    }
    ghost var entries := h.Entries();
    written := [];
    var i := 0;
    var line := h.Get(i);
    while line.Some?
      invariant 0 <= i <= |entries|
      invariant line.Some? <==> i < |entries|
      invariant line.Some? ==> line.value == entries[i]
      invariant written == Dumped(entries[..i])
      decreases |entries| - i
    {
      var s := line.value;
      assert entries[..i + 1] == entries[..i] + [s];
      DumpedAppend(entries[..i], [s]);
      var one: seq<seq<CChar>> := [s];
      assert Dumped(one) == (if Kept(s) then one else []) by {
        assert one[1..] == [];
      }
      // blank lines and commands are skipped
      if |s| != 0 && s[0] != ':' {
        written := written + [s];
      }
      i := i + 1;
      line := h.Get(i);
    }
    assert entries[..i] == entries;
    status, err := 0, None;
  }
}
