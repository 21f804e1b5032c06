# scalc line editor and calculator core, in Dafny

This project models the interactive line editor (`sline`) of the scalc RPN
desk calculator, along with the calculator pieces that sit directly on it. It
proves the properties those pieces promise.

- **Key decoder** (`SlineKeys`): `term_key` and `term_esc` turn the bytes
  read from the terminal into keys. Timeouts are skipped and a read error
  fails. A byte is a plain character, backspace, end of input or return.
  `ESC [ x` and `ESC [ d ~` are cursor keys, and anything else after ESC is
  the unrecognised key. Input is a sequence of reads (`Byte`, `Timeout`,
  `Failure`). The decoder is proved to invert what a terminal sends for
  each key.
- **Line buffer editor** (`SlineBuffer`, `Terminal`):
  - `chr_insert`, `chr_delete` (backspace and forward delete), `buf_slice`,
    the four cursor keys and history recall.
  - It works in place on the `char` buffer (an `array<CChar>`).
  - Each method is proved to follow a pure function of the text and the
    cursor. The output written to the terminal is proved to leave the
    line showing the text with the cursor in place, on a screen model with
    one cell per byte on a single unbounded line (see `Terminal.Put` under
    "Left out").
- **History** (`SlineHistory`): the `history[]` / `hist_last` store with
  `history_add`, `history_rotate` and `history_get`. It holds at most 50
  lines, keeps the newest non-blank ones, and evicts the oldest.
- **Session** (`Sline`): the loop of `sline`, with the navigation pointer
  `hist_num`, `key_up`/`key_down`, the end on return or end of input, and
  `sline_errmsg`. `Step` and `Run` give the session as functions, and
  `ReadLine` runs it on the buffer and the history.
- **Stack** (`Stacks`): the bounded operand stack of stack.c.
- **Registers** (`Mem`): the memory registers of mem.c.
- **Commands** (`Cmd`): the `cmd_defs` table, `cmd`, `cmd_valid`, and the
  choice of lines that `cmd_dmp` writes.
- **Main loop** (`Scalc`): `chomp_lead`, how the main loop of scalc.c
  classifies a line, and the operand guard and pop order of `apply_op`.

C strings are NUL-free `seq<CChar>`, where `CChar` is a `char` below 256.
`CStr` models `strlen`, `strlcpy`, `memset`, `strncmp` and `isspace`.

## Model

| member | source | states |
|---|---|---|
| CStr.Strlen | sline.c:70 | the length stops at the first NUL, and there is no NUL before it |
| CStr.CString | sline.c:70 | the string a buffer holds is a NUL-free prefix followed by the terminator |
| CStr.CStringAt | sline.c:283-285 | a terminator at `n` with no NUL before it makes the string `s[..n]` |
| CStr.CStringOfString | sline.c:343 | a NUL-free sequence is its own string |
| CStr.StrnEqualShort | cmd.c:245 | for a string shorter than the bound, `strncmp(...) == 0` is equality |
| CStr.StrnEqualShortRight | scalc.c:272 | the same when the second string (here `:quit`) is the one shorter than the bound |
| CStr.Signed | mem.c:14 | a `char` is signed: values lie in -128..127 and agree with the byte modulo 256 |
| CStr.Memset | sline.c:76 | exactly the bytes `from..from+count` become NUL; the others are kept |
| CStr.Strlcpy | sline.c:75 | copies at most `n-1` bytes and a terminator when `n > 0`; the other bytes are kept |
| CStr.StrnEqual | cmd.c:245 | `strncmp(a, b, n) == 0`: equal strings agree byte for byte up to the bound, so the shorter one is a prefix of the other |
| CStr.IsSpace | scalc.c:72 | `isspace` in the C locale; white space is never the terminator nor the command prefix `:` |
| SlineKeys.IsDigit | sline.c:103 | exactly the ten decimal digits |
| SlineKeys.After | sline.c:95-105 | the reads left after `n` are consumed |
| SlineKeys.CsiLetter | sline.c:138-153 | `ESC [ x` is a cursor key other than delete, and is recognised exactly for x in `ABCDHF` |
| SlineKeys.CsiDigit | sline.c:129-136 | `ESC [ 3 ~` is delete, `ESC [ 7 ~` home and `ESC [ 8 ~` end, each in both directions; any other digit pair is unrecognised |
| SlineKeys.TermEsc | sline.c:92-109 | an escape sequence always gives a cursor key or the unrecognised key; a recognised one began with `[` and, after a digit, had its third byte; a read that is not a byte ends the sequence as unrecognised; exactly 1, 2 or 3 reads are consumed, as `term_esc` reads them |
| SlineKeys.Plain | sline.c:154-164 | DEL is backspace, ^C and ^D are end of input, LF is return; every other byte is a character key carrying that byte |
| SlineKeys.TermKey | sline.c:111-165 | a decoded key consumes at least one read and leaves a suffix of the input; a failed read first is an I/O error; reads that are all timeouts (or none) leave the call waiting |
| SlineKeys.ReadKey | sline.c:111-165 | the retry loop over the reads decodes exactly as `TermKey` |
| SlineKeys.TimeoutsIgnored | sline.c:118-123 | timeouts before a key do not change what is decoded |
| SlineKeys.EscapeNeverChr | sline.c:125-153 | ESC never comes back as a character key |
| SlineKeys.EscapeStart | sline.c:125-127 | a key starting with ESC is decoded by `term_esc` from the reads after it |
| SlineKeys.CsiLetterSequence | sline.c:100-108 | `ESC [ x` with a non-digit x reads nothing more and gives `CsiLetter(x)` |
| SlineKeys.CsiDigitSequence | sline.c:103-106 | `ESC [ d t` with a digit d reads one more byte and gives `CsiDigit(d, t)` |
| SlineKeys.UnknownIntroducer | sline.c:100-101 | ESC followed by something other than `[` is the unrecognised key after two reads |
| SlineKeys.KeyBytes | sline.c:125-164 | a key is sent as at most four bytes; only the unrecognised key sends none; cursor keys start with ESC |
| SlineKeys.DecodeKeyBytes | sline.c:111-165 | decoding the bytes a key sends gives back that key and consumes exactly those bytes |
| SlineKeys.DecodeCursorKey | sline.c:125-153 | the same for the escape-sequence keys |
| SlineKeys.PlainByte | sline.c:154-164 | a byte other than ESC is one key on its own |
| SlineKeys.EscapeLetter | sline.c:138-153 | `ESC [ x` for a non-digit x decodes as `CsiLetter(x)` |
| Terminal.Overwrite | sline.c:287 | printed bytes replace what is under them from the cursor on; what lies before the cursor is kept |
| Terminal.Put | sline.c:81-90 | cursor moves (`ESC [ n D`, `ESC [ n C`, `\b`) leave the line alone; printed text ends with the cursor after it; `ln_redraw` and `ESC [ 0 K` keep the cursor and what lies before it, and a redraw puts its suffix after the cursor |
| Terminal.Play | sline.c:219-268 | a series of cursor moves leaves the line as it was |
| Terminal.PlayAppend | sline.c:436-484 | playing two outputs in turn is playing their concatenation |
| SlineBuffer.Inserted | sline.c:270-293 | the text with `c` at `i`: what comes before and after is kept |
| SlineBuffer.Removed | sline.c:295-322 | the text without the byte at `i`: what comes before and after is kept |
| SlineBuffer.Insert | sline.c:270-293 | inserts at the cursor and moves it one right exactly when there is room and the byte is not NUL; otherwise nothing changes; the invariant and the display are kept |
| SlineBuffer.Backspace | sline.c:295-322 | at column 0 nothing happens; otherwise the byte before the cursor goes and the cursor moves left |
| SlineBuffer.DeleteAt | sline.c:295-322 | forward delete removes the byte under the cursor, if any; the cursor stays |
| SlineBuffer.KeyLeft | sline.c:219-228 | one cell left unless at 0; output only when the cursor moves; the text is kept |
| SlineBuffer.KeyRight | sline.c:230-239 | one cell right unless at the end of the text |
| SlineBuffer.KeyHome | sline.c:241-252 | the cursor goes to 0, with output only if it moved |
| SlineBuffer.KeyEnd | sline.c:255-268 | the cursor goes to the end of the text, with output only if it moved |
| SlineBuffer.Recall | sline.c:167-187 | the recalled entry replaces the text and the cursor goes to its end; the display follows |
| SlineBuffer.Blank | sline.c:189-217 | the line is emptied and the cursor goes to 0; the display follows |
| SlineBuffer.InsertThenBackspace | sline.c:270-322 | backspace right after an insertion restores the text and the cursor |
| SlineBuffer.InsertThenLeftDelete | sline.c:219-322 | left then forward delete after an insertion restores the text |
| SlineBuffer.InsertTerminatorAsWritten | sline.c:276-285 | as written, the terminator of an insertion lands one past the old length |
| SlineBuffer.InsertOverflowsFullBuffer | sline.c:276-285 | when `strlen == size - 1` the `pos >= size` guard lets the insertion through, and the terminator is written at index `size` |
| SlineBuffer.InsertAsWritten | sline.c:270-293 | as written, inserting any byte advances the cursor; a non-NUL byte gives the expected text |
| SlineBuffer.NulKeystrokeBreaksInvariant | sline.c:154-164 | inserting NUL truncates the string at the cursor while the cursor moves past its end |
| SlineBuffer.SliceAsWritten | sline.c:64-79 | the slice buffer is allocated with `strlen + 1` bytes |
| SlineBuffer.DeleteTailAsWritten | sline.c:310-311 | forward delete reads `suff + 1`, which is inside the slice only when it holds at least two bytes |
| SlineBuffer.ForwardDeleteOnEmptyReadsPastSlice | sline.c:307-311 | on an empty line, the slice of one byte is read past its end |
| SlineBuffer.DeleteAsWrittenAgrees | sline.c:295-322 | on a non-empty line, the code's tail read equals the text after the cursor of `DeleteAt` |
| SlineBuffer.BufSlice | sline.c:64-79 | returns the text after `pivot` and clears it from the buffer; the bytes before are kept |
| SlineBuffer.OpenGap | sline.c:276-285 | slices at the cursor and writes the byte there; the tail is still to be put back |
| SlineBuffer.ChrInsert | sline.c:270-293 | the buffer's new text, cursor and output are those of the corrected `Insert` |
| SlineBuffer.CloseGap | sline.c:300-318 | removes the byte at `p` by slicing after it and copying the tail back |
| SlineBuffer.ChrDelete | sline.c:295-322 | the buffer's new text, cursor and output are those of `Backspace` or the corrected `DeleteAt` |
| SlineBuffer.RecallInto | sline.c:176-186 | the buffer's new text, cursor and output are those of `Recall` |
| SlineBuffer.BlankInto | sline.c:198-204 | the buffer is all NUL, and the cursor and output are those of `Blank` |
| SlineHistory.Appended | sline.c:324-346 | a blank line changes nothing; otherwise the line becomes the newest entry, and a full store first loses its oldest |
| SlineHistory.AppendedAll | sline.c:324-346 | a run of appends never exceeds the capacity |
| SlineHistory.NonBlank | sline.c:328-329 | keeps the non-blank lines, in order |
| SlineHistory.NonBlankAppend | sline.c:328-329 | distributes over concatenation |
| SlineHistory.Newest | sline.c:357-370 | the last `n` items |
| SlineHistory.AppendedNewest | sline.c:324-370 | appending to the window of newest lines gives the window of the longer history |
| SlineHistory.WindowSlides | sline.c:357-370 | a full window drops its oldest line when a line comes in |
| SlineHistory.AppendedAllKeepsNewest | sline.c:324-370 | after any appends, the store holds the newest `cap` non-blank lines ever submitted |
| SlineHistory.FromEmpty | sline.c:324-370 | starting empty, the store is the newest `cap` non-blank lines |
| SlineHistory.SecondLineSurvives | sline.c:333-335 | after `cap + 1` non-blank lines, `cap` remain and entry 0 is the second line |
| SlineHistory.NonBlankAll | sline.c:328-329 | lines that are all non-blank are kept whole |
| SlineHistory.CapacityThreeScenario | sline.c:324-370 | with room for three, four submissions leave the last three |
| SlineHistory.History.Entries | sline.c:61-62 | the lines stored, `hist_last + 1` of them, each a non-empty C string |
| SlineHistory.History.constructor | sline.c:61-62 | every slot is NULL and `hist_last == -1` |
| SlineHistory.History.Get | sline.c:348-355 | the entry at `pos` exactly when `0 <= pos <= hist_last`, and NULL otherwise |
| SlineHistory.History.Rotate | sline.c:357-370 | the slots shift down by one; the last becomes NULL and `hist_last` drops by one |
| SlineHistory.History.Holding | sline.c:324-370 | slots holding the lines `kept` are a valid store of them |
| SlineHistory.History.Add | sline.c:324-346 | status -1 exactly when the copy of a non-blank line cannot be allocated, and then the store has only lost the eviction that was due; otherwise the store is `Appended` |
| Sline.ErrMsg | sline.c:409-426 | end of input and I/O errors have their own messages; only the default code reads "unknown error." |
| Sline.Older | sline.c:167-187 | `hist_num` moves back one, stopping at 0; an entry there replaces the text with the cursor at its end; otherwise nothing changes |
| Sline.Newer | sline.c:189-217 | `hist_num` moves forward one; past the newest entry the line is blanked and `hist_num` stays at `hist_last + 1` |
| Sline.Step | sline.c:441-482 | keeps the invariant and the display; the unrecognised key does nothing; editing sets `hist_num` to `hist_last`; cursor keys keep the text and `hist_num` |
| Sline.Run | sline.c:436-484 | keeps the invariant; a line ending on return or end of input ends with a newline |
| Sline.RunShows | sline.c:436-484 | after any reads, the terminal shows the final text with the cursor in place |
| Sline.ShownSplit | sline.c:436-484 | earlier output stays in front of what a session shows |
| Sline.RunEnds | sline.c:440-456 | no key means waiting, a read error means failure, and end of input or return ends the line with its newline |
| Sline.RunStep | sline.c:441-482 | any other key is one `Step`, followed by the rest of the session |
| Sline.KeyUp | sline.c:167-187 | the buffer, cursor, `hist_num` and output are those of `Older` |
| Sline.KeyDown | sline.c:189-217 | the buffer, cursor, `hist_num` and output are those of `Newer` |
| Sline.Dispatch | sline.c:441-482 | the buffer, cursor, `hist_num` and output are those of `Step` |
| Sline.Advance | sline.c:436-484 | one key on the buffer, then the rest, is the session from the old state |
| Sline.PrecededTwice | sline.c:436-484 | two prefixes of output combine |
| Sline.Turn | sline.c:436-484 | one pass of the loop either ends the session as `Run` does or steps, consuming reads |
| Sline.EditFrom | sline.c:436-484 | the loop, from whatever buffer, cursor and `hist_num` it has reached, ends with the ending, output and buffer text of `Run` on those reads |
| Sline.EditLine | sline.c:428-484 | from a cleared buffer and `hist_num = hist_last + 1`, the ending and output are those of `Run` |
| Sline.ReadLine | sline.c:428-487 | on return the line goes into the history and `history_add`'s status is returned (a failed copy still costs a full store its oldest entry); end of input and a read error return -1 and set the matching error; otherwise the history is unchanged |
| SlineProps.Steps | sline.c:436-484 | a run of keys keeps the invariant |
| SlineProps.StepsShow | sline.c:436-484 | after any keys, the terminal shows the text with the cursor in place |
| SlineProps.StepsFirst | sline.c:436-484 | a run of keys is the first key, then the others |
| SlineProps.StepsOne | sline.c:436-484 | a run of one key is that key's step |
| SlineProps.StepChr | sline.c:475-478 | a character with room goes in at the cursor, which moves past it, and `hist_num` becomes `hist_last` |
| SlineProps.StepLeft | sline.c:463-465 | left moves the cursor back one and keeps the text and `hist_num` |
| SlineProps.Repeat | sline.c:457-462 | `n` copies of a key |
| SlineProps.StepsAppend | sline.c:436-484 | running two lists of keys is running their concatenation |
| SlineProps.UpsRecall | sline.c:167-187 | `k` presses of up recall the entry `k` places older, with the cursor at its end |
| SlineProps.DownsReturn | sline.c:189-217 | pressing down until past the newest entry brings back the blank prompt |
| SlineProps.UpThenDown | sline.c:439 | from a fresh prompt, `k` ups recall the k-th most recent entry and `k` downs return to an empty line |
| SlineProps.TypingThenUpSkipsNewest | sline.c:457-478 | after a keystroke the first up recalls the entry before the newest |
| SlineProps.BytesAppend | sline.c:111-123 | reads of concatenated bytes are the reads of each part |
| SlineProps.RunTyped | sline.c:436-484 | the session reads the bytes a terminal sends for a run of keys and steps by them, as `Steps` does |
| SlineProps.TypedFirst | sline.c:111-165 | the bytes of a run of keys are the first key's bytes and then the rest |
| SlineProps.RunKey | sline.c:436-484 | the session reads one sent key and steps by it |
| SlineProps.TypedLine | sline.c:454-456 | typing keys and then return submits the line that `Steps` builds |
| SlineProps.LeftLeftInsert | sline.c:463-478 | for "abc" with two lefts and `X`, the result is "aXbc" with the cursor at 2 |
| SlineProps.ForwardDeleteScenario | sline.c:295-322 | for "abc" with the cursor at 1, forward delete gives "ac" with the cursor at 1 |
| SlineProps.TypeAbc | sline.c:475-478 | typing `abc` on a fresh prompt gives "abc" with the cursor at 3 |
| SlineProps.KeyedSteps | sline.c:436-484 | `abc`, left, left, `X` gives "aXbc" with the cursor at 2 |
| SlineProps.KeyedBytes | sline.c:125-164 | those keys and return are sent as `abc ESC[D ESC[D X LF` |
| SlineProps.KeyedSendable | sline.c:125-164 | those keys can all be sent, and none of them ends the line |
| SlineProps.PlainLetter | sline.c:160-164 | a letter is its own character key |
| SlineProps.TypedCons | sline.c:111-165 | the bytes of a key followed by others |
| SlineProps.TypedScenario | sline.c:428-487 | through the decoder, the bytes `abc ESC[D ESC[D X LF` on a fresh prompt submit "aXbc" |
| Stacks.Swapped | stack.c:90-105 | the top two elements are exchanged; everything below is kept |
| Stacks.SwapTwice | stack.c:90-105 | swapping twice gives back the stack |
| Stacks.SwapKeeps | stack.c:90-105 | a swap keeps the multiset of elements |
| Stacks.Stack.Contents | stack.c:9-22 | the elements `elems[0..sp]`, at most `STK_STACK_SIZE` of them |
| Stacks.Stack.constructor | stack.c:9-22 | storage for `STK_STACK_SIZE` elements |
| Stacks.Stack.Init | stack.c:9-22 | empties the stack by resetting the pointer only |
| Stacks.Stack.Push | stack.c:24-36 | fails exactly on a full stack, which is then unchanged; otherwise the element becomes the top |
| Stacks.Stack.Peek | stack.c:79-88 | STK_ERR_STACK_MIN on an empty stack with `*dest` untouched; otherwise the top |
| Stacks.Stack.Pop | stack.c:38-50 | the top is returned and removed; an empty stack gives STK_ERR_STACK_MIN |
| Stacks.Stack.Drop | stack.c:52-61 | the top is removed; an empty stack gives STK_ERR_STACK_MIN |
| Stacks.Stack.Dup | stack.c:63-77 | the top is pushed again; an empty stack gives MIN and a full one MAX, both unchanged |
| Stacks.Stack.Swap | stack.c:90-105 | as written: 2 or more elements give the swap; 0 gives MIN; 1 gives MIN with the element lost |
| Stacks.Stack.SwapGuarded | stack.c:90-105 | corrected: a short stack gives MIN and is unchanged; otherwise the swap |
| Mem.VarToIndex | mem.c:9-19 | `var - 'A'` on a signed char when it lies in `0..MEM_SIZE-1`, otherwise -1 |
| Mem.CapitalsAreRegisters | mem.c:9-19 | exactly `A`..`Z` name a register |
| Mem.Lookup | mem.c:21-32 | the register's value, or nothing for a name that is not a register |
| Mem.Store | mem.c:34-45 | sets one register, or nothing for a name that is not a register |
| Mem.GetAfterSet | mem.c:21-45 | a stored value is the one read back |
| Mem.SetOthersUnchanged | mem.c:34-45 | storing leaves every other name's value |
| Mem.InvalidName | mem.c:9-45 | a name outside `A`..`Z` reads nothing and stores nothing |
| Mem.Registers.constructor | mem.c:7 | static storage starts at zero |
| Mem.Registers.Get | mem.c:21-32 | -1 with `*val` untouched for a name that is not a register; otherwise 0 and the value |
| Mem.Registers.Set | mem.c:34-45 | -1 and no change for a name that is not a register; otherwise 0 and that register set |
| Cmd.CmdDefs | cmd.c:29-41 | the ten commands with their ids, functions and descriptions, then the terminator `{ "", NULL, "" }` |
| Cmd.TableShape | cmd.c:29-41 | ten commands with short non-empty ids, then exactly one terminator |
| Cmd.Ids | cmd.c:29-41 | the command ids, in table order |
| Cmd.Find | cmd.c:239-251 | the first entry whose id matches under `strncmp`, or the terminator; no earlier entry matches |
| Cmd.Lookup | cmd.c:239-251 | the pointer loop returns `Find`'s entry, and sets CMD_ERR_INVALID exactly when that is the terminator |
| Cmd.CmdValid | cmd.c:253-260 | -1 or 0 |
| Cmd.ValidIffNamed | cmd.c:239-260 | `cmd_valid(cmd(name)) == 0` exactly when the name is one of the ids |
| Cmd.EveryCommandFound | cmd.c:29-41 | every command is found by its own id |
| Cmd.EmptyNameInvalid | cmd.c:239-251 | the empty name reaches the terminator |
| Cmd.Kept | cmd.c:98 | a kept line is never one of the command ids |
| Cmd.Dumped | cmd.c:96-102 | the lines written, never more than the history holds |
| Cmd.DumpedAppend | cmd.c:96-102 | distributes over concatenation |
| Cmd.DumpedMembers | cmd.c:98-101 | a line is written exactly when it is in the history, not blank, and not a command |
| Cmd.Dump | cmd.c:79-107 | missing or empty args give CMD_ERR_FEW_ARGS; an unopenable file gives CMD_ERR_FILE_IO; otherwise the lines written are `Dumped` of the history |
| Scalc.Chomped | scalc.c:69-77 | a suffix with no leading white space, where everything dropped is white space |
| Scalc.ChompedNoLead | scalc.c:69-77 | a line without leading white space is its own result |
| Scalc.ChompedIdempotent | scalc.c:69-77 | chomping twice is chomping once |
| Scalc.ChompedSkipsSpace | scalc.c:69-77 | leading white space does not change the result |
| Scalc.ChompLead | scalc.c:69-77 | the pointer loop stops where `Chomped` begins |
| Scalc.Classify | scalc.c:268-277 | commands and expressions carry the chomped, non-empty line |
| Scalc.ClassifyCases | scalc.c:268-277 | blank exactly when all white space; quit exactly when the chomped line is `:quit`; a command when it starts with `:` otherwise; math when it does not |
| Scalc.BlanksThenQuit | scalc.c:268-272 | blanks before `:quit` do not matter |
| Scalc.QuitPrefixIsCommand | scalc.c:271-274 | `:quit` followed by more is a command, not quit |
| Scalc.ApplyOp | scalc.c:149-182 | an invalid operation gives -1; a shortage gives STACK_ERR_MIN and pops nothing; otherwise the operands come off the top in order, deepest first |

## Left out

- Raw mode: `sline_setup`, `sline_end` and the termios calls (sline.c:372-407) are left out. They are I/O on the terminal.
- Escape bytes: the escape strings written to the terminal are modelled by what they do (the `Out` log), not as bytes.
- Blocking reads: the blocking `read` with its VMIN/VTIME timeout is modelled as a finite sequence of reads. When the reads run out before a key, the session ends as `Waiting` (status -1, no error set), where the program would go on waiting.
- Allocation: every allocation succeeds, except the copy in `history_add`, which takes an explicit `alloc` flag.
- SlineBuffer.BufSlice: the `calloc` in `buf_slice` always succeeds, so the no-op path on allocation failure is not modelled.
- Sline.ReadLine: the `memset` of the caller's buffer at the start is modelled by `EditLine` starting from a blank buffer.
- Other files: op.c, rpn.c and utils.c are not part of this model. That covers the operator table, the RPN evaluator and `errmsg`.
- Main-loop plumbing: in scalc.c, argument parsing, `file_input`, `prompt_input`, `eval_math`, `eval_cmd`, `die`/`usage`/`cleanup` and the interactive fallback are left out.
- Scalc.ApplyOp: stops once the operands are popped. Calling the operation's function on them (floating point) is left out.
- Cmd.Dump: the file is abstract. Whether `fopen` succeeds is a parameter, and the lines that would be printed are returned.
- Other commands: the bodies of the commands other than `cmd_dmp` are left out, along with the use of their descriptions. Some only print (`cmd_list`, `cmd_ver`, `cmd_whatis`). Others call a stack or register API that the modelled files do not provide (see "API mismatch").
- Doubles: stack and register `double`s are `real`, because they are only stored and moved.
- Mem.MEM_SIZE: taken as 26 (`A` to `Z`). The header that defines it is not part of this model.
- Stacks.STK_STACK_SIZE: 32. stack.h defines the size under the name `STACK_SIZE` (stack.h:3).
- API mismatch: the callers do not match the modelled files. The model follows stack.c, mem.c and sline.c as written, with one `Stack` object that `ApplyOp` receives. The mismatches are:
  - stack.h declares an older API (`stack_peek` with an index, `int` results).
  - scalc.c calls a global-stack API (`stack_pop(&x)`, `stack.sp`, scalc.c:163-170).
  - `cmd_d` calls `stack_init()` with no argument and `stack_drop(n)` with a count (cmd.c:71-73). stack.c:53 takes no count.
  - `cmd_p` calls `stack_peek(&buf, n)` with an index (cmd.c:156). stack.c:80 has no index.
  - `cmd_mclr` calls `mem_clr()` (cmd.c:122). mem.c does not define it.
  - `cmd_dup` calls `stack_dup()` with no stack (cmd.c:114), against stack.c:64.
  - `cmd_sav` calls `stack_peek(&buf, 0)` with an index (cmd.c:177), against stack.c:80.
  - `cmd_swp` calls `stack_swap()` with no stack (cmd.c:188), against stack.c:91.
  - `cmd_dmp` calls `sline_history_get` (cmd.c:96). sline.c defines only the static `history_get` (sline.c:348-355), and `Cmd.Dump` reads the store through `History.Get` in its place.
  - scalc.c calls `sline_setup(SCALC_EXPR_SIZE)` (scalc.c:83) and a three-argument `sline(expr, SCALC_EXPR_SIZE, NULL)` (scalc.c:120). These do not match `sline_setup(void)` (sline.c:373) or `sline(buf, size)` (sline.c:429).
- History navigation: typing, backspace and delete set `hist_num` to `hist_last`, not `hist_last + 1` (sline.c:444, 448, 477). So the first up-arrow after an edit skips the newest entry; `SlineProps.TypingThenUpSkipsNewest` states this.
- Terminal.Put: the screen model gives every byte one cell on a single line with no width. A real terminal does not: control bytes that are typed as characters (TAB, BS, CR; sline.c:160-163) are echoed raw (sline.c:287, 87) and move the cursor instead of printing a cell. Line wrap is not modelled either. The display clauses of `SlineBuffer.Insert`, `Sline.Step`, `Sline.RunShows` and `SlineProps.StepsShow` hold on this model, which matches a real terminal only for printable bytes on one screen line.
- Corrected editing: `SlineBuffer.ChrInsert`, `SlineBuffer.ChrDelete`, `Sline.Step`, `Sline.Dispatch`, `Sline.Run`, `Sline.EditFrom`, `Sline.EditLine` and `Sline.ReadLine` run the corrected `Insert` and `DeleteAt` of the "Findings" table, not the code as written. They refuse an insertion into a full buffer and a NUL byte, and make forward delete at the end of the text (including an empty line) a no-op. The code as written is modelled only by the as-written members listed there.
- Sline.ReadLine: requires every history entry to be shorter than the buffer (`EntriesFit`). This holds in the calculator because every call passes the same size, `SCALC_EXPR_SIZE` = 64 (scalc.c:120). With a smaller buffer, `key_up` and `key_down` would truncate the copy (sline.c:179, 209) but still return `strlen(hist)` as the cursor, leaving it past the end of the text; the model does not cover that case.

## Findings

| source | as written | input that shows it | evidently intended | confidence | as-written member | corrected member |
|---|---|---|---|---|---|---|
| sline.c:276-285 | `chr_insert` checks only `pos >= size`, then writes the byte and the whole tail back | a buffer of size 4 holding "abc" (strlen 3 = size - 1), then any character | the insertion is refused when the text already fills the buffer, so the terminator stays inside it | high (not executed) | SlineBuffer.InsertOverflowsFullBuffer | SlineBuffer.Insert |
| sline.c:154-164 | any byte other than the control keys is inserted, NUL included | a NUL byte typed after "ab" with the cursor at 2 | NUL is not inserted, so the cursor never passes the end of the string | medium (not executed) | SlineBuffer.NulKeystrokeBreaksInvariant | SlineBuffer.Insert |
| sline.c:310-311 | forward delete copies from `suff + 1`, where `suff` is the slice from `buf_slice` | an empty line (the `calloc(1)` slice) and the delete key | nothing is read outside the slice; delete at the end of the text is a no-op | high (not executed) | SlineBuffer.ForwardDeleteOnEmptyReadsPastSlice | SlineBuffer.DeleteAt |
| stack.c:96-98 | `stack_swap` pops twice and returns on the second failure | a stack holding one element, then a swap | a short stack is left as it is, as `apply_op` ensures for operations (scalc.c:158-166) | high (not executed) | Stacks.Stack.Swap | Stacks.Stack.SwapGuarded |
