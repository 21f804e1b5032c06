/**
 * The key decoder of the line editor (sline.c, `term_key` and `term_esc`):
 * one call reads bytes from the raw-mode terminal and yields one logical key.
 *
 * The terminal is a sequence of `read` outcomes, one per one-byte `read`
 * call: a byte, the idle timeout (the call returns 0) or an error (-1).
 */
module SlineKeys {
  import opened CStr

  const ESC: CChar := '\U{1B}'
  /** What the backspace key sends. */
  const DEL: CChar := '\U{7F}'
  /** Ctrl-C and Ctrl-D. */
  const ETX: CChar := '\U{03}'
  const EOT: CChar := '\U{04}'
  const LF: CChar := '\n'

  /** The events of `term_key`: VT_DEF, VT_CHR (with its byte), VT_BKSPC, ... VT_END. */
  datatype Key = Def | Chr(c: CChar) | Bkspc | Dlt | Eof | Ret | Up | Dwn | Lft | Rght | Home | End

  /** The outcome of one one-byte `read`. */
  datatype Read = Byte(b: CChar) | Timeout | Failure

  /**
   * What one `term_key` call yields: a key and the reads still to come, an
   * I/O error (-1 with SLINE_ERR_IO), or `Blocked` when the reads run out
   * before any byte arrives (the source would go on waiting).
   */
  datatype Decoded = Decoded(key: Key, rest: seq<Read>) | IoError | Blocked

  /** The test `seq[1] >= '0' && seq[1] <= '9'`: the ten decimal digits. */
  predicate IsDigit(c: CChar): (d: bool)
    ensures d <==> c in "0123456789"
  {
    '0' <= c <= '9'
  }

  /** `n` reads taken from `input`, or all of it when it is shorter. */
  function After(input: seq<Read>, n: nat): (r: seq<Read>)
    ensures |r| == Max(0, |input| - n)
  {
    input[Min(n, |input|)..]
  }

  /** The keys an escape sequence can stand for. */
  predicate IsCursorKey(k: Key)
  {
    k == Def || k == Dlt || k == Up || k == Dwn || k == Lft || k == Rght || k == Home || k == End
  }

  /** `ESC [ x` for a non-digit `x`: the switch of sline.c:138-153. */
  function CsiLetter(x: CChar): (k: Key)
    ensures IsCursorKey(k) && k != Dlt
    ensures k != Def <==> x in "ABCDHF"
  {
    match x
    case 'A' => Up
    case 'B' => Dwn
    case 'C' => Rght
    case 'D' => Lft
    case 'H' => Home
    case 'F' => End
    case _ => Def
  }

  /** `ESC [ d t` for a digit `d`: the three `~` sequences; any other pair is unrecognised. */
  function CsiDigit(d: CChar, t: CChar): (k: Key)
    ensures k in {Def, Dlt, Home, End}
    ensures k != Def <==> t == '~' && d in "378"
    ensures k == Dlt <==> d == '3' && t == '~'
    ensures k == Home <==> d == '7' && t == '~'
    ensures k == End <==> d == '8' && t == '~'
  {
    if d == '3' && t == '~' then Dlt
    else if d == '7' && t == '~' then Home
    else if d == '8' && t == '~' then End
    else Def
  }

  /**
   * `term_esc` and the decoding after it: the reads that follow an ESC.
   * Two reads always, a third when the introducer is `[` and the second
   * byte a digit; a read that is not a byte (a timeout, an error, or the end
   * of the input) makes the sequence unrecognised.
   */
  function TermEsc(input: seq<Read>): (d: Decoded)
    ensures d.Decoded? && IsCursorKey(d.key)
    ensures d.key != Def ==>
      |input| >= 2 && input[0] == Byte('[') && input[1].Byte? && (IsDigit(input[1].b) ==> |input| >= 3 && input[2].Byte?)
    ensures d.rest == After(input,
      if |input| == 0 || !input[0].Byte? then 1
      else if |input| == 1 || !input[1].Byte? then 2
      else if input[0].b == '[' && IsDigit(input[1].b) then 3
      else 2)
  {
    if |input| == 0 || !input[0].Byte? then Decoded(Def, After(input, 1))
    else if |input| == 1 || !input[1].Byte? then Decoded(Def, After(input, 2))
    else if input[0].b != '[' then Decoded(Def, input[2..])
    else if !IsDigit(input[1].b) then Decoded(CsiLetter(input[1].b), input[2..])
    else if |input| == 2 || !input[2].Byte? then Decoded(Def, After(input, 3))
    else Decoded(CsiDigit(input[1].b, input[2].b), input[3..])
  }

  /** A byte other than ESC (sline.c:154-164). */
  function Plain(b: CChar): (k: Key)
    ensures !IsCursorKey(k)
    ensures k.Chr? ==> k.c == b
    ensures k.Chr? <==> b != DEL && b != ETX && b != EOT && b != LF
    ensures b == DEL ==> k == Bkspc
    ensures b == ETX || b == EOT ==> k == Eof
    ensures b == LF ==> k == Ret
  {
    if b == DEL then Bkspc
    else if b == ETX || b == EOT then Eof
    else if b == LF then Ret
    else Chr(b)
  }

  /** `term_key`: skip timeouts, fail on a read error, then decode the first byte. */
  function TermKey(input: seq<Read>): (d: Decoded)
    ensures d.Decoded? ==> |d.rest| < |input| && d.rest == input[|input| - |d.rest|..]
    ensures input == [] ==> d == Blocked
    ensures |input| > 0 && input[0] == Failure ==> d == IoError
    ensures d == Blocked <==> forall i :: 0 <= i < |input| ==> input[i] == Timeout
  {
    if |input| == 0 then Blocked
    else match input[0]
      case Timeout => TermKey(input[1..])
      case Failure => IoError
      case Byte(b) => if b == ESC then TermEsc(input[1..]) else Decoded(Plain(b), input[1..])
  }

  /** The retry loop of `term_key` (sline.c:118-123) followed by the classification. */
  method ReadKey(input: seq<Read>) returns (d: Decoded)
    ensures d == TermKey(input)
  {
    var i := 0;
    while i < |input| && input[i] == Timeout
      invariant 0 <= i <= |input|
      invariant TermKey(input[i..]) == TermKey(input)
    {
      assert input[i..][1..] == input[i + 1..];
      i := i + 1;
    }
    if i == |input| {
      d := Blocked;
    } else if input[i] == Failure {
      d := IoError;
    } else {
      var b := input[i].b;
      assert input[i..][1..] == input[i + 1..];
      if b == ESC {
        d := TermEsc(input[i + 1..]);
      } else {
        d := Decoded(Plain(b), input[i + 1..]);
      }
    }
  }

  function Timeouts(n: nat): (r: seq<Read>)
    ensures |r| == n && forall i :: 0 <= i < n ==> r[i] == Timeout
  {
    seq(n, _ => Timeout)
  }

  /** Timeouts before a key change nothing: `term_key` simply reads again. */
  lemma {:induction false} TimeoutsIgnored(n: nat, input: seq<Read>)
    ensures TermKey(Timeouts(n) + input) == TermKey(input)
  {
    if n > 0 {
      assert (Timeouts(n) + input)[0] == Timeout;
      assert (Timeouts(n) + input)[1..] == Timeouts(n - 1) + input;
      TimeoutsIgnored(n - 1, input);
    } else {
      assert Timeouts(n) + input == input;
    }
  }

  /**
   * An escape sequence never yields a plain character, and a plain
   * character is never the ESC byte: escape bytes never reach the buffer.
   */
  lemma {:induction false} EscapeNeverChr(input: seq<Read>)
    ensures TermKey(input).Decoded? && TermKey(input).key.Chr? ==> TermKey(input).key.c != ESC
    ensures forall rest :: !TermKey([Byte(ESC)] + rest).key.Chr?
  {
    if |input| > 0 && input[0] == Timeout {
      EscapeNeverChr(input[1..]);
    }
    forall rest: seq<Read> ensures !TermKey([Byte(ESC)] + rest).key.Chr? {
      EscapeStart(rest);
    }
  }

  /** A key that starts with ESC is decoded by `term_esc` from the reads after it. */
  lemma EscapeStart(t: seq<Read>)
    ensures TermKey([Byte(ESC)] + t) == TermEsc(t)
  {
    assert ([Byte(ESC)] + t)[1..] == t;
  }

  /** `ESC [` and a non-digit: the final byte alone decides (see `CsiLetter`), and nothing more is read. */
  lemma CsiLetterSequence(x: CChar, rest: seq<Read>)
    requires !IsDigit(x)
    ensures TermEsc([Byte('['), Byte(x)] + rest) == Decoded(CsiLetter(x), rest)
  {
    assert ([Byte('['), Byte(x)] + rest)[2..] == rest;
  }

  /** `ESC [`, a digit and one more byte (see `CsiDigit`). */
  lemma CsiDigitSequence(d: CChar, t: CChar, rest: seq<Read>)
    requires IsDigit(d)
    ensures TermEsc([Byte('['), Byte(d), Byte(t)] + rest) == Decoded(CsiDigit(d, t), rest)
  {
    assert ([Byte('['), Byte(d), Byte(t)] + rest)[3..] == rest;
  }

  /**
   * An ESC whose next two reads are bytes, the first not `[`, consumes
   * exactly those two bytes and is unrecognised.
   */
  lemma UnknownIntroducer(a: CChar, b: CChar, rest: seq<Read>)
    requires a != '['
    ensures TermKey([Byte(ESC), Byte(a), Byte(b)] + rest) == Decoded(Def, rest)
  {
    assert ([Byte(ESC), Byte(a), Byte(b)] + rest)[1..] == [Byte(a), Byte(b)] + rest;
  }

  /** Reads that deliver the bytes `bs` one by one. */
  function Bytes(bs: seq<CChar>): (r: seq<Read>)
    ensures |r| == |bs| && forall i :: 0 <= i < |bs| ==> r[i] == Byte(bs[i])
  {
    seq(|bs|, i requires 0 <= i < |bs| => Byte(bs[i]))
  }

  /** The keys a terminal can send: every key but the unrecognised one, and no plain ESC byte. */
  predicate Sendable(k: Key)
  {
    k != Def && (k.Chr? ==> k.c != ESC && Plain(k.c) == k)
  }

  /**
   * The bytes a VT100-style terminal sends for a key: the byte itself, DEL
   * for backspace, Ctrl-D for end of input, LF for return, and the CSI
   * sequences for the cursor keys; nothing for the unrecognised key.
   */
  function KeyBytes(k: Key): (bs: seq<CChar>)
    ensures |bs| <= 4 && (bs == [] <==> k == Def)
    ensures Sendable(k) ==> (bs[0] == ESC <==> IsCursorKey(k))
  {
    match k
    case Def => []
    case Chr(c) => [c]
    case Bkspc => [DEL]
    case Eof => [EOT]
    case Ret => [LF]
    case Dlt => [ESC, '[', '3', '~']
    case Up => [ESC, '[', 'A']
    case Dwn => [ESC, '[', 'B']
    case Rght => [ESC, '[', 'C']
    case Lft => [ESC, '[', 'D']
    case Home => [ESC, '[', 'H']
    case End => [ESC, '[', 'F']
  }

  /** Decoding what a key sends gives back that key and consumes exactly its bytes. */
  lemma DecodeKeyBytes(k: Key, rest: seq<Read>)
    requires Sendable(k)
    ensures TermKey(Bytes(KeyBytes(k)) + rest) == Decoded(k, rest)
  {
    if IsCursorKey(k) {
      DecodeCursorKey(k, rest);
    } else {
      PlainByte(KeyBytes(k)[0], rest);
    }
  }

  lemma DecodeCursorKey(k: Key, rest: seq<Read>)
    requires Sendable(k) && IsCursorKey(k)
    ensures TermKey(Bytes(KeyBytes(k)) + rest) == Decoded(k, rest)
  {
    if k == Dlt {
      DecodeDelete(rest);
    } else {
      var x := KeyBytes(k)[2];
      assert KeyBytes(k) == [ESC, '[', x] && CsiLetter(x) == k;
      EscapeLetter(x, rest);
    }
  }

  /** `ESC [ 3 ~` decodes as the delete key. */
  lemma DecodeDelete(rest: seq<Read>)
    ensures TermKey(Bytes([ESC, '[', '3', '~']) + rest) == Decoded(Dlt, rest)
  {
    var t := [Byte('['), Byte('3'), Byte('~')] + rest;
    assert Bytes([ESC, '[', '3', '~']) + rest == [Byte(ESC)] + t;
    EscapeStart(t);
    CsiDigitSequence('3', '~', rest);
  }

  /** A byte other than ESC is one key on its own. */
  lemma PlainByte(b: CChar, rest: seq<Read>)
    requires b != ESC
    ensures TermKey(Bytes([b]) + rest) == Decoded(Plain(b), rest)
  {
    assert Bytes([b]) + rest == [Byte(b)] + rest;
    assert ([Byte(b)] + rest)[1..] == rest;
  }

  /** `ESC [ x` for a letter `x` decodes as `CsiLetter(x)`. */
  lemma EscapeLetter(x: CChar, rest: seq<Read>)
    requires !IsDigit(x)
    ensures TermKey(Bytes([ESC, '[', x]) + rest) == Decoded(CsiLetter(x), rest)
  {
    var t := [Byte('['), Byte(x)] + rest;
    assert Bytes([ESC, '[', x]) + rest == [Byte(ESC)] + t;
    EscapeStart(t);
    CsiLetterSequence(x, rest);
  }
}
