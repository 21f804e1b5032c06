/**
 * C strings as the line editor and the calculator handle them: `char` bytes,
 * NUL-terminated buffers, and the three libc helpers the core leans on
 * (`strlen`, `strlcpy`, `memset`), plus `strncmp` and `isspace`.
 */
module CStr {

  /** A C `char`: one byte. */
  type CChar = c: char | c as int < 256

  const NUL: CChar := '\0'

  function Min(a: int, b: int): int { if a <= b then a else b }

  function Max(a: int, b: int): int { if a <= b then b else a }

  /** A string value as C sees it: no NUL inside it. */
  ghost predicate NoNul(s: seq<CChar>)
  {
    forall i :: 0 <= i < |s| ==> s[i] != NUL
  }

  /** `strlen`: the number of bytes before the first NUL. */
  function Strlen(s: seq<CChar>): (n: nat)
    ensures n <= |s|
    ensures NoNul(s[..n])
    ensures n < |s| ==> s[n] == NUL
  {
    if |s| == 0 || s[0] == NUL then 0
    else
      var m := Strlen(s[1..]);
      assert s[..1 + m] == [s[0]] + s[1..][..m];
      1 + m
  }

  /** The string a NUL-terminated buffer holds. */
  function CString(s: seq<CChar>): (r: seq<CChar>)
    ensures NoNul(r) && |r| <= |s| && r == s[..|r|]
    ensures |r| < |s| ==> s[|r|] == NUL
  {
    s[..Strlen(s)]
  }

  /** A terminator at `n` with no NUL before it fixes the string. */
  lemma {:induction false} CStringAt(s: seq<CChar>, n: nat)
    requires n < |s| && s[n] == NUL && NoNul(s[..n])
    ensures Strlen(s) == n && CString(s) == s[..n]
  {
    if n > 0 {
      assert s[..n][0] == s[0];
      assert s[1..][..n - 1] == s[..n][1..];
      CStringAt(s[1..], n - 1);
    }
  }

  /** A buffer of NUL-free text with nothing after it holds exactly that text. */
  lemma CStringOfString(s: seq<CChar>)
    requires NoNul(s)
    ensures CString(s) == s
  {
  }

  /**
   * `strncmp(a, b, n) == 0` for NUL-free strings: the first `n` bytes agree,
   * where a string that ends early is followed by its terminator.
   */
  predicate StrnEqual(a: seq<CChar>, b: seq<CChar>, n: nat): (eq: bool)
    ensures eq ==> forall i :: 0 <= i < Min(|a|, n) ==> i < |b| && a[i] == b[i]
    ensures eq ==> forall i :: 0 <= i < Min(|b|, n) ==> i < |a| && a[i] == b[i]
  {
    a[..Min(|a|, n)] == b[..Min(|b|, n)]
  }

  /** When `a` is shorter than the bound, agreeing in the first `n` bytes is equality. */
  lemma StrnEqualShort(a: seq<CChar>, b: seq<CChar>, n: nat)
    requires |a| < n
    ensures StrnEqual(a, b, n) <==> a == b
  {
    if StrnEqual(a, b, n) {
      assert |a| == Min(|b|, n);
      assert b[..|b|] == b;
    }
  }

  /** The same with the bound beyond `b`. */
  lemma StrnEqualShortRight(a: seq<CChar>, b: seq<CChar>, n: nat)
    requires |b| < n
    ensures StrnEqual(a, b, n) <==> a == b
  {
    if StrnEqual(a, b, n) {
      assert |b| == Min(|a|, n);
      assert a[..|a|] == a;
    }
  }

  /** `isspace` in the C locale: space, \t, \n, \v, \f, \r. */
  predicate IsSpace(c: CChar): (sp: bool)
    ensures sp ==> c != NUL && c != ':'
  {
    c == ' ' || c == '\t' || c == '\n' || c == '\U{0B}' || c == '\U{0C}' || c == '\r'
  }

  /** A plain `char` is signed here: bytes from 0x80 on are negative. */
  function Signed(c: CChar): (v: int)
    ensures -128 <= v < 128
    ensures v % 256 == c as int % 256
  {
    if c as int < 128 then c as int else c as int - 256
  }

  /** `memset(dst + from, 0, count)`. */
  method Memset(dst: array<CChar>, from: nat, count: nat)
    requires from + count <= dst.Length
    modifies dst
    ensures forall i :: 0 <= i < dst.Length ==>
      dst[i] == if from <= i < from + count then NUL else old(dst[i])
  {
    var k := from;
    while k < from + count
      invariant from <= k <= from + count
      invariant forall i :: 0 <= i < dst.Length ==>
        dst[i] == if from <= i < k then NUL else old(dst[i])
    {
      dst[k] := NUL;
      k := k + 1;
    }
  }

  /**
   * `strlcpy(dst + at, src, n)` for a NUL-free `src`: copies at most `n - 1`
   * bytes and, when `n > 0`, a terminator after them.
   */
  method Strlcpy(dst: array<CChar>, at: nat, src: seq<CChar>, n: nat)
    requires at + n <= dst.Length
    modifies dst
    ensures var k := Min(|src|, n - 1);
      forall i :: 0 <= i < dst.Length ==>
        dst[i] == if at <= i < at + k then src[i - at]
                  else if n > 0 && i == at + k then NUL
                  else old(dst[i])
  {
    if n == 0 {
      return;
    }
    var k := Min(|src|, n - 1);
    var j := 0;
    while j < k
      invariant 0 <= j <= k
      invariant forall i :: 0 <= i < dst.Length ==>
        dst[i] == if at <= i < at + j then src[i - at] else old(dst[i])
    {
      dst[at + j] := src[j];
      j := j + 1;
    }
    dst[at + k] := NUL;
  }
}
