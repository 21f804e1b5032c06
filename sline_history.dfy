/**
 * The history store of sline.c: the static `history[HISTORY_SIZE]` array
 * of owned strings and `hist_last`, the index of the newest entry (-1 when
 * there is none). `history_add` appends a non-blank line, first evicting
 * entry 0 and shifting the others down (`history_rotate`) when all slots
 * are taken; `history_get` looks an entry up by index.
 */
module SlineHistory {
  import opened Wrappers
  import opened CStr

  const HISTORY_SIZE: nat := 50

  /** The store's contents after appending `line` to `entries` with room for `cap` lines. */
  function Appended(entries: seq<seq<CChar>>, line: seq<CChar>, cap: nat): (r: seq<seq<CChar>>)
    requires 0 < cap && |entries| <= cap
    ensures |r| <= cap
    ensures line == [] ==> r == entries
    ensures line != [] ==> |r| > 0 && r[|r| - 1] == line && r[..|r| - 1] == (if |entries| == cap then entries[1..] else entries)
  {
    if line == [] then entries
    else if |entries| == cap then entries[1..] + [line]
    else entries + [line]
  }

  /** The store after appending each of `lines` in turn. */
  function AppendedAll(entries: seq<seq<CChar>>, lines: seq<seq<CChar>>, cap: nat): (r: seq<seq<CChar>>)
    requires 0 < cap && |entries| <= cap
    ensures |r| <= cap
    decreases |lines|
  {
    if lines == [] then entries
    else AppendedAll(Appended(entries, lines[0], cap), lines[1..], cap)
  }

  /** The non-blank lines of `lines`, in order. */
  function NonBlank(lines: seq<seq<CChar>>): (r: seq<seq<CChar>>)
    ensures |r| <= |lines|
    ensures forall i :: 0 <= i < |r| ==> r[i] != []
  {
    if lines == [] then []
    else if lines[0] == [] then NonBlank(lines[1..])
    else [lines[0]] + NonBlank(lines[1..])
  }

  lemma {:induction false} NonBlankAppend(a: seq<seq<CChar>>, b: seq<seq<CChar>>)
    ensures NonBlank(a + b) == NonBlank(a) + NonBlank(b)
  {
    if a == [] {
      assert a + b == b;
    } else {
      assert (a + b)[0] == a[0];
      assert (a + b)[1..] == a[1..] + b;
      NonBlankAppend(a[1..], b);
    }
  }

  /** The last `n` items of `s` (all of `s` when it is shorter). */
  function Newest<T>(s: seq<T>, n: nat): (r: seq<T>)
    ensures |r| == Min(|s|, n) && r == s[|s| - |r|..]
  {
    s[Max(0, |s| - n)..]
  }

  /** One append to a window of newest lines is the window of the extended history. */
  lemma AppendedNewest(nb: seq<seq<CChar>>, line: seq<CChar>, cap: nat)
    requires 0 < cap
    ensures Appended(Newest(nb, cap), line, cap) == Newest(nb + (if line == [] then [] else [line]), cap)
  {
    var w := Newest(nb, cap);
    if line == [] {
      assert nb + [] == nb;
    } else if |nb| >= cap {
      WindowSlides(nb, line, cap);
    } else {
      assert w == nb;
      var ext := nb + [line];
      assert Newest(ext, cap) == ext[0..];
    }
  }

  /** A full window drops its oldest line when a line comes in. */
  lemma WindowSlides(nb: seq<seq<CChar>>, line: seq<CChar>, cap: nat)
    requires 0 < cap <= |nb|
    ensures Newest(nb, cap)[1..] + [line] == Newest(nb + [line], cap)
  {
    var k := |nb| - cap;
    assert Newest(nb, cap) == nb[k..];
    assert Newest(nb + [line], cap) == (nb + [line])[k + 1..];
    assert nb[k..][1..] == nb[k + 1..];
    assert (nb + [line])[k + 1..] == nb[k + 1..] + [line];
  }

  /**
   * FIFO eviction: starting from the newest `cap` lines of some history,
   * appending lines keeps exactly the newest `cap` non-blank lines ever
   * added, in the order they were added.
   */
  lemma {:induction false} AppendedAllKeepsNewest(earlier: seq<seq<CChar>>, lines: seq<seq<CChar>>, cap: nat)
    requires 0 < cap
    ensures AppendedAll(Newest(NonBlank(earlier), cap), lines, cap) == Newest(NonBlank(earlier + lines), cap)
    decreases |lines|
  {
    if lines == [] {
      assert earlier + lines == earlier;
    } else {
      var w := Newest(NonBlank(earlier), cap);
      var next := earlier + [lines[0]];
      var one: seq<seq<CChar>> := [lines[0]];
      assert one[1..] == [];
      var added := if lines[0] == [] then [] else one;
      assert NonBlank(one) == added;
      NonBlankAppend(earlier, one);
      assert NonBlank(next) == NonBlank(earlier) + added;
      AppendedNewest(NonBlank(earlier), lines[0], cap);
      assert Appended(w, lines[0], cap) == Newest(NonBlank(next), cap);
      AppendedAllKeepsNewest(next, lines[1..], cap);
      SplitFirst(earlier, lines);
    }
  }

  lemma SplitFirst<T>(a: seq<T>, l: seq<T>)
    requires l != []
    ensures (a + [l[0]]) + l[1..] == a + l
  {
    assert l == [l[0]] + l[1..];
  }

  /** From an empty store: the newest `cap` non-blank lines. */
  lemma FromEmpty(lines: seq<seq<CChar>>, cap: nat)
    requires 0 < cap
    ensures AppendedAll([], lines, cap) == Newest(NonBlank(lines), cap)
  {
    AppendedAllKeepsNewest([], lines, cap);
    assert [] + lines == lines;
  }

  /** After `cap + 1` non-blank lines, entry 0 is the second line added and `cap` entries remain. */
  lemma SecondLineSurvives(lines: seq<seq<CChar>>, cap: nat)
    requires 0 < cap && |lines| == cap + 1
    requires forall i :: 0 <= i < |lines| ==> lines[i] != []
    ensures |AppendedAll([], lines, cap)| == cap
    ensures AppendedAll([], lines, cap)[0] == lines[1]
  {
    FromEmpty(lines, cap);
    NonBlankAll(lines);
  }

  lemma {:induction false} NonBlankAll(lines: seq<seq<CChar>>)
    requires forall i :: 0 <= i < |lines| ==> lines[i] != []
    ensures NonBlank(lines) == lines
  {
    if lines != [] {
      NonBlankAll(lines[1..]);
    }
  }

  /** With room for three: four submissions leave the last three. */
  lemma CapacityThreeScenario()
    ensures AppendedAll([], ["1 1 +", "2 2 *", "3 3 -", "4 4 /"], 3) == ["2 2 *", "3 3 -", "4 4 /"]
  {
    FromEmpty(["1 1 +", "2 2 *", "3 3 -", "4 4 /"], 3);
    NonBlankAll(["1 1 +", "2 2 *", "3 3 -", "4 4 /"]);
  }

  /** The global `history[]` / `hist_last` pair. */
  class History {
    var slots: array<Option<seq<CChar>>>
    var last: int

    ghost predicate Valid()
      reads this, slots
    {
      && slots.Length == HISTORY_SIZE
      && -1 <= last < HISTORY_SIZE
      && forall i :: 0 <= i <= last ==> slots[i].Some? && slots[i].value != [] && NoNul(slots[i].value)
    }

    /** The stored lines, oldest first: indices `0..hist_last`. */
    ghost function Entries(): (r: seq<seq<CChar>>)
      reads this, slots
      requires Valid()
      ensures |r| == last + 1 <= HISTORY_SIZE
      ensures forall i :: 0 <= i < |r| ==> r[i] != [] && NoNul(r[i])
    {
      var s := slots[..last + 1];
      seq(|s|, i requires 0 <= i < |s| && s[i].Some? => s[i].value)
    }

    /** The initial state: every slot NULL, `hist_last == -1`. */
    constructor ()
      ensures Valid() && Entries() == [] && fresh(slots)
    {
      slots := new Option<seq<CChar>>[HISTORY_SIZE](_ => None);
      last := -1;
    }

    /** `history_get`: the entry at `pos`, or NULL outside `0..hist_last`. */
    method Get(pos: int) returns (r: Option<seq<CChar>>)
      requires Valid()
      ensures r.Some? <==> 0 <= pos < |Entries()|
      ensures r.Some? ==> r.value == Entries()[pos]
    {
      if pos < 0 || pos > last {
        return None;
      }
      r := slots[pos];
    }

    /**
     * `history_rotate`, called by `history_add` once `hist_last` has been
     * moved to `HISTORY_SIZE`: entry 0 goes, the rest shift down by one,
     * the top slot becomes NULL and `hist_last` comes back by one.
     */
    method Rotate()
      requires slots.Length == HISTORY_SIZE && last == HISTORY_SIZE
      modifies this, slots
      ensures slots == old(slots) && last == HISTORY_SIZE - 1
      ensures slots[..] == old(slots[1..]) + [None]
    {
      var i := 1;
      while i < HISTORY_SIZE
        invariant 1 <= i <= HISTORY_SIZE && last == HISTORY_SIZE && slots == old(slots)
        invariant forall k :: 0 <= k < i - 1 ==> slots[k] == old(slots[k + 1])
        invariant forall k :: i - 1 <= k < HISTORY_SIZE ==> slots[k] == old(slots[k])
      {
        slots[i - 1] := slots[i];
        i := i + 1;
      }
      slots[i - 1] := None;
      last := last - 1;
    }

    /** Slots `0..hist_last` holding exactly the lines `kept` make a valid store of them. */
    lemma Holding(kept: seq<seq<CChar>>)
      requires slots.Length == HISTORY_SIZE && last == |kept| - 1 && |kept| <= HISTORY_SIZE
      requires forall i :: 0 <= i < |kept| ==> slots[i] == Some(kept[i]) && kept[i] != [] && NoNul(kept[i])
      ensures Valid() && Entries() == kept
    {
    }

    /**
     * `history_add`: a blank line is ignored; otherwise it becomes the
     * newest entry, after an eviction when the store is full. `alloc` says
     * whether the copy could be allocated: when it could not, -1 is
     * returned and the new entry is missing, though an eviction that was
     * due has already happened.
     */
    method Add(input: seq<CChar>, alloc: bool) returns (status: int)
      requires Valid() && NoNul(input)
      modifies this, slots
      ensures Valid() && slots == old(slots)
      ensures status == (if input != [] && !alloc then -1 else 0)
      ensures alloc || input == [] ==> Entries() == Appended(old(Entries()), input, HISTORY_SIZE)
      ensures !alloc && input != [] ==>
        Entries() == if |old(Entries())| == HISTORY_SIZE then old(Entries())[1..] else old(Entries())
    {
      if |input| == 0 {
        return 0;
      }
      ghost var before := Entries();
      ghost var kept := if |before| == HISTORY_SIZE then before[1..] else before;
      last := last + 1;
      if last >= HISTORY_SIZE {
        Rotate();
      }
      assert last == |kept| && forall i :: 0 <= i < last ==> slots[i] == Some(kept[i]);
      if !alloc {
        slots[last] := None;
        last := last - 1;
        Holding(kept);
        return -1;
      }
      slots[last] := Some(input);
      status := 0;
      Holding(kept + [input]);
    }
  }
}
