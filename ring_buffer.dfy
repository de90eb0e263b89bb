/**
 * The fixed-capacity history store behind every volatility estimate.
 *
 * A buffer of capacity `max` first grows by appending; the append that makes
 * its length equal to `max` switches it, once and for good, to overwrite mode,
 * where each append writes the slot under a cursor and advances the cursor
 * modulo `max`.  The functions below describe the buffer's state as a function
 * of everything ever appended to it (its history); the class keeps its fields
 * equal to them.
 */
module RingBuffers {

  import opened Arith

  /** True once a buffer of capacity `max` has been given `max` samples: it is then in overwrite mode. */
  predicate Saturated(history: seq<real>, max: int)
  {
    1 <= max <= |history|
  }

  /** What the buffer holds after `history`, oldest first: the last `max` samples once saturated. */
  function Window(history: seq<real>, max: int): seq<real>
  {
    if Saturated(history, max) then history[|history| - max..] else history
  }

  /** The write cursor after `history`: the slot holding the oldest sample (0 before saturation). */
  function Cursor(history: seq<real>, max: int): int
  {
    if Saturated(history, max) then (|history| - max) % max else 0
  }

  /**
   * The buffer's storage after `history`: what the appends leave behind.  A
   * growing buffer appends at the end; a saturated one overwrites the slot
   * under the cursor.
   */
  function Storage(history: seq<real>, max: int): (s: seq<real>)
    ensures |s| == if Saturated(history, max) then max else |history|
  {
    if history == [] then []
    else
      var prev, x := history[..|history| - 1], history[|history| - 1];
      if Saturated(prev, max) then Storage(prev, max)[Cursor(prev, max) := x]
      else Storage(prev, max) + [x]
  }

  /** The window rotated so that its oldest sample sits at the cursor: the closed form of the storage. */
  function Rotated(history: seq<real>, max: int): seq<real>
  {
    var w, c := Window(history, max), Cursor(history, max);
    w[|w| - c..] + w[..|w| - c]
  }

  /** The cursor is a position within the window, or just past a window that has not yet saturated. */
  lemma CursorInWindow(history: seq<real>, max: int)
    ensures 0 <= Cursor(history, max) <= |Window(history, max)|
    ensures Saturated(history, max) ==> Cursor(history, max) < max == |Window(history, max)|
  {
    if Saturated(history, max) {
      var a := |history| - max;
      DivModUnique(a, max, a / max, a % max);
    }
  }

  /** Position `i` of the rotated window, read back in window terms. */
  lemma RotatedAt(history: seq<real>, max: int, i: int)
    requires 0 <= i < |Rotated(history, max)|
    ensures var w, c := Window(history, max), Cursor(history, max);
      |Rotated(history, max)| == |w| && 0 <= c <= |w| &&
      Rotated(history, max)[i] == if i < c then w[|w| - c + i] else w[i - c]
  {
  }

  /** The length of a buffer never exceeds a positive capacity, and reaches it exactly at saturation. */
  lemma {:induction false} WindowLength(history: seq<real>, max: int)
    ensures |Window(history, max)| == if Saturated(history, max) then max else |history|
    ensures 1 <= max ==> |Window(history, max)| <= max
  {
  }

  /**
   * One append, seen chronologically: while growing the sample is added at the
   * end; once saturated the oldest sample is dropped as well.
   */
  lemma {:induction false} WindowAppend(history: seq<real>, max: int, x: real)
    ensures Window(history + [x], max) ==
      if Saturated(history, max) then Window(history, max)[1..] + [x] else Window(history, max) + [x]
  {
    var h' := history + [x];
    if Saturated(history, max) {
      assert h'[|h'| - max..] == history[|history| - max..][1..] + [x];
    } else if Saturated(h', max) {
      assert h'[|h'| - max..] == h';
    }
  }

  /**
   * One append moves the cursor: it advances modulo `max` once saturated and
   * is 0 before, also on the append that fills the buffer.
   */
  lemma CursorAppend(history: seq<real>, max: int, x: real)
    ensures Cursor(history + [x], max) == if Saturated(history, max) then (Cursor(history, max) + 1) % max else 0
    ensures Saturated(history, max) ==> 0 <= Cursor(history, max) < max && Saturated(history + [x], max)
  {
    if Saturated(history, max) {
      var a, c := |history| - max, Cursor(history, max);
      assert |history + [x]| - max == a + 1;
      ModSucc(a, max);
      if c + 1 == max {
        DivModUnique(c + 1, max, 1, 0);
      } else {
        DivModUnique(c + 1, max, 0, c + 1);
      }
    } else if Saturated(history + [x], max) {
      assert |history + [x]| - max == 0;
      DivModUnique(0, max, 0, 0);
    }
  }

  /**
   * Dropping the oldest element of a window and adding `x`, then rotating by
   * the advanced cursor, is the old rotation with its slot `c` overwritten.
   */
  lemma RotateAfterOverwrite(w: seq<real>, c: int, x: real)
    requires 0 <= c < |w|
    ensures var n, c' := |w|, if c + 1 == |w| then 0 else c + 1;
      var w' := w[1..] + [x];
      w'[n - c'..] + w'[..n - c'] == (w[n - c..] + w[..n - c])[c := x]
  {
    var n, c' := |w|, if c + 1 == |w| then 0 else c + 1;
    var w' := w[1..] + [x];
    var s', t := w'[n - c'..] + w'[..n - c'], (w[n - c..] + w[..n - c])[c := x];
    forall i | 0 <= i < n
      ensures s'[i] == t[i]
    {
      if i < c' {
        assert s'[i] == w'[n - c' + i];
      } else {
        assert s'[i] == w'[i - c'];
      }
    }
  }

  /** The closed form follows an append to a saturated buffer: the slot under the cursor is overwritten. */
  lemma {:induction false} RotatedAppendSaturated(history: seq<real>, max: int, x: real)
    requires Saturated(history, max)
    ensures 0 <= Cursor(history, max) < |Rotated(history, max)|
    ensures Rotated(history + [x], max) == Rotated(history, max)[Cursor(history, max) := x]
  {
    WindowAppend(history, max, x);
    ModSucc(|history| - max, max);
    var w, c := Window(history, max), Cursor(history, max);
    assert |w| == max;
    assert Cursor(history + [x], max) == if c + 1 == max then 0 else c + 1;
    RotateAfterOverwrite(w, c, x);
  }

  /** The closed form is the window itself while the cursor is at 0. */
  lemma RotatedAtCursorZero(history: seq<real>, max: int)
    requires Cursor(history, max) == 0
    ensures Rotated(history, max) == Window(history, max)
  {
    var w := Window(history, max);
    assert w[|w|..] + w[..|w|] == w;
  }

  /** The closed form follows an append to a growing buffer: the sample is added at the end. */
  lemma {:induction false} RotatedAppendGrowing(history: seq<real>, max: int, x: real)
    requires !Saturated(history, max)
    ensures Rotated(history + [x], max) == Rotated(history, max) + [x]
  {
    WindowAppend(history, max, x);
    CursorAppend(history, max, x);
    RotatedAtCursorZero(history, max);
    RotatedAtCursorZero(history + [x], max);
  }

  /** The storage left by the appends is the window rotated by the cursor. */
  lemma {:induction false} StorageIsRotated(history: seq<real>, max: int)
    ensures Storage(history, max) == Rotated(history, max)
    decreases |history|
  {
    if history != [] {
      var prev, x := history[..|history| - 1], history[|history| - 1];
      assert history == prev + [x];
      StorageIsRotated(prev, max);
      if Saturated(prev, max) {
        RotatedAppendSaturated(prev, max, x);
      } else {
        RotatedAppendGrowing(prev, max, x);
      }
    }
  }

  /** Rotating the storage by the cursor gives back the samples oldest first. */
  lemma StorageRotatesToWindow(history: seq<real>, max: int)
    ensures var s, c := Storage(history, max), Cursor(history, max);
      0 <= c <= |s| && s[c..] + s[..c] == Window(history, max)
  {
    StorageIsRotated(history, max);
    var w, c := Window(history, max), Cursor(history, max);
    var s := Storage(history, max);
    CursorInWindow(history, max);
    var front, back := w[|w| - c..], w[..|w| - c];
    assert s == front + back && |front| == c;
    assert s[..c] == front;
    assert s[c..] == back;
    assert w == back + front;
  }

  /** Storage order and chronological order agree whenever the cursor is at 0. */
  lemma StorageAtCursorZero(history: seq<real>, max: int)
    requires Cursor(history, max) == 0
    ensures Storage(history, max) == Window(history, max)
  {
    StorageIsRotated(history, max);
    RotatedAtCursorZero(history, max);
  }

  /**
   * Once the cursor has moved off 0, storage order is not chronological:
   * when the window holds distinct samples the two orders differ at their first position.
   */
  lemma StorageOrderDiffersAfterWrap(history: seq<real>, max: int)
    requires Saturated(history, max) && Cursor(history, max) != 0
    requires var w := Window(history, max); forall i, j :: 0 <= i < j < |w| ==> w[i] != w[j]
    ensures Storage(history, max) != Window(history, max)
    ensures Storage(history, max)[0] == Window(history, max)[max - Cursor(history, max)]
  {
    StorageIsRotated(history, max);
    RotatedAt(history, max, 0);
  }

  /**
   * The buffer itself.  `data`, `cur` and `full` are the source's fields (its
   * class swap becomes the `full` tag); `History` is the ghost record of all
   * appends, and Valid() keeps the fields equal to the functions above.
   */
  class RingBuffer {
    const max: int
    var data: seq<real>
    var cur: int
    var full: bool
    ghost var History: seq<real>

    ghost predicate Valid()
      reads this
    {
      && full == Saturated(History, max)
      && cur == Cursor(History, max)
      && data == Storage(History, max)
      && (full ==> |data| == max && 0 <= cur < max)
      && (!full ==> data == History && cur == 0 && (1 <= max ==> |data| < max))
    }

    constructor (sizeMax: int)
      ensures Valid() && max == sizeMax
      ensures History == [] && data == [] && !full
    {
      max := sizeMax;
      data := [];
      cur := 0;
      full := false;
      History := [];
    }

    /** Appends `x`, growing the buffer or, once it is full, overwriting its oldest sample. */
    method Append(x: real)
      requires Valid()
      modifies this
      ensures Valid()
      ensures History == old(History) + [x]
      ensures old(full) ==> full && data == old(data)[old(cur) := x] && cur == (old(cur) + 1) % max
      ensures !old(full) ==> data == old(data) + [x] && full == (|data| == max) && cur == 0
      ensures Get() == if old(full) then old(Get())[1..] + [x] else old(Get()) + [x]
    {
      WindowAppend(History, max, x);
      CursorAppend(History, max, x);
      assert (History + [x])[..|History|] == History;
      if full {
        data := data[cur := x];
        cur := (cur + 1) % max;
      } else {
        data := data + [x];
        if |data| == max {
          cur := 0;
          full := true;
        }
      }
      History := History + [x];
    }

    /** The samples oldest first (`get`): the storage rotated by the cursor once full. */
    function Get(): (s: seq<real>)
      reads this
      requires Valid()
      ensures s == Window(History, max)
    {
      StorageRotatesToWindow(History, max);
      if full then data[cur..] + data[..cur] else data
    }

    /** The raw storage (`get_as_numpy_array`): no rotation, so chronological only while the cursor is 0. */
    function Raw(): (s: seq<real>)
      reads this
      requires Valid()
      ensures 0 <= cur <= |s| && s[cur..] + s[..cur] == Get()
      ensures multiset(s) == multiset(Get())
      ensures cur == 0 ==> s == Get()
    {
      StorageRotatesToWindow(History, max);
      assert data == data[..cur] + data[cur..];
      data
    }

    /** Whether the buffer is in overwrite mode. */
    function IsFull(): (b: bool)
      reads this
      requires Valid()
      ensures b <==> 1 <= max <= |History|
      ensures b ==> |Raw()| == max
    {
      full
    }

    /** The number of samples held: grows by one per append, then stays at `max`. */
    function Len(): (n: int)
      reads this
      requires Valid()
      ensures n == |Get()|
      ensures n == if 1 <= max <= |History| then max else |History|
      ensures 1 <= max ==> n <= max
    {
      WindowLength(History, max);
      |data|
    }
  }
}
