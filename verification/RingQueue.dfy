/** The queue of pointers (kern/lib/queue.c): a ring that doubles when it is
    full. `memOk` says whether a call to kmalloc made during the operation would
    deliver memory. */
module RingQueue {
  import opened Basics

  /** The size after doubling until the target is met. */
  function Doubled(size: nat, target: int): (n: nat)
    requires size > 0
    ensures n >= target && n >= size && (target <= size ==> n == size)
    decreases target - size
  {
    if size < target then Doubled(2 * size, target) else size
  }

  /** Doubling stops at the first sufficient size: half of it was too small. */
  lemma DoubledIsLeast(size: nat, target: int)
    requires 0 < size < target
    ensures Doubled(size, target) < 2 * target
    decreases target - size
  {
    if 2 * size < target {
      DoubledIsLeast(2 * size, target);
    }
  }

  lemma {:induction false} DoubledTwice(size: nat, n: int, m: int)
    requires size > 0
    ensures Doubled(Doubled(size, n), m) == Doubled(size, if n < m then m else n)
    decreases n - size
  {
    if size < n {
      DoubledTwice(2 * size, n, m);
    }
  }

  lemma DoubledOnce(size: nat)
    requires size > 0
    ensures Doubled(size, size + 1) == 2 * size
  {
  }

  /** The next index around a ring of size `n`. */
  function Next(i: int, n: int): (r: int)
    requires 0 <= i < n
    ensures r == if i + 1 == n then 0 else i + 1
  {
    (i + 1) % n
  }

  /** The items of a ring with storage `d`, from index `r` up to index `w`. */
  ghost function Items<T>(d: seq<T>, r: int, w: int): (s: seq<T>)
    requires 0 <= r < |d| && 0 <= w < |d|
    ensures |s| == if r <= w then w - r else |d| - r + w
  {
    if r <= w then d[r..w] else d[r..] + d[..w]
  }

  lemma ItemsAt<T>(d: seq<T>, r: int, w: int, k: int)
    requires 0 <= r < |d| && 0 <= w < |d| && 0 <= k < |Items(d, r, w)|
    ensures Items(d, r, w)[k] == d[if r + k < |d| then r + k else r + k - |d|]
  {
  }

  lemma ItemsPush<T>(d: seq<T>, r: int, w: int, x: T)
    requires 0 <= r < |d| && 0 <= w < |d| && Next(w, |d|) != r
    ensures Items(d[w := x], r, Next(w, |d|)) == Items(d, r, w) + [x]
  {
    hide Next;
  }

  lemma ItemsPop<T>(d: seq<T>, r: int, w: int)
    requires 0 <= r < |d| && 0 <= w < |d| && r != w
    ensures Items(d, r, w) == [d[r]] + Items(d, Next(r, |d|), w)
  {
    hide Next;
  }

  class Ring<T(0)> {
    var size: int
    var nextwrite: int
    var nextread: int
    var data: array<T>

    ghost predicate Valid()
      reads this, data
    {
      0 < size == data.Length && 0 <= nextread < size && 0 <= nextwrite < size
    }

    /** What is in the queue, oldest first. */
    ghost function Contents(): (s: seq<T>)
      requires Valid()
      reads this, data
      ensures |s| < size
    {
      Items(data[..], nextread, nextwrite)
    }

    /** One slot always stays empty, so a ring of size n is full with n - 1 items. */
    ghost predicate Full()
      requires Valid()
      reads this, data
    {
      |Contents()| == size - 1
    }

    constructor (n: nat)
      requires n > 0
      ensures Valid() && size == n && Contents() == [] && fresh(data)
    {
      size := n;
      data := new T[n];
      nextread, nextwrite := 0, 0;
    }

    predicate Empty()
      reads this
    {
      nextwrite == nextread
    }

    lemma EmptyIffNoContents()
      requires Valid()
      ensures Empty() <==> Contents() == []
    {
    }

    /** Room for at least `target` slots. The contents stay as they are whether
        or not memory was found. */
    method Grow(target: int, memOk: bool) returns (code: int)
      requires Valid() && |Contents()| < target
      modifies this, data
      ensures Valid() && Contents() == old(Contents())
      ensures code == if memOk then 0 else ENOMEM
      ensures memOk ==> size == Doubled(old(size), target) && fresh(data)
      ensures !memOk ==> size == old(size) && data == old(data) && nextread == old(nextread) && nextwrite == old(nextwrite)
      decreases 1
    {
      hide Next, Items;
      var olddata, onr, onw, osize := data, nextread, nextwrite, size;
      ghost var items := Contents();
      var nsize := size;
      while nsize < target
        invariant size <= nsize && Doubled(nsize, target) == Doubled(size, target)
        decreases target - nsize
      {
        nsize := nsize * 2;
      }
      if !memOk {
        return ENOMEM;
      }
      data := new T[nsize];
      size := nsize;
      nextread, nextwrite := 0, 0;
      var i := onr;
      ghost var k := 0;
      while i != onw
        invariant Valid() && size == nsize && fresh(data) && data != olddata
        invariant olddata[..] == old(data[..])
        invariant 0 <= k <= |items| && i == (if onr + k < osize then onr + k else onr + k - osize)
        invariant Contents() == items[..k]
        decreases |items| - k
      {
        ItemsAt(olddata[..], onr, onw, k);
        var result := AddTail(olddata[i], memOk);
        assert result == 0;
        i := Next(i, osize);
        k := k + 1;
      }
      return 0;
    }

    /** Append one item, or report that no memory was found and change nothing.
        Memory is needed only when the ring is full, and the recursion through
        `Grow` ends because the calls it makes find room. */
    method AddTail(ptr: T, memOk: bool) returns (code: int)
      requires Valid()
      modifies this, data
      ensures Valid()
      ensures code == if old(Full()) && !memOk then ENOMEM else 0
      ensures Contents() == if code == 0 then old(Contents()) + [ptr] else old(Contents())
      ensures !old(Full()) ==> size == old(size) && data == old(data)
      ensures old(Full()) && memOk ==> size == 2 * old(size) && fresh(data)
      ensures code != 0 ==> size == old(size) && data == old(data) && nextread == old(nextread) && nextwrite == old(nextwrite)
      decreases if Full() then 2 else 0
    {
      hide Next, Doubled, Items;
      var nextnext := Next(nextwrite, size);
      if nextnext == nextread {
        var result := Grow(size + 1, memOk);
        if result != 0 {
          return result;
        }
        DoubledOnce(old(size));
        nextnext := Next(nextwrite, size);
      }
      ItemsPush(data[..], nextread, nextwrite, ptr);
      data[nextwrite] := ptr;
      nextwrite := nextnext;
      return 0;
    }

    /** Take the oldest item out. */
    method RemHead() returns (ret: T)
      requires Valid() && !Empty()
      modifies this`nextread
      ensures Valid()
      ensures old(Contents()) == [ret] + Contents()
    {
      hide Next, Items;
      ItemsPop(data[..], nextread, nextwrite);
      ret := data[nextread];
      nextread := Next(nextread, size);
    }

    method Preallocate(n: int, memOk: bool) returns (code: int)
      requires Valid()
      modifies this, data
      ensures Valid() && Contents() == old(Contents())
      ensures code == if n > old(size) && !memOk then ENOMEM else 0
      ensures code == 0 ==> size == Doubled(old(size), n)
      ensures code != 0 || n <= old(size) ==> size == old(size) && data == old(data)
      ensures data == old(data) || fresh(data)
    {
      code := 0;
      if n > size {
        code := Grow(n, memOk);
      }
    }
  }
}
