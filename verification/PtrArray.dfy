/** The resizable array of pointers (kern/lib/array.c). `memOk` says whether a
    call to kmalloc made during the operation would deliver memory. */
module PtrArray {
  import opened Basics

  /** The capacity after growing until `n` items fit. */
  function Grown(max: nat, n: int): (m: nat)
    ensures m >= n && m >= max && (n <= max ==> m == max)
    decreases n - max
  {
    if n > max then Grown((max + 1) * 2, n) else max
  }

  /** Growing in two steps ends where growing once for the larger demand does. */
  lemma {:induction false} GrownTwice(max: nat, n: int, m: int)
    ensures Grown(Grown(max, n), m) == Grown(max, if n < m then m else n)
    decreases n - max
  {
    if n > max {
      GrownTwice((max + 1) * 2, n, m);
    }
  }

  class Array<T(0)> {
    var num: int
    var max: int
    var v: array?<T>

    ghost predicate Valid()
      reads this, v
    {
      0 <= num <= max && (if v == null then max == 0 else v.Length == max)
    }

    ghost function Contents(): (s: seq<T>)
      requires Valid()
      reads this, v
      ensures |s| == num
    {
      if v == null then [] else v[..num]
    }

    constructor ()
      ensures Valid() && Contents() == [] && max == 0 && v == null
    {
      v := null;
      num, max := 0, 0;
    }

    /** Room for `nguys` items. It reallocates even when there is room already. */
    method Preallocate(nguys: int, memOk: bool) returns (code: int)
      requires Valid()
      modifies this
      ensures Valid() && Contents() == old(Contents())
      ensures code == if memOk then 0 else ENOMEM
      ensures max == (if memOk then Grown(old(max), nguys) else old(max))
      ensures if memOk then v != null && fresh(v) else v == old(v)
    {
      var newmax := max;
      while nguys > newmax
        invariant max <= newmax && Grown(newmax, nguys) == Grown(max, nguys)
        decreases nguys - newmax
      {
        newmax := (newmax + 1) * 2;
      }
      if !memOk {
        return ENOMEM;
      }
      var newv := new T[newmax];
      ghost var items := Contents();
      max := newmax;
      var i := 0;
      while i < num
        modifies newv
        invariant 0 <= i <= num && newv[..i] == items[..i]
      {
        newv[i] := v[i];
        i := i + 1;
      }
      v := newv;
      return 0;
    }

    /** Change the number of items; items below both numbers stay. Memory is
        needed only to go past the capacity, and going down to no items drops a
        capacity above 16. */
    method SetSize(nguys: nat, memOk: bool) returns (code: int)
      requires Valid()
      modifies this
      ensures Valid()
      ensures code == if nguys > old(max) && !memOk then ENOMEM else 0
      ensures code != 0 ==> num == old(num) && max == old(max) && v == old(v)
      ensures code == 0 ==> num == nguys
      ensures code == 0 ==> max == if nguys == 0 && old(max) > 16 then 0 else Grown(old(max), nguys)
      ensures code == 0 && 0 < nguys <= old(max) ==> v == old(v)
      ensures v == null || v == old(v) || fresh(v)
      ensures forall k :: 0 <= k < num && k < old(num) ==> Contents()[k] == old(Contents())[k]
    {
      if nguys > max {
        var result := Preallocate(nguys, memOk);
        if result != 0 {
          return result;
        }
        ghost var items := Contents();
        num := nguys;
        assert Contents()[..|items|] == items;
        return 0;
      } else if nguys == 0 && max > 16 {
        v := null;
        max := 0;
      }
      num := nguys;
      return 0;
    }

    /** Append one item; memory is needed only when the array is at capacity. */
    method Add(guy: T, memOk: bool) returns (code: int)
      requires Valid()
      modifies this, v
      ensures Valid()
      ensures code == if old(num) == old(max) && !memOk then ENOMEM else 0
      ensures Contents() == if code == 0 then old(Contents()) + [guy] else old(Contents())
      ensures max == if code == 0 then Grown(old(max), old(num) + 1) else old(max)
      ensures old(num) < old(max) || code != 0 ==> v == old(v)
      ensures v == old(v) || fresh(v)
    {
      var ix := num;
      var result := SetSize(ix + 1, memOk);
      if result != 0 {
        return result;
      }
      ghost var grown := Contents();
      v[ix] := guy;
      assert Contents() == grown[..ix] + [guy];
      return 0;
    }

    /** Take out the item at `index`, closing the gap. */
    method Remove(index: nat)
      requires Valid() && index < num
      modifies this`num, v
      ensures Valid() && max == old(max) && v == old(v)
      ensures Contents() == old(Contents())[..index] + old(Contents())[index + 1..]
    {
      var nmove := num - (index + 1);
      var i := 0;
      while i < nmove
        invariant 0 <= i <= nmove && num == old(num) && v == old(v)
        invariant forall k :: 0 <= k < index ==> v[k] == old(v[k])
        invariant forall k :: index <= k < index + i ==> v[k] == old(v[k + 1])
        invariant forall k :: index + i <= k < v.Length ==> v[k] == old(v[k])
      {
        v[index + i] := v[index + i + 1];
        i := i + 1;
      }
      num := num - 1;
    }
  }
}
