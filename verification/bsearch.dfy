module Options {
  datatype Option<+T> = None | Some(value: T)
}

/** bsearch() of utils.c. */
module BSearch {
  import opened Options

  /** The key comes after a first part of the elements and before a last part of them. */
  ghost predicate Partitioned<K, T>(key: K, s: seq<T>, cmp: (K, T) -> int) {
    forall i, j :: 0 <= i < j < |s| ==>
      && (cmp(key, s[i]) < 0 ==> cmp(key, s[j]) < 0)
      && (cmp(key, s[j]) > 0 ==> cmp(key, s[i]) > 0)
  }

  /** Finds an element equal to the key if there is one. */
  method BSearch<K, T>(key: K, a: array<T>, count: nat, cmp: (K, T) -> int) returns (r: Option<nat>)
    requires count <= a.Length && Partitioned(key, a[..count], cmp)
    ensures r.Some? ==> r.value < count && cmp(key, a[r.value]) == 0
    ensures r.None? ==> forall i :: 0 <= i < count ==> cmp(key, a[i]) != 0
  {
    var base, nel := 0, count;
    ghost var s := a[..count];
    while nel > 0
      invariant 0 <= base && 0 <= nel && base + nel <= count
      invariant forall i :: 0 <= i < base ==> cmp(key, s[i]) != 0
      invariant forall i :: base + nel <= i < count ==> cmp(key, s[i]) != 0
      decreases nel
    {
      var try := base + nel / 2;
      var sign := cmp(key, a[try]);
      assert s[try] == a[try];
      if sign == 0 {
        return Some(try);
      } else if nel == 1 {
        break;
      } else if sign < 0 {
        nel := nel / 2;
      } else {
        base := try;
        nel := nel - nel / 2;
      }
    }
    assert forall i :: 0 <= i < count ==> s[i] == a[i];
    return None;
  }
}
