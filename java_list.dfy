/** The java.util.List operations the adapter relies on, on values.
    Java's equals is modelled by an identity key: two elements are equal
    when `key` maps them to the same value, which makes equals an
    equivalence relation as the List contract assumes. */
module JavaList {
  import opened Wrappers

  /** List.indexOf: the first position holding an element equal to x, or -1. */
  function IndexOf<T, K(==)>(s: seq<T>, x: T, key: T -> K): (r: int)
    ensures -1 <= r < |s|
    ensures r == -1 <==> forall j :: 0 <= j < |s| ==> key(s[j]) != key(x)
    ensures 0 <= r ==> key(s[r]) == key(x) && forall j :: 0 <= j < r ==> key(s[j]) != key(x)
    decreases |s|
  {
    if |s| == 0 then -1
    else if key(s[0]) == key(x) then 0
    else
      var k := IndexOf(s[1..], x, key);
      if k == -1 then -1 else k + 1
  }

  /** List.contains. */
  predicate Contains<T, K(==)>(s: seq<T>, x: T, key: T -> K)
    ensures Contains(s, x, key) <==> exists j :: 0 <= j < |s| && key(s[j]) == key(x)
  {
    IndexOf(s, x, key) != -1
  }

  /** List.add(index, element): inserts before position i; throws unless
      0 <= i <= size. */
  function Insert<T>(s: seq<T>, i: int, x: T): (r: Outcome<seq<T>>)
    ensures r.IndexOutOfBounds? <==> !(0 <= i <= |s|)
    ensures r.Returned? ==> |r.value| == |s| + 1 && r.value[i] == x
    ensures r.Returned? ==> forall j :: 0 <= j < i ==> r.value[j] == s[j]
    ensures r.Returned? ==> forall j :: i < j <= |s| ==> r.value[j] == s[j - 1]
  {
    if 0 <= i <= |s| then Returned(s[..i] + [x] + s[i..]) else IndexOutOfBounds
  }

  /** List.remove(int index): drops position i; throws unless 0 <= i < size. */
  function RemoveAt<T>(s: seq<T>, i: int): (r: Outcome<seq<T>>)
    ensures r.IndexOutOfBounds? <==> !(0 <= i < |s|)
    ensures r.Returned? ==> |r.value| + 1 == |s|
    ensures r.Returned? ==> forall j :: 0 <= j < i ==> r.value[j] == s[j]
    ensures r.Returned? ==> forall j :: i <= j < |r.value| ==> r.value[j] == s[j + 1]
  {
    if 0 <= i < |s| then Returned(s[..i] + s[i + 1..]) else IndexOutOfBounds
  }

  /** List.set(index, element): replaces position i; throws unless
      0 <= i < size. */
  function Set<T>(s: seq<T>, i: int, x: T): (r: Outcome<seq<T>>)
    ensures r.IndexOutOfBounds? <==> !(0 <= i < |s|)
    ensures r.Returned? ==> |r.value| == |s| && r.value[i] == x
    ensures r.Returned? ==> forall j :: 0 <= j < |s| && j != i ==> r.value[j] == s[j]
  {
    if 0 <= i < |s| then Returned(s[i := x]) else IndexOutOfBounds
  }

  /** List.remove(Object): walks the list and drops the first element equal
      to x; the list is unchanged when there is none. */
  function RemoveFirst<T, K(==)>(s: seq<T>, x: T, key: T -> K): (r: seq<T>)
    ensures IndexOf(s, x, key) == -1 ==> r == s
    ensures IndexOf(s, x, key) != -1 ==>
              var i := IndexOf(s, x, key); r == s[..i] + s[i + 1..]
    decreases |s|
  {
    if |s| == 0 then s
    else if key(s[0]) == key(x) then s[1..]
    else
      var k := IndexOf(s[1..], x, key);
      assert IndexOf(s, x, key) == if k == -1 then -1 else k + 1;
      assert k != -1 ==> [s[0]] + (s[1..][..k] + s[1..][k + 1..]) == s[..k + 1] + s[k + 2..];
      [s[0]] + RemoveFirst(s[1..], x, key)
  }
}
