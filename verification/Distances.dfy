/** In how many places two words of equal length differ. */
module Distances {

  function Distance<T(==)>(a: seq<T>, b: seq<T>): nat
    requires |a| == |b|
  {
    if a == [] then 0 else (if a[0] != b[0] then 1 else 0) + Distance(a[1..], b[1..])
  }

  lemma {:induction false} DistanceZero<T>(a: seq<T>, b: seq<T>)
    requires |a| == |b|
    ensures Distance(a, b) == 0 <==> a == b
  {
    if a != [] {
      DistanceZero(a[1..], b[1..]);
      assert a == [a[0]] + a[1..] && b == [b[0]] + b[1..];
    }
  }

  lemma {:induction false} Triangle<T>(a: seq<T>, b: seq<T>, c: seq<T>)
    requires |a| == |b| == |c|
    ensures Distance(a, c) <= Distance(a, b) + Distance(b, c) && Distance(a, b) == Distance(b, a)
  {
    if a != [] { Triangle(a[1..], b[1..], c[1..]); }
  }
}
