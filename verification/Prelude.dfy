/** Small helpers shared by every module: optional values and facts about finite sets. */
module Prelude {

  datatype Option<+T> = None | Some(value: T)

  /** A subset has no more elements than its superset. */
  lemma SubsetSize<T>(a: set<T>, b: set<T>)
    requires a <= b
    ensures |a| <= |b|
  {
    assert b == a + (b - a);
    assert |a + (b - a)| == |a| + |b - a|;
  }

  /** Adding one new element to a set adds one to its size. */
  lemma AddedSize<T>(a: set<T>, x: T, b: set<T>)
    requires x !in a && b == a + {x}
    ensures |b| == |a| + 1
  {
  }

  /** The size of a disjoint union is the sum of the sizes. */
  lemma DisjointSize<T>(a: set<T>, b: set<T>)
    requires a !! b
    ensures |a + b| == |a| + |b|
  {
  }

  /** Inclusion and exclusion for two finite sets. */
  lemma UnionSize<T>(a: set<T>, b: set<T>)
    ensures |a + b| + |a * b| == |a| + |b|
  {
    assert a + b == a + (b - a);
    assert b == (b - a) + (a * b);
    assert |b| == |b - a| + |a * b|;
  }

  lemma AppendAssociates<T>(a: seq<T>, b: seq<T>, c: seq<T>)
    ensures (a + b) + c == a + (b + c)
  {
  }

  /** A concatenation begins with the first element of a nonempty first part. */
  lemma ConsAppend<T>(v: seq<T>, y: seq<T>)
    requires v != []
    ensures v + y == [v[0]] + (v[1..] + y)
    ensures (v + y)[0] == v[0] && (v + y)[1..] == v[1..] + y
  {
  }
}
