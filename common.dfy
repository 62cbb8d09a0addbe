/** Shared vocabulary: optional values (C# nullable types, TypeScript `| null`)
    and points in time. */
module Common {

  /** A value that may be absent: `T?` in C#, `T | null` in TypeScript. */
  datatype Option<+T> = None | Some(value: T) {

    /** The `??` operator: the value when present, `default` otherwise. */
    function GetOr(default: T): (r: T)
      ensures Some? ==> r == value
      ensures None? ==> r == default
    {
      match this
      case Some(v) => v
      case None => default
    }
  }

  /** A `DateTime`, as a count of ticks. */
  type Time = int

  /** A `TimeSpan`, as a (possibly negative) count of ticks. */
  type Duration = int

  function MinReal(a: real, b: real): (r: real)
    ensures r <= a && r <= b
    ensures r == a || r == b
  {
    if a <= b then a else b
  }

  /** The values a map holds under `ids`, in that order. */
  function ValuesAt<K, V>(m: map<K, V>, ids: seq<K>): (r: seq<V>)
    requires forall i :: 0 <= i < |ids| ==> ids[i] in m
    ensures |r| == |ids|
    ensures forall i :: 0 <= i < |ids| ==> r[i] == m[ids[i]]
  {
    if ids == [] then [] else [m[ids[0]]] + ValuesAt(m, ids[1..])
  }

  /** Concatenation is associative. */
  lemma ConcatAssoc<T>(a: seq<T>, b: seq<T>, c: seq<T>)
    ensures a + (b + c) == (a + b) + c
  {
  }
}
