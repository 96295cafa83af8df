/** Small shared vocabulary: optional values, bytes, traces, and facts about sequences and ranges. */
module Prelude {

  datatype Option<+T> = None | Some(value: T)

  newtype Byte = x: int | 0 <= x < 256

  type Bytes = seq<Byte>

  /** What has happened so far, step after step. */
  datatype Trace<+S> = Start | After(before: Trace<S>, step: S)

  /** A run, and further steps. */
  function Extend<S>(trace: Trace<S>, more: seq<S>): Trace<S>
    decreases |more|
  {
    if more == [] then trace else Extend(After(trace, more[0]), more[1..])
  }

  function Max(a: int, b: int): (m: int)
    ensures m >= a && m >= b && (m == a || m == b)
  {
    if a > b then a else b
  }

  function Min(a: int, b: int): (m: int)
    ensures m <= a && m <= b && (m == a || m == b)
  {
    if a < b then a else b
  }

  function Last<T>(s: seq<T>): T
    requires |s| > 0
  {
    s[|s| - 1]
  }

  /** The concatenation of a sequence of sequences. */
  function Flatten<T>(parts: seq<seq<T>>): seq<T> {
    if parts == [] then [] else parts[0] + Flatten(parts[1..])
  }

  lemma {:induction false} FlattenSnoc<T>(parts: seq<seq<T>>, p: seq<T>)
    ensures Flatten(parts + [p]) == Flatten(parts) + p
  {
    if parts == [] {
      assert parts + [p] == [p] && [p][1..] == [];
    } else {
      FlattenSnoc(parts[1..], p);
      assert (parts + [p])[1..] == parts[1..] + [p];
      assert parts[0] + (Flatten(parts[1..]) + p) == parts[0] + Flatten(parts[1..]) + p;
    }
  }

  /** The whole numbers from `lo` up to, and without, `hi`. */
  function Range(lo: int, hi: int): (r: set<int>)
    ensures forall k :: k in r <==> lo <= k < hi
    ensures |r| == Max(0, hi - lo)
    decreases hi - lo
  {
    if lo >= hi then {} else Range(lo, hi - 1) + {hi - 1}
  }
}
