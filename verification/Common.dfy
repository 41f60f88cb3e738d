/** What several modules share: optional values, the greater of two numbers, counting, and regrouping of lists. */
module Common {

  datatype Option<T> = None | Some(value: T)

  function Max(x: nat, y: nat): nat { if x >= y then x else y }

  /** One more position in a set of positions, or none. */
  lemma OneMore(s: set<nat>, more: set<nat>, n: nat, hit: bool)
    requires n !in s && more == if hit then s + {n} else s
    ensures |more| == |s| + if hit then 1 else 0
  {}

  lemma Regroup<T>(x: seq<T>, y: seq<T>, z: seq<T>)
    ensures (x + y) + z == x + (y + z)
  {}
}
