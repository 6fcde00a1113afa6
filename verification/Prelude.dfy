/** What several parts of the model share. */
module Prelude {

  datatype Option<T> = None | Some(value: T)

  /** The numbers lo, ..., hi - 1: disk blocks or page frames. */
  function Range(lo: nat, hi: nat): (s: set<nat>)
    ensures forall a :: a in s <==> lo <= a < hi
    decreases hi
  {
    if hi <= lo then {} else Range(lo, hi - 1) + {hi - 1}
  }

  /** The number of elements of s, counted one by one; CardIs says it is |s|. */
  ghost function Card(s: set<nat>): (n: nat)
    decreases s
  {
    if s == {} then 0 else
    var x :| x in s;
    1 + Card(s - {x})
  }

  lemma CardIs(s: set<nat>)
    ensures Card(s) == |s|
    decreases s
  {
    if s != {} {
      var x :| x in s && Card(s) == 1 + Card(s - {x});
      CardIs(s - {x});
    }
  }

  lemma CardLess(s: set<nat>, x: nat)
    requires x in s
    ensures Card(s - {x}) == Card(s) - 1
  {
    CardIs(s);
    CardIs(s - {x});
  }
}
