/** Small result types shared by the models. */
module Outcomes {

  datatype Option<+T> = None | Some(value: T)

  /** What one call into a repository or a store came to: the process died inside the
      call, or the call returned. `:-` on a Call therefore passes a crash straight up. */
  datatype Call<+T> = Crashed | Done(value: T) {
    predicate IsFailure() { Crashed? }

    function PropagateFailure<U>(): Call<U>
      requires Crashed?
    {
      Crashed
    }

    function Extract(): T
      requires Done?
    {
      value
    }
  }

  function Lookup<K, V>(m: map<K, V>, k: K): Option<V> {
    if k in m then Some(m[k]) else None
  }

  lemma SubsetSize<T>(a: set<T>, b: set<T>)
    requires a <= b
    ensures |a| <= |b|
    ensures |a| == |b| ==> a == b
  {
    assert b == a + (b - a);
    assert |b - a| == |b| - |a|;
  }
}
