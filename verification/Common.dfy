/** Small datatypes shared by the modules of the model. */
module Common {

  datatype Option<+T> = None | Some(value: T)

  /** What a stream does with an event when its buffer is full. */
  datatype Policy = Fifo | Latest

  datatype Result<+T, +E> = Ok(value: T) | Err(error: E)

  /** The entries of a sequence are strictly increasing. */
  ghost predicate Increasing(s: seq<nat>) {
    forall i, j :: 0 <= i < j < |s| ==> s[i] < s[j]
  }

  predicate Distinct(s: seq<nat>) {
    forall i, j :: 0 <= i < j < |s| ==> s[i] != s[j]
  }

  function Elements(s: seq<nat>): (r: set<nat>)
    ensures forall i: nat :: i in r <==> i in s
  {
    set i | i in s
  }

  lemma {:induction false} DistinctCount(s: seq<nat>)
    requires Distinct(s)
    ensures |Elements(s)| == |s|
  {
    if s != [] {
      var front := s[..|s| - 1];
      DistinctCount(front);
      assert Elements(s) == Elements(front) + {s[|s| - 1]};
    }
  }

  /** The naturals from lo up to hi. */
  function Range(lo: nat, hi: nat): (s: seq<nat>)
    requires lo <= hi
    ensures |s| == hi - lo
    ensures forall i :: 0 <= i < |s| ==> s[i] == lo + i
  {
    seq(hi - lo, i requires 0 <= i => lo + i)
  }
}
