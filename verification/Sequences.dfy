/** Orders of places and of set elements. */
module Sequences {

  ghost predicate Increasing(s: seq<nat>) {
    forall i, j :: 0 <= i < j < |s| ==> s[i] < s[j]
  }

  /** The elements at the given places of the input. */
  ghost predicate At<T>(out: seq<T>, places: seq<nat>, input: seq<T>) {
    |out| == |places| && forall i :: 0 <= i < |places| ==> places[i] < |input| && out[i] == input[places[i]]
  }

  /** Each element once, in an order the environment picks. */
  method InSomeOrder<T>(s: set<T>) returns (r: seq<T>)
    ensures multiset(r) == multiset(s)
    ensures forall i, j :: 0 <= i < j < |r| ==> r[i] != r[j]
  {
    r := [];
    var rest := s;
    while rest != {}
      invariant rest <= s && multiset(r) + multiset(rest) == multiset(s)
      invariant forall i :: 0 <= i < |r| ==> r[i] !in rest
      invariant forall i, j :: 0 <= i < j < |r| ==> r[i] != r[j]
      decreases rest
    {
      var x :| x in rest;
      r := r + [x];
      rest := rest - {x};
    }
  }
}
