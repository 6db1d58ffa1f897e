/** Selecting positions by a test: the common shape of the ingredient-slot
    scan (slots 1..20 that hold an ingredient) and of the debounce (the
    keystrokes that are followed by a quiet period). */
module Indices {

  /** The numbers of `from..to-1` that pass `p`, in ascending order. */
  function Where(p: nat -> bool, from: nat, to: nat): seq<nat>
    decreases (to as int) - (from as int)
  {
    if from >= to then []
    else if p(from) then [from] + Where(p, from + 1, to)
    else Where(p, from + 1, to)
  }

  predicate Ascending(xs: seq<nat>) {
    forall j, k :: 0 <= j < k < |xs| ==> xs[j] < xs[k]
  }

  /** `Where` lists every passing number of the range and nothing else,
      each once, in ascending order. */
  lemma {:induction false} WhereSpec(p: nat -> bool, from: nat, to: nat)
    requires from <= to
    decreases (to as int) - (from as int)
    ensures |Where(p, from, to)| <= to - from
    ensures forall j :: 0 <= j < |Where(p, from, to)| ==>
              from <= Where(p, from, to)[j] < to && p(Where(p, from, to)[j])
    ensures Ascending(Where(p, from, to))
    ensures forall i :: from <= i < to && p(i) ==> i in Where(p, from, to)
  {
    if from < to {
      WhereSpec(p, from + 1, to);
      var rest := Where(p, from + 1, to);
      if p(from) {
        var idx := [from] + rest;
        assert Where(p, from, to) == idx;
        assert forall j :: 1 <= j < |idx| ==> idx[j] == rest[j - 1];
      }
    }
  }

  /** When exactly the numbers below `n` pass, `Where` is the run
      `from, from + 1, ..., n - 1`. */
  lemma {:induction false} WhereInitialRun(p: nat -> bool, from: nat, to: nat, n: nat)
    requires from <= n <= to
    requires (forall i :: from <= i < to ==> (p(i) <==> i < n))
    decreases (to as int) - (from as int)
    ensures |Where(p, from, to)| == n - from
    ensures forall k :: 0 <= k < n - from ==> Where(p, from, to)[k] == from + k
  {
    if from < to {
      if from < n {
        WhereInitialRun(p, from + 1, to, n);
        var rest := Where(p, from + 1, to);
        assert Where(p, from, to) == [from] + rest;
        assert forall k :: 1 <= k < n - from ==> Where(p, from, to)[k] == rest[k - 1];
      } else {
        WhereNone(p, from, to);
      }
    }
  }

  /** When no number of the range passes, `Where` is empty. */
  lemma {:induction false} WhereNone(p: nat -> bool, from: nat, to: nat)
    requires (forall i :: from <= i < to ==> !p(i))
    decreases (to as int) - (from as int)
    ensures Where(p, from, to) == []
  {
    if from < to {
      WhereNone(p, from + 1, to);
    }
  }

  /** When nothing before the last number of the range passes, `Where` holds
      at most that last number. */
  lemma {:induction false} WhereOnlyLast(p: nat -> bool, from: nat, to: nat)
    requires from < to
    requires (forall i :: from <= i < to - 1 ==> !p(i))
    decreases (to as int) - (from as int)
    ensures Where(p, from, to) == if p(to - 1) then [to - 1] else []
  {
    if from < to - 1 {
      WhereOnlyLast(p, from + 1, to);
    } else {
      assert Where(p, from + 1, to) == [];
    }
  }
}
