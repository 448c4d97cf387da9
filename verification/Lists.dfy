/** Lists without repeats, and folding over a list of steps. */
module Lists {
  predicate NoDuplicates<T(==)>(list: seq<T>) {
    forall i, j :: 0 <= i < j < |list| ==> list[i] != list[j]
  }

  /** `w` after `steps`. */
  function Fold<W, T>(f: (W, T) -> W, w: W, steps: seq<T>): W {
    if steps == [] then w else f(Fold(f, w, steps[..|steps| - 1]), steps[|steps| - 1])
  }

  lemma {:induction false} FoldSplit<W, T>(f: (W, T) -> W, w: W, a: seq<T>, b: seq<T>)
    ensures Fold(f, w, a + b) == Fold(f, Fold(f, w, a), b)
    decreases b
  {
    if b == [] {
      assert a + b == a;
    } else {
      FoldSplit(f, w, a, b[..|b| - 1]);
      assert (a + b)[..|a + b| - 1] == a + b[..|b| - 1];
    }
  }

  function Times<T>(k: nat, step: T): seq<T> {
    seq(k, _ => step)
  }

  /** `w` after `k` times the same step. */
  function Again<W, T>(f: (W, T) -> W, w: W, k: nat, step: T): W
    decreases k
  {
    if k == 0 then w else Again(f, f(w, step), k - 1, step)
  }

  lemma {:induction false} FoldTimes<W, T>(f: (W, T) -> W, w: W, k: nat, step: T)
    ensures Fold(f, w, Times(k, step)) == Again(f, w, k, step)
    decreases k
  {
    if k > 0 {
      var one := [step];
      assert Times(k, step) == one + Times(k - 1, step);
      FoldSplit(f, w, one, Times(k - 1, step));
      assert one[..0] == [];
      FoldTimes(f, f(w, step), k - 1, step);
    }
  }
}
