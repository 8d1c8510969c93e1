/**
 Small shared vocabulary: an optional value and a few sequence functions used
 by both recorder/player prototypes.
 */
module Common {

  /** A value that may be absent (a missing dict key, a `None` attribute). */
  datatype Option<+T> = None | Some(value: T) {
    /** The value, or `default` when absent (Python's `d.get(k, default)`). */
    function GetOr(default: T): T {
      match this
      case Some(v) => v
      case None => default
    }
  }

  /** `k` copies of `s`, one after the other. */
  function Repeat<T>(s: seq<T>, k: nat): seq<T>
  {
    if k == 0 then [] else s + Repeat(s, k - 1)
  }

  /** The position within a pass of global step `k`, for passes of `n` events
      (`k % n`, computed by subtracting whole passes). */
  function Cycle(k: nat, n: nat): (i: nat)
    requires n > 0
    ensures i < n
    ensures k < n ==> i == k
    decreases k
  {
    if k < n then k else Cycle(k - n, n)
  }

  /** The pass that global step `k` falls in, for passes of `n` events (`k / n`). */
  function PassOf(k: nat, n: nat): nat
    requires n > 0
    decreases k
  {
    if k < n then 0 else PassOf(k - n, n) + 1
  }

  /** The first global step of pass `q`, for passes of `n` events (`q * n`,
      kept linear for the solver). */
  function PassStart(q: nat, n: nat): nat
  {
    if q == 0 then 0 else PassStart(q - 1, n) + n
  }

  lemma {:induction false} PassStartIsProduct(q: nat, n: nat)
    ensures PassStart(q, n) == q * n
  {
    if q > 0 {
      PassStartIsProduct(q - 1, n);
      assert q * n == (q - 1) * n + n;
    }
  }

  /** Step `j` of pass `q` is position `j` of pass `q`. */
  lemma {:induction false} CycleOf(q: nat, n: nat, j: nat)
    requires j < n
    ensures Cycle(PassStart(q, n) + j, n) == j
    ensures PassOf(PassStart(q, n) + j, n) == q
  {
    if q > 0 {
      CycleOf(q - 1, n, j);
    }
  }

  /** One more copy may be appended at the back as well as at the front. */
  lemma {:induction false} RepeatSnoc<T>(s: seq<T>, k: nat)
    ensures Repeat(s, k + 1) == Repeat(s, k) + s
  {
    if k > 0 {
      RepeatSnoc(s, k - 1);
      assert s + (Repeat(s, k - 1) + s) == (s + Repeat(s, k - 1)) + s;
    }
  }

  lemma {:induction false} RepeatLength<T>(s: seq<T>, k: nat)
    ensures |Repeat(s, k)| == k * |s|
  {
    if k > 0 {
      RepeatLength(s, k - 1);
      assert k * |s| == |s| + (k - 1) * |s|;
    }
  }
}
