/** Datatypes shared by every component of the model. */
module Common {

  newtype byte = b: int | 0 <= b < 256

  type Bytes = seq<byte>

  /** What a component is called. */
  datatype Key = Key(name: string, version: string)

  datatype Option<+T> = None | Some(value: T)

  /** A Go call that returns `(value, error)`; the error side carries the branch that failed. */
  datatype Result<+T, +E> = Ok(value: T) | Err(error: E) {

    predicate IsFailure() {
      Err?
    }

    function PropagateFailure<U>(): Result<U, E>
      requires Err?
    {
      Err(error)
    }

    function Extract(): T
      requires Ok?
    {
      value
    }
  }

  /** `for _, x := range xs { y, err := f(x); if err != nil { return err }; ys = append(ys, y) }` */
  function TryMap<A, B, E>(f: A -> Result<B, E>, xs: seq<A>): Result<seq<B>, E> {
    if xs == [] then
      Ok([])
    else
      var ys :- TryMap(f, xs[..|xs| - 1]);
      var y :- f(xs[|xs| - 1]);
      Ok(ys + [y])
  }

  /** One iteration of such a loop: it either extends the result or ends the whole loop with the error. */
  lemma TryMapStep<A, B, E>(f: A -> Result<B, E>, xs: seq<A>, i: nat)
    requires i < |xs| && TryMap(f, xs[..i]).Ok?
    ensures f(xs[i]).Ok? ==> TryMap(f, xs[..i + 1]) == Ok(TryMap(f, xs[..i]).value + [f(xs[i]).value])
    ensures f(xs[i]).Err? ==> TryMap(f, xs) == Err(f(xs[i]).error)
  {
    assert xs[..i + 1][..i] == xs[..i];
    if f(xs[i]).Err? {
      TryMapStops(f, xs, i + 1);
    }
  }

  lemma {:induction false} TryMapStops<A, B, E>(f: A -> Result<B, E>, xs: seq<A>, i: nat)
    requires i <= |xs| && TryMap(f, xs[..i]).Err?
    ensures TryMap(f, xs) == TryMap(f, xs[..i])
  {
    if i == |xs| {
      assert xs[..i] == xs;
    } else {
      assert xs[..|xs| - 1][..i] == xs[..i];
      TryMapStops(f, xs[..|xs| - 1], i);
    }
  }

  /** The loop succeeds exactly when every element does, and then collects the results in order. */
  lemma {:induction false} TryMapOk<A, B, E>(f: A -> Result<B, E>, xs: seq<A>, ys: seq<B>)
    ensures TryMap(f, xs) == Ok(ys) <==> |ys| == |xs| && forall i :: 0 <= i < |xs| ==> f(xs[i]) == Ok(ys[i])
  {
    if xs != [] {
      var m := |xs| - 1;
      if |ys| == |xs| {
        TryMapOk(f, xs[..m], ys[..m]);
        assert ys == ys[..m] + [ys[m]];
        assert forall i :: 0 <= i < m ==> xs[..m][i] == xs[i] && ys[..m][i] == ys[i];
      }
      if TryMap(f, xs[..m]).Ok? {
        TryMapOk(f, xs[..m], TryMap(f, xs[..m]).value);
      }
    }
  }

  /** The loop succeeds exactly when every element does. */
  lemma {:induction false} TryMapOkIff<A, B, E>(f: A -> Result<B, E>, xs: seq<A>)
    ensures TryMap(f, xs).Ok? <==> forall i :: 0 <= i < |xs| ==> f(xs[i]).Ok?
  {
    if xs != [] {
      var m := |xs| - 1;
      TryMapOkIff(f, xs[..m]);
      assert forall i :: 0 <= i < m ==> xs[..m][i] == xs[i];
    }
  }

  /** Where `f` does not fail with `e`, `g` does what `f` does; then so do the loops. */
  lemma {:induction false} TryMapRefined<A, B, E>(f: A -> Result<B, E>, g: A -> Result<B, E>, xs: seq<A>, e: E)
    requires forall i :: 0 <= i < |xs| && f(xs[i]) != Err(e) ==> g(xs[i]) == f(xs[i])
    requires TryMap(f, xs) != Err(e)
    ensures TryMap(g, xs) == TryMap(f, xs)
  {
    if xs != [] {
      TryMapRefined(f, g, xs[..|xs| - 1], e);
    }
  }

  /** Loops over functions that agree on every element agree. */
  lemma {:induction false} TryMapSame<A, B, E>(f: A -> Result<B, E>, g: A -> Result<B, E>, xs: seq<A>)
    requires forall i :: 0 <= i < |xs| ==> f(xs[i]) == g(xs[i])
    ensures TryMap(f, xs) == TryMap(g, xs)
  {
    if xs != [] {
      TryMapSame(f, g, xs[..|xs| - 1]);
    }
  }

  /** The same for functions that agree element by element on two lists. */
  lemma {:induction false} TryMapAlike<A, B, E>(
    f: A -> Result<B, E>, xs: seq<A>, g: A -> Result<B, E>, ys: seq<A>)
    requires |xs| == |ys| && forall i :: 0 <= i < |xs| ==> f(xs[i]) == g(ys[i])
    ensures TryMap(f, xs) == TryMap(g, ys)
  {
    if xs != [] {
      TryMapAlike(f, xs[..|xs| - 1], g, ys[..|ys| - 1]);
    }
  }

  lemma {:induction false} TryMapAvoids<A, B, E>(f: A -> Result<B, E>, xs: seq<A>, e: E)
    requires forall i :: 0 <= i < |xs| ==> f(xs[i]) != Err(e)
    ensures TryMap(f, xs) != Err(e)
  {
    if xs != [] {
      TryMapAvoids(f, xs[..|xs| - 1], e);
    }
  }

  function Pow2(k: nat): nat {
    if k == 0 then 1 else 2 * Pow2(k - 1)
  }

  lemma {:induction false} Pow2Positive(k: nat)
    ensures Pow2(k) > 0
  {
    if k > 0 {
      Pow2Positive(k - 1);
    }
  }
}
