/** Failure-compatible wrappers used by the loader: an optional value and a
    success-or-error result, both usable with `:-`. */
module Results {

  /** A value that may be missing. */
  datatype Option<+T> = None | Some(value: T)

  /** Either a computed value or the error that aborted the computation. */
  datatype Result<+T, +E> = Success(value: T) | Failure(error: E) {

    predicate IsFailure() {
      Failure?
    }

    function PropagateFailure<U>(): Result<U, E>
      requires Failure?
    {
      Failure(error)
    }

    function Extract(): T
      requires Success?
    {
      value
    }
  }

  /** Runs through a sequence of outcomes in order and stops at the first
      failure: all the values when every outcome succeeded, otherwise the
      error of the earliest failure. */
  function Collect<T, E>(rs: seq<Result<T, E>>): (r: Result<seq<T>, E>)
    ensures r.Success? <==> forall k :: 0 <= k < |rs| ==> rs[k].Success?
    ensures r.Success? ==> |r.value| == |rs| && forall k :: 0 <= k < |rs| ==> rs[k] == Success(r.value[k])
    ensures r.Failure? ==>
      exists k :: 0 <= k < |rs| && rs[k] == Failure(r.error) && (forall j :: 0 <= j < k ==> rs[j].Success?)
  {
    if |rs| == 0 then Success([])
    else
      var head :- rs[0];
      var tail :- Collect(rs[1..]);
      assert forall k :: 1 <= k < |rs| ==> rs[k] == rs[1..][k - 1];
      Success([head] + tail)
  }

  /** Collecting two runs one after the other is collecting the first and,
      if it succeeded, the second. */
  lemma {:induction false} CollectAppend<T, E>(a: seq<Result<T, E>>, b: seq<Result<T, E>>)
    ensures Collect(a + b) ==
      if Collect(a).Failure? then Collect(a)
      else if Collect(b).Failure? then Failure(Collect(b).error)
      else Success(Collect(a).value + Collect(b).value)
  {
    if |a| == 0 {
      assert a + b == b;
      if Collect(b).Success? {
        assert [] + Collect(b).value == Collect(b).value;
      }
    } else {
      assert (a + b)[0] == a[0];
      assert (a + b)[1..] == a[1..] + b;
      CollectAppend(a[1..], b);
      if a[0].Success? && Collect(a[1..]).Success? && Collect(b).Success? {
        var x, y := Collect(a[1..]).value, Collect(b).value;
        assert [a[0].value] + (x + y) == ([a[0].value] + x) + y;
      }
    }
  }

  /** One more success extends the collected values by one. */
  lemma CollectSnoc<T, E>(rs: seq<Result<T, E>>, x: Result<T, E>)
    requires Collect(rs).Success? && x.Success?
    ensures Collect(rs + [x]) == Success(Collect(rs).value + [x.value])
  {
    CollectAppend(rs, [x]);
    assert [x][1..] == [];
    assert Collect([x]) == Success([x.value] + []);
    assert [x.value] + [] == [x.value];
  }

  /** A failure after a run of successes is the result, whatever follows. */
  lemma CollectFailsAt<T, E>(before: seq<Result<T, E>>, x: Result<T, E>, after: seq<Result<T, E>>)
    requires Collect(before).Success? && x.Failure?
    ensures Collect(before + [x] + after) == Failure(x.error)
  {
    CollectAppend(before, [x]);
    CollectAppend(before + [x], after);
  }
}
