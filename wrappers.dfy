/** Optional values and success-or-error results, used wherever the source
    returns `undefined`/`null` or throws. */
module Wrappers {

  datatype Option<+T> = None | Some(value: T) {
    function GetOr(default: T): T {
      match this
      case Some(v) => v
      case None => default
    }
  }

  datatype Result<+R, +E> = Success(value: R) | Failure(error: E)

  /** A run of steps that stops at the first failure: the values of all the
      steps when every one succeeds, else the first failure. */
  function Collect<R, E>(rs: seq<Result<R, E>>): (r: Result<seq<R>, E>)
    ensures r.Success? ==> |r.value| == |rs|
  {
    if rs == [] then Success([])
    else
      var prev := Collect(rs[..|rs| - 1]);
      if prev.Failure? then prev
      else
        match rs[|rs| - 1]
        case Failure(e) => Failure(e)
        case Success(v) => Success(prev.value + [v])
  }

  /** The run succeeds exactly when every step does, and then its values are
      the steps' values in order. */
  lemma {:induction false} CollectSuccess<R, E>(rs: seq<Result<R, E>>)
    ensures Collect(rs).Success? <==> forall i :: 0 <= i < |rs| ==> rs[i].Success?
    ensures Collect(rs).Success? ==> forall i :: 0 <= i < |rs| ==> rs[i] == Success(Collect(rs).value[i])
  {
    if rs != [] {
      var init := rs[..|rs| - 1];
      CollectSuccess(init);
      var prev := Collect(init);
      if prev.Failure? {
        var k :| 0 <= k < |init| && !init[k].Success?;
        assert !rs[k].Success?;
      } else if rs[|rs| - 1].Failure? {
        assert !rs[|rs| - 1].Success?;
      } else {
        var r := Collect(rs);
        forall i | 0 <= i < |rs| ensures rs[i] == Success(r.value[i]) {
          if i < |rs| - 1 {
            assert rs[i] == init[i];
            assert r.value[i] == prev.value[i];
          }
        }
      }
    }
  }

  /** A failed run reports the failure of its first failed step. */
  lemma {:induction false} CollectFailure<R, E>(rs: seq<Result<R, E>>)
    requires Collect(rs).Failure?
    ensures exists i :: 0 <= i < |rs| && (forall j :: 0 <= j < i ==> rs[j].Success?) && rs[i] == Failure(Collect(rs).error)
  {
    var init := rs[..|rs| - 1];
    var prev := Collect(init);
    if prev.Failure? {
      CollectFailure(init);
      var i :| 0 <= i < |init| && (forall j :: 0 <= j < i ==> init[j].Success?) && init[i] == Failure(prev.error);
      assert forall j :: 0 <= j < i ==> rs[j] == init[j];
      assert rs[i] == init[i];
    } else {
      CollectSuccess(init);
      var i := |rs| - 1;
      assert forall j :: 0 <= j < i ==> rs[j] == init[j];
    }
  }

  /** One more step after a prefix that succeeded. */
  lemma CollectStep<R, E>(rs: seq<Result<R, E>>, i: nat)
    requires i < |rs| && Collect(rs[..i]).Success?
    ensures Collect(rs[..i + 1])
            == if rs[i].Failure? then Failure(rs[i].error) else Success(Collect(rs[..i]).value + [rs[i].value])
  {
    assert rs[..i + 1][..i] == rs[..i];
  }

  /** Once a prefix of the run has failed, the later steps change nothing. */
  lemma {:induction false} CollectStops<R, E>(rs: seq<Result<R, E>>, k: nat)
    requires k <= |rs| && Collect(rs[..k]).Failure?
    ensures Collect(rs) == Collect(rs[..k])
    decreases |rs| - k
  {
    if k < |rs| {
      var init := rs[..|rs| - 1];
      assert init[..k] == rs[..k];
      CollectStops(init, k);
    } else {
      assert rs[..k] == rs;
    }
  }
}
