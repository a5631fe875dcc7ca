/** The loop both implementations use to turn found transactions into
    proofs: one step per transaction, in order, and the first step that
    does not succeed ends the whole batch with no partial result. */
module Batch {
  import opened Types
  import opened Outcomes

  /** What the batch reports when the step for `item` did not succeed: a
      returned error is wrapped with the transaction, a panic passes
      through unchanged. */
  function Abort<V, W>(item: TxRecord, step: Outcome<V>): (r: Outcome<W>)
    requires !step.Ok?
    ensures step.Err? <==> r.Err?
    ensures step.Err? ==> r.error == TxProofFailed(item.tx, step.error)
    ensures step.Panic? ==> r == Panic(step.index, step.length)
  {
    if step.Err? then Err(TxProofFailed(item.tx, step.error)) else Panic(step.index, step.length)
  }

  /** Transaction `i` is the first whose step does not succeed. */
  ghost predicate FirstFailure<V>(txs: seq<TxRecord>, step: TxRecord -> Outcome<V>, i: int)
  {
    && 0 <= i < |txs|
    && !step(txs[i]).Ok?
    && forall j :: 0 <= j < i ==> step(txs[j]).Ok?
  }

  /** Runs `step` over `txs` in order, stopping at the first failure. */
  function Collect<V>(txs: seq<TxRecord>, step: TxRecord -> Outcome<V>): (r: Outcome<seq<V>>)
    ensures r.Ok? <==> forall i :: 0 <= i < |txs| ==> step(txs[i]).Ok?
    ensures r.Ok? ==> |r.value| == |txs|
    ensures r.Ok? ==> forall i :: 0 <= i < |txs| ==> step(txs[i]).Ok? && r.value[i] == step(txs[i]).value
    ensures !r.Ok? ==> exists i :: FirstFailure(txs, step, i) && r == Abort(txs[i], step(txs[i]))
  {
    if |txs| == 0 then Ok([])
    else
      var head := step(txs[0]);
      if !head.Ok? then
        assert FirstFailure(txs, step, 0);
        Abort(txs[0], head)
      else
        var rest := Collect(txs[1..], step);
        if rest.Ok? then
          Ok([head.value] + rest.value)
        else
          ShiftFailure(txs, step, rest);
          rest
  }

  /** A first failure in the tail, after a successful head, is the first
      failure of the whole batch. */
  lemma ShiftFailure<V>(txs: seq<TxRecord>, step: TxRecord -> Outcome<V>, rest: Outcome<seq<V>>)
    requires |txs| > 0 && step(txs[0]).Ok?
    requires exists i :: FirstFailure(txs[1..], step, i) && rest == Abort(txs[1..][i], step(txs[1..][i]))
    ensures exists i :: FirstFailure(txs, step, i) && rest == Abort(txs[i], step(txs[i]))
  {
    var i :| FirstFailure(txs[1..], step, i) && rest == Abort(txs[1..][i], step(txs[1..][i]));
    assert txs[1..][i] == txs[i + 1];
    forall j | 0 <= j < i + 1
      ensures step(txs[j]).Ok?
    {
      if j > 0 {
        assert txs[1..][j - 1] == txs[j];
      }
    }
    assert FirstFailure(txs, step, i + 1);
  }

  /** The batch depends on `step` only through its values on `txs`. */
  lemma {:induction false} CollectCongruent<V>(txs: seq<TxRecord>, step1: TxRecord -> Outcome<V>, step2: TxRecord -> Outcome<V>)
    requires forall i :: 0 <= i < |txs| ==> step1(txs[i]) == step2(txs[i])
    ensures Collect(txs, step1) == Collect(txs, step2)
  {
    if |txs| > 0 && step1(txs[0]).Ok? {
      forall i | 0 <= i < |txs[1..]|
        ensures step1(txs[1..][i]) == step2(txs[1..][i])
      {
        assert txs[1..][i] == txs[i + 1];
      }
      CollectCongruent(txs[1..], step1, step2);
    }
  }
}
