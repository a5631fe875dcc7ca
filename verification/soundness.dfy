/** How the two implementations relate to each other and to `VerifyProof`:
    a proof made for a result verifies against the results it was made
    from, and the duplicated code of the two packages agrees. */
module Soundness {
  import opened Types
  import opened Outcomes
  import opened Query
  import Batch
  import ProofImpl
  import Proofs

  /** A proof fetched for a result that exists verifies against the
      block's results exactly when that result can be encoded. */
  lemma ProveThenVerify(rpc: Rpc, lib: MerkleLib, height: nat, index: nat)
    requires Agrees(lib)
    requires rpc.blockResults(height).Got? && index < |rpc.blockResults(height).value|
    ensures Proofs.TxCompletedSuccessfullyProof(rpc, lib, height, index).Ok?
    ensures var results := rpc.blockResults(height).value;
      var proof := Proofs.TxCompletedSuccessfullyProof(rpc, lib, height, index).value;
      Proofs.VerifyProof(lib, results, proof, index) == Ok(()) <==> lib.marshal(results[index]).Got?
  {
    var results := rpc.blockResults(height).value;
    var proof := Proofs.TxCompletedSuccessfullyProof(rpc, lib, height, index).value;
    if lib.marshal(results[index]).Got? {
      assert lib.verify(lib.prove(results, index), lib.root(results), lib.marshal(results[index]).value).Got?;
    }
  }

  /** The two `TxCompletedSuccessfullyProof` functions agree: the same
      error, the same panic, or the same proof, the paginated one adding
      the result the proof is for. */
  lemma ImplementationsAgree(rpc: Rpc, lib: MerkleLib, height: nat, index: nat)
    ensures var a := ProofImpl.TxCompletedSuccessfullyProof(rpc, lib, height, index);
      var b := Proofs.TxCompletedSuccessfullyProof(rpc, lib, height, index);
      && (a.Ok? <==> b.Ok?)
      && (a.Ok? ==> a.value.0 == b.value)
      && (a.Err? ==> b == Err(a.error))
      && (a.Panic? ==> b == Panic(a.index, a.length))
  {
  }

  /** Every record the paginated `RecipientTransactions` hands on carries a
      delivery proof that `VerifyProof` accepts for its transaction's
      block and index, exactly when the result it carries can be encoded. */
  lemma DeliveryProofsVerify(rpc: Rpc, lib: MerkleLib, params: map<string, string>, order: seq<string>)
    requires Agrees(lib)
    requires IsIterationOrder(order, params)
    requires ProofImpl.Terminates(rpc, QueryFromParams(params, order), 1)
    ensures var r := ProofImpl.RecipientTransactions(rpc, lib, params, order);
      var found := ProofImpl.Found(rpc, QueryFromParams(params, order));
      r.Ok? ==> forall i :: 0 <= i < |r.value.elems| ==>
        var item := found[i];
        var v := r.value.elems[i];
        (Proofs.VerifyProof(lib, rpc.blockResults(item.height).value, v.deliveryProof, item.index) == Ok(()) <==>
            lib.marshal(v.tx).Got?)
  {
    var r := ProofImpl.RecipientTransactions(rpc, lib, params, order);
    var found := ProofImpl.Found(rpc, QueryFromParams(params, order));
    if r.Ok? {
      forall i | 0 <= i < |r.value.elems|
        ensures (Proofs.VerifyProof(lib, rpc.blockResults(found[i].height).value, r.value.elems[i].deliveryProof, found[i].index) == Ok(()) <==>
            lib.marshal(r.value.elems[i].tx).Got?)
      {
        var item := found[i];
        assert ProofImpl.Delivered(rpc, lib, item, r.value.elems[i]);
        ProveThenVerify(rpc, lib, item.height, item.index);
      }
    }
  }

  /** Every proof the single-page `RecipientTransactions` returns carries a
      delivery proof that `VerifyProof` accepts for its transaction's block
      and index, exactly when that transaction's result can be encoded. */
  lemma SuccessProofsVerify(rpc: Rpc, lib: MerkleLib, params: map<string, string>, order: seq<string>)
    requires Agrees(lib)
    requires IsIterationOrder(order, params)
    ensures var r := Proofs.RecipientTransactions(rpc, lib, params, order);
      var reply := Proofs.FirstPage(rpc, params, order);
      r.Ok? && r.value.Items? ==> reply.Got? && forall i :: 0 <= i < |r.value.elems| ==>
        var item := reply.value.txs[i];
        var results := rpc.blockResults(item.height).value;
        (Proofs.VerifyProof(lib, results, r.value.elems[i].successProof, item.index) == Ok(()) <==>
            lib.marshal(results[item.index]).Got?)
  {
    var r := Proofs.RecipientTransactions(rpc, lib, params, order);
    if r.Ok? && r.value.Items? {
      var txs := Proofs.FirstPage(rpc, params, order).value.txs;
      forall i | 0 <= i < |r.value.elems|
        ensures var results := rpc.blockResults(txs[i].height).value;
          (Proofs.VerifyProof(lib, results, r.value.elems[i].successProof, txs[i].index) == Ok(()) <==>
              lib.marshal(results[txs[i].index]).Got?)
      {
        var item := txs[i];
        assert Proofs.Proven(rpc, lib, item, r.value.elems[i]);
        ProveThenVerify(rpc, lib, item.height, item.index);
      }
    }
  }
}
