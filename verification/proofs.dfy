/** The single-page implementation in internal/proofer/proofs: search the
    first page of matches, prove each found transaction was delivered, and
    verify such a proof against a block's results. */
module Proofs {
  import opened Types
  import opened Outcomes
  import opened Query
  import Batch

  /** proofer.CompleteTransactionProof: the block inclusion proof and the
      delivery proof of one transaction. */
  datatype CompleteTransactionProof = CompleteTransactionProof(blockProof: TxProof, successProof: MerkleProof, height: nat)

  /** `ABCIResponsesResultsHash`: the root of the results tree of a block,
      the root against which the library's proofs for its results check. */
  function ABCIResponsesResultsHash(lib: MerkleLib, deliverTxs: seq<ExecResult>): (h: Hash)
    ensures Agrees(lib) ==>
      forall i: nat :: i < |deliverTxs| && lib.marshal(deliverTxs[i]).Got? ==>
        lib.verify(lib.prove(deliverTxs, i), h, lib.marshal(deliverTxs[i]).value).Got?
  {
    lib.root(deliverTxs)
  }

  /** `TxCompletedSuccessfullyProof`: fetch the results of the block at
      `height` and prove the result at `index` among them. */
  function TxCompletedSuccessfullyProof(rpc: Rpc, lib: MerkleLib, height: nat, index: nat): (r: Outcome<MerkleProof>)
    ensures r.Err? <==> rpc.blockResults(height).Error?
    ensures r.Err? ==> r.error == BlockResultsFailed(height, rpc.blockResults(height).message)
    ensures r.Panic? <==> rpc.blockResults(height).Got? && index >= |rpc.blockResults(height).value|
    ensures r.Ok? ==> index < |rpc.blockResults(height).value|
    ensures r.Ok? ==> r.value == lib.prove(rpc.blockResults(height).value, index)
  {
    match rpc.blockResults(height)
    case Error(message) => Err(BlockResultsFailed(height, message))
    case Got(results) =>
      if index < |results| then Ok(lib.prove(results, index)) else Panic(index, |results|)
  }

  /** `VerifyProof`: recompute the results root from all of `results`,
      take the leaf encoding of the result at `index` (what `NewResults`
      keeps of it, encoded), and let the proof check the leaf against the
      root. Nothing is compared with a block header. */
  function VerifyProof(lib: MerkleLib, results: seq<ExecResult>, proof: MerkleProof, index: nat): (r: Outcome<()>)
    ensures r.Panic? <==> index >= |results|
    ensures r.Ok? <==>
      index < |results| && lib.marshal(results[index]).Got? &&
      lib.verify(proof, ABCIResponsesResultsHash(lib, results), lib.marshal(results[index]).value).Got?
    ensures index < |results| && lib.marshal(results[index]).Error? ==>
      r == Err(MarshalFailed(lib.marshal(results[index]).message))
    ensures (index < |results| && lib.marshal(results[index]).Got? &&
      lib.verify(proof, ABCIResponsesResultsHash(lib, results), lib.marshal(results[index]).value).Error?) ==>
        r == Err(ProofRejected(lib.verify(proof, lib.root(results), lib.marshal(results[index]).value).message))
  {
    var rootHash := ABCIResponsesResultsHash(lib, results);
    if index >= |results| then
      Panic(index, |results|)
    else
      match lib.marshal(results[index])
      case Error(message) => Err(MarshalFailed(message))
      case Got(leaf) =>
        match lib.verify(proof, rootHash, leaf)
        case Got(_) => Ok(())
        case Error(message) => Err(ProofRejected(message))
  }

  /** The proof handed on for one found transaction. */
  function ProveTx(rpc: Rpc, lib: MerkleLib, item: TxRecord): (r: Outcome<CompleteTransactionProof>)
    ensures r.Err? <==> rpc.blockResults(item.height).Error?
    ensures r.Err? ==> r.error == BlockResultsFailed(item.height, rpc.blockResults(item.height).message)
    ensures r.Panic? <==> rpc.blockResults(item.height).Got? && item.index >= |rpc.blockResults(item.height).value|
    ensures r.Ok? <==> rpc.blockResults(item.height).Got? && item.index < |rpc.blockResults(item.height).value|
    ensures r.Ok? ==> Proven(rpc, lib, item, r.value)
  {
    match TxCompletedSuccessfullyProof(rpc, lib, item.height, item.index)
    case Ok(p) => Ok(CompleteTransactionProof(item.proof, p, item.height))
    case Err(e) => Err(e)
    case Panic(i, n) => Panic(i, n)
  }

  /** `p` is the proof for `item`: its block proof and height, and the
      delivery proof for its index in its block's results. */
  ghost predicate Proven(rpc: Rpc, lib: MerkleLib, item: TxRecord, p: CompleteTransactionProof)
  {
    && p.blockProof == item.proof
    && p.height == item.height
    && rpc.blockResults(item.height).Got?
    && item.index < |rpc.blockResults(item.height).value|
    && p.successProof == lib.prove(rpc.blockResults(item.height).value, item.index)
  }

  /** The node's answer to the one search this implementation makes. */
  function FirstPage(rpc: Rpc, params: map<string, string>, order: seq<string>): Reply<SearchPage>
    requires IsIterationOrder(order, params)
  {
    rpc.txSearch(PageRequest(QueryFromParams(params, order), 1))
  }

  /** `RecipientTransactions`: one search for the first page of matches,
      then a proof for each transaction on it; the parameters are visited
      in the iteration order `order`. */
  function RecipientTransactions(rpc: Rpc, lib: MerkleLib, params: map<string, string>, order: seq<string>): (r: Outcome<Slice<CompleteTransactionProof>>)
    requires IsIterationOrder(order, params)
    ensures var reply := FirstPage(rpc, params, order);
      reply.Error? ==> r == Err(SearchFailed(reply.message))
    ensures var reply := FirstPage(rpc, params, order);
      r == Ok(Nil) <==> (reply.Got? && reply.value.totalCount == 0)
    ensures var reply := FirstPage(rpc, params, order);
      r.Ok? <==> (reply.Got? && (reply.value.totalCount == 0 ||
        forall i :: 0 <= i < |reply.value.txs| ==> ProveTx(rpc, lib, reply.value.txs[i]).Ok?))
    ensures var reply := FirstPage(rpc, params, order);
      r.Ok? && r.value.Items? ==> (|r.value.elems| == |reply.value.txs| &&
        forall i :: 0 <= i < |reply.value.txs| ==> Proven(rpc, lib, reply.value.txs[i], r.value.elems[i]))
    ensures var reply := FirstPage(rpc, params, order);
      reply.Got? && !r.Ok? ==>
        exists i :: Batch.FirstFailure(reply.value.txs, (item: TxRecord) => ProveTx(rpc, lib, item), i) &&
          r == Batch.Abort(reply.value.txs[i], ProveTx(rpc, lib, reply.value.txs[i]))
  {
    var reply := FirstPage(rpc, params, order);
    if reply.Error? then
      Err(SearchFailed(reply.message))
    else if reply.value.totalCount == 0 then
      Ok(Nil)
    else
      var step := (item: TxRecord) => ProveTx(rpc, lib, item);
      var proofs := Batch.Collect(reply.value.txs, step);
      if proofs.Ok? then
        Ok(Items(proofs.value))
      else if proofs.Err? then
        Err(proofs.error)
      else
        Panic(proofs.index, proofs.length)
  }

  /** Only the page-1 search is consulted: two nodes that give the same
      answer to it and the same block results lead to the same outcome,
      whatever they would answer for any other page. */
  lemma OnlyFirstPageConsulted(rpc1: Rpc, rpc2: Rpc, lib: MerkleLib, params: map<string, string>, order: seq<string>)
    requires IsIterationOrder(order, params)
    requires FirstPage(rpc1, params, order) == FirstPage(rpc2, params, order)
    requires rpc1.blockResults == rpc2.blockResults
    ensures RecipientTransactions(rpc1, lib, params, order) == RecipientTransactions(rpc2, lib, params, order)
  {
    var reply := FirstPage(rpc1, params, order);
    if reply.Got? && reply.value.totalCount != 0 {
      var step1 := (item: TxRecord) => ProveTx(rpc1, lib, item);
      var step2 := (item: TxRecord) => ProveTx(rpc2, lib, item);
      forall i | 0 <= i < |reply.value.txs|
        ensures step1(reply.value.txs[i]) == step2(reply.value.txs[i])
      {
      }
      Batch.CollectCongruent(reply.value.txs, step1, step2);
    }
  }
}
