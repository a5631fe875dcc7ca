/** The paginated implementation in internal/proof/proof_impl: search every
    page of matches, then prove that each found transaction was delivered. */
module ProofImpl {
  import opened Types
  import opened Outcomes
  import opened Query
  import Batch

  /** proof.TxValue: what is handed to the relayer for one transaction. */
  datatype TxValue = TxValue(inclusionProof: MerkleProof, deliveryProof: MerkleProof, tx: ExecResult, height: nat)

  /** The node's answer for one page of the search. */
  function PageReply(rpc: Rpc, query: string, page: int): Reply<SearchPage>
  {
    rpc.txSearch(PageRequest(query, page))
  }

  /** The records a page contributes when it is accumulated. */
  function PageTxs(reply: Reply<SearchPage>): seq<TxRecord>
  {
    if reply.Got? then reply.value.txs else []
  }

  /** The search loop leaves at `page`: the call failed, the page is empty,
      or `page * perPage` reaches the reported total. */
  predicate StopsAt(rpc: Rpc, query: string, page: int)
  {
    var reply := PageReply(rpc, query, page);
    reply.Error? || |reply.value.txs| == 0 || page * PerPage >= reply.value.totalCount
  }

  /** The loop, started at `page`, leaves at some page. A node that keeps
      raising its total count never lets it leave. */
  ghost predicate Terminates(rpc: Rpc, query: string, page: nat)
  {
    exists k: nat :: page <= k && StopsAt(rpc, query, k)
  }

  lemma {:induction false} LeastStop(rpc: Rpc, query: string, page: nat, k: nat)
    requires page <= k && StopsAt(rpc, query, k)
    ensures exists m: nat :: (page <= m <= k && StopsAt(rpc, query, m) &&
      forall j :: page <= j < m ==> !StopsAt(rpc, query, j))
    decreases k - page
  {
    if !StopsAt(rpc, query, page) {
      LeastStop(rpc, query, page + 1, k);
    } else {
      assert forall j :: page <= j < page ==> !StopsAt(rpc, query, j);
    }
  }

  /** The page at which the loop started at `page` leaves. */
  ghost function StopPage(rpc: Rpc, query: string, page: nat): (k: nat)
    requires Terminates(rpc, query, page)
    ensures page <= k && StopsAt(rpc, query, k)
    ensures forall j :: page <= j < k ==> !StopsAt(rpc, query, j)
  {
    var k0: nat :| page <= k0 && StopsAt(rpc, query, k0);
    LeastStop(rpc, query, page, k0);
    var m: nat :| (page <= m <= k0 && StopsAt(rpc, query, m) &&
      forall j :: page <= j < m ==> !StopsAt(rpc, query, j));
    m
  }

  /** A page that does not stop the loop leaves the stopping page unchanged. */
  lemma StopPageStep(rpc: Rpc, query: string, page: nat)
    requires Terminates(rpc, query, page) && !StopsAt(rpc, query, page)
    ensures Terminates(rpc, query, page + 1)
    ensures StopPage(rpc, query, page + 1) == StopPage(rpc, query, page)
  {
    var k := StopPage(rpc, query, page);
    assert page + 1 <= k;
    var k' := StopPage(rpc, query, page + 1);
  }

  /** The records of pages `lo` .. `hi - 1`, in page order. */
  function Collected(rpc: Rpc, query: string, lo: int, hi: int): seq<TxRecord>
    decreases hi - lo
  {
    if lo >= hi then [] else PageTxs(PageReply(rpc, query, lo)) + Collected(rpc, query, lo + 1, hi)
  }

  /** The requests a search issued and what it found. */
  datatype SearchRun = SearchRun(requests: seq<SearchRequest>, found: Outcome<seq<TxRecord>>)

  /** The search loop of `RecipientTransactions`, from `page` on. The check
      against the total count comes before the page's records are
      appended, so the page that ends the loop contributes nothing. */
  function SearchFrom(rpc: Rpc, query: string, page: nat): (run: SearchRun)
    requires 1 <= page && Terminates(rpc, query, page)
    ensures |run.requests| == StopPage(rpc, query, page) - page + 1
    ensures forall i :: 0 <= i < |run.requests| ==> run.requests[i] == PageRequest(query, page + i)
    ensures !run.found.Panic?
    ensures run.found.Err? <==> PageReply(rpc, query, StopPage(rpc, query, page)).Error?
    ensures run.found.Err? ==>
      run.found.error == SearchFailed(PageReply(rpc, query, StopPage(rpc, query, page)).message)
    ensures run.found.Ok? ==> run.found.value == Collected(rpc, query, page, StopPage(rpc, query, page))
    decreases StopPage(rpc, query, page) - page
  {
    var reply := PageReply(rpc, query, page);
    if reply.Error? then
      assert StopsAt(rpc, query, page);
      SearchRun([PageRequest(query, page)], Err(SearchFailed(reply.message)))
    else if |reply.value.txs| == 0 || page * PerPage >= reply.value.totalCount then
      assert StopsAt(rpc, query, page);
      SearchRun([PageRequest(query, page)], Ok([]))
    else
      StopPageStep(rpc, query, page);
      var rest := SearchFrom(rpc, query, page + 1);
      SearchRun(
        [PageRequest(query, page)] + rest.requests,
        if rest.found.Ok? then Ok(reply.value.txs + rest.found.value) else rest.found)
  }

  /** The most requests the search makes when the node reports `total`
      matches: one, or the number of pages `total` fills. */
  function MaxRequests(total: int): nat
  {
    if total <= PerPage then 1 else (total + PerPage - 1) / PerPage
  }

  /** With a node whose total count does not change, the search ends, and
      it makes at most `MaxRequests(total)` requests. */
  lemma FixedTotalBoundsRequests(rpc: Rpc, query: string, total: int)
    requires forall p: nat :: 1 <= p && PageReply(rpc, query, p).Got? ==>
      PageReply(rpc, query, p).value.totalCount == total
    ensures Terminates(rpc, query, 1)
    ensures |SearchFrom(rpc, query, 1).requests| <= MaxRequests(total)
  {
    var k := MaxRequests(total);
    assert k * PerPage >= total;
    assert StopsAt(rpc, query, k);
  }

  /** How many of `total` matches a complete index puts on `page`. */
  function PageSize(total: int, page: int): int
  {
    var rest := total - (page - 1) * PerPage;
    if rest <= 0 then 0 else if rest >= PerPage then PerPage else rest
  }

  /** A node that answers every page, always reports `total`, and puts
      every match on exactly one page. */
  ghost predicate CompleteIndex(rpc: Rpc, query: string, total: int)
  {
    forall p: nat :: 1 <= p ==>
      && PageReply(rpc, query, p).Got?
      && PageReply(rpc, query, p).value.totalCount == total
      && |PageReply(rpc, query, p).value.txs| == PageSize(total, p)
  }

  /** Pages before the last one of a complete index are full. */
  lemma {:induction false} FullPages(rpc: Rpc, query: string, total: int, lo: int, hi: int)
    requires CompleteIndex(rpc, query, total)
    requires 1 <= lo <= hi <= MaxRequests(total)
    ensures |Collected(rpc, query, lo, hi)| == (hi - lo) * PerPage
    decreases hi - lo
  {
    if lo < hi {
      FullPages(rpc, query, total, lo + 1, hi);
      var reply := PageReply(rpc, query, lo);
      assert |reply.value.txs| == PageSize(total, lo);
    }
  }

  /** Against a complete index the search drops the last page: it asks for
      every page, but only the full pages before the last one come back,
      so it finds fewer than `total` matches whenever there are any. */
  lemma CompleteIndexLosesLastPage(rpc: Rpc, query: string, total: int)
    requires CompleteIndex(rpc, query, total)
    ensures Terminates(rpc, query, 1)
    ensures |SearchFrom(rpc, query, 1).requests| == MaxRequests(total)
    ensures SearchFrom(rpc, query, 1).found.Ok?
    ensures |SearchFrom(rpc, query, 1).found.value| == (MaxRequests(total) - 1) * PerPage
    ensures total >= 0 ==> |SearchFrom(rpc, query, 1).found.value| == total - PageSize(total, MaxRequests(total))
    ensures total > 0 ==> |SearchFrom(rpc, query, 1).found.value| < total
  {
    var k := MaxRequests(total);
    assert total > PerPage ==> (k - 1) * PerPage < total <= k * PerPage;
    assert StopsAt(rpc, query, k);
    forall j | 1 <= j < k
      ensures !StopsAt(rpc, query, j)
    {
      assert |PageReply(rpc, query, j).value.txs| == PageSize(total, j);
    }
    assert StopPage(rpc, query, 1) == k;
    FullPages(rpc, query, total, 1, k);
  }

  /** With 250 matches and pages of 100, three pages are requested and 200
      records come back. */
  lemma TwoHundredFiftyMatchesYieldTwoHundred(rpc: Rpc, query: string)
    requires CompleteIndex(rpc, query, 250)
    ensures Terminates(rpc, query, 1)
    ensures |SearchFrom(rpc, query, 1).requests| == 3
    ensures SearchFrom(rpc, query, 1).found.Ok?
    ensures |SearchFrom(rpc, query, 1).found.value| == 200
  {
    CompleteIndexLosesLastPage(rpc, query, 250);
  }

  /** A node that reports at most one page of matches on page 1 yields no
      records at all, whatever page 1 holds. */
  lemma OnePageOfMatchesYieldsNothing(rpc: Rpc, query: string)
    requires PageReply(rpc, query, 1).Got? && PageReply(rpc, query, 1).value.totalCount <= PerPage
    ensures Terminates(rpc, query, 1)
    ensures SearchFrom(rpc, query, 1) == SearchRun([PageRequest(query, 1)], Ok([]))
  {
    assert StopsAt(rpc, query, 1);
  }

  /** What the search of `RecipientTransactions` hands on to the proving
      loop: the records of every page before the stopping one. */
  ghost function Found(rpc: Rpc, query: string): seq<TxRecord>
    requires Terminates(rpc, query, 1)
  {
    Collected(rpc, query, 1, StopPage(rpc, query, 1))
  }

  /** `TxCompletedSuccessfullyProof`: fetch the results of the block at
      `height` and prove the result at `index` among them. */
  function TxCompletedSuccessfullyProof(rpc: Rpc, lib: MerkleLib, height: nat, index: nat): (r: Outcome<(MerkleProof, ExecResult)>)
    ensures r.Err? <==> rpc.blockResults(height).Error?
    ensures r.Err? ==> r.error == BlockResultsFailed(height, rpc.blockResults(height).message)
    ensures r.Panic? <==> rpc.blockResults(height).Got? && index >= |rpc.blockResults(height).value|
    ensures r.Ok? ==> index < |rpc.blockResults(height).value| && r.value.1 == rpc.blockResults(height).value[index]
    ensures r.Ok? && Agrees(lib) && lib.marshal(r.value.1).Got? ==>
      lib.verify(r.value.0, lib.root(rpc.blockResults(height).value), lib.marshal(r.value.1).value).Got?
  {
    match rpc.blockResults(height)
    case Error(message) => Err(BlockResultsFailed(height, message))
    case Got(results) =>
      if index < |results| then Ok((lib.prove(results, index), results[index])) else Panic(index, |results|)
  }

  /** The record handed on for one found transaction. */
  function ProveTx(rpc: Rpc, lib: MerkleLib, item: TxRecord): (r: Outcome<TxValue>)
    ensures r.Err? <==> rpc.blockResults(item.height).Error?
    ensures r.Err? ==> r.error == BlockResultsFailed(item.height, rpc.blockResults(item.height).message)
    ensures r.Panic? <==> rpc.blockResults(item.height).Got? && item.index >= |rpc.blockResults(item.height).value|
    ensures r.Ok? <==> rpc.blockResults(item.height).Got? && item.index < |rpc.blockResults(item.height).value|
    ensures r.Ok? ==> Delivered(rpc, lib, item, r.value)
  {
    match TxCompletedSuccessfullyProof(rpc, lib, item.height, item.index)
    case Ok(delivery) => Ok(TxValue(item.proof.proof, delivery.0, delivery.1, item.height))
    case Err(e) => Err(e)
    case Panic(i, n) => Panic(i, n)
  }

  /** `v` is the record for `item`: its inclusion proof and height, and the
      delivery proof and result for its index in its block's results. */
  ghost predicate Delivered(rpc: Rpc, lib: MerkleLib, item: TxRecord, v: TxValue)
  {
    && v.inclusionProof == item.proof.proof
    && v.height == item.height
    && rpc.blockResults(item.height).Got?
    && item.index < |rpc.blockResults(item.height).value|
    && v.tx == rpc.blockResults(item.height).value[item.index]
    && v.deliveryProof == lib.prove(rpc.blockResults(item.height).value, item.index)
  }

  /** `RecipientTransactions`: the records found by the paginated search,
      each with its delivery proof; the parameters are visited in the
      iteration order `order`. */
  function RecipientTransactions(rpc: Rpc, lib: MerkleLib, params: map<string, string>, order: seq<string>): (r: Outcome<Slice<TxValue>>)
    requires IsIterationOrder(order, params)
    requires Terminates(rpc, QueryFromParams(params, order), 1)
    ensures r.Ok? ==> r.value.Items?
    ensures var query := QueryFromParams(params, order);
      var last := PageReply(rpc, query, StopPage(rpc, query, 1));
      last.Error? ==> r == Err(SearchFailed(last.message))
    ensures var query := QueryFromParams(params, order);
      PageReply(rpc, query, StopPage(rpc, query, 1)).Got? && Found(rpc, query) == [] ==> r == Ok(Items([]))
    ensures var query := QueryFromParams(params, order);
      var found := Found(rpc, query);
      r.Ok? <==> (PageReply(rpc, query, StopPage(rpc, query, 1)).Got? &&
        forall i :: 0 <= i < |found| ==> ProveTx(rpc, lib, found[i]).Ok?)
    ensures var query := QueryFromParams(params, order);
      var found := Found(rpc, query);
      r.Ok? ==> (|r.value.elems| == |found| &&
        forall i :: 0 <= i < |found| ==> Delivered(rpc, lib, found[i], r.value.elems[i]))
    ensures var query := QueryFromParams(params, order);
      var found := Found(rpc, query);
      PageReply(rpc, query, StopPage(rpc, query, 1)).Got? && !r.Ok? ==>
        exists i :: Batch.FirstFailure(found, (item: TxRecord) => ProveTx(rpc, lib, item), i) &&
          r == Batch.Abort(found[i], ProveTx(rpc, lib, found[i]))
  {
    var query := QueryFromParams(params, order);
    var run := SearchFrom(rpc, query, 1);
    if run.found.Err? then
      Err(run.found.error)
    else
      var txs := run.found.value;
      if |txs| == 0 then
        Ok(Items([]))
      else
        var step := (item: TxRecord) => ProveTx(rpc, lib, item);
        var proofs := Batch.Collect(txs, step);
        if proofs.Ok? then
          Ok(Items(proofs.value))
        else if proofs.Err? then
          Err(proofs.error)
        else
          Panic(proofs.index, proofs.length)
  }
}
