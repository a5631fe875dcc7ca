/** Values exchanged with the Tendermint RPC node and the Merkle library.
    The node and the library are not reimplemented: each is a record of
    total functions handed to the pipeline, so every property below holds
    for whatever node and library the caller supplies. */
module Types {

  newtype byte = b: int | 0 <= b < 256

  type Bytes = seq<byte>

  /** A hash as returned by the Merkle library. */
  type Hash = Bytes

  /** What an external call gives back: Go's `(value, error)` pair. */
  datatype Reply<T> = Got(value: T) | Error(message: string)

  /** One indexed attribute of an ABCI event. */
  datatype EventAttribute = EventAttribute(key: Bytes, value: Bytes, index: bool)

  datatype Event = Event(kind: string, attributes: seq<EventAttribute>)

  /** abci.ResponseDeliverTx: the execution result of one transaction. */
  datatype ExecResult = ExecResult(
    code: nat,
    data: Bytes,
    log: string,
    info: string,
    gasWanted: int,
    gasUsed: int,
    events: seq<Event>,
    codespace: string)

  /** merkle.Proof: the path from one leaf to the root of a tree of `total` leaves. */
  datatype MerkleProof = MerkleProof(total: int, index: int, leafHash: Hash, aunts: seq<Hash>)

  /** types.TxProof: the node's proof that a transaction is in a block. */
  datatype TxProof = TxProof(rootHash: Hash, data: Bytes, proof: MerkleProof)

  /** coretypes.ResultTx: one transaction found by a search. Heights are
      kept as `nat`, so `uint64(item.Height)` is the identity here. */
  datatype TxRecord = TxRecord(
    hash: Bytes,
    height: nat,
    index: nat,
    txResult: ExecResult,
    tx: Bytes,
    proof: TxProof)

  /** The arguments of one `TxSearch` call. */
  datatype SearchRequest = SearchRequest(query: string, prove: bool, page: int, perPage: int, orderBy: string)

  /** coretypes.ResultTxSearch: one page of matches and the node's total count. */
  datatype SearchPage = SearchPage(txs: seq<TxRecord>, totalCount: int)

  /** The RPC node, as the two calls the pipeline makes. `blockResults`
      yields the `TxsResults` of the block at the given height. */
  datatype Rpc = Rpc(
    txSearch: SearchRequest -> Reply<SearchPage>,
    blockResults: nat -> Reply<seq<ExecResult>>)

  /** The Tendermint Merkle library and protobuf encoding of results.
      `types.NewResults` keeps each result only in part, and every leaf of
      the results tree is the encoding of that kept part: `marshal(x)` is
      `Marshal` of what `NewResults` keeps of `x`. `root` is
      `types.NewResults(rs).Hash()`, `prove` is
      `types.NewResults(rs).ProveResult(i)` and `verify` is
      `proof.Verify(root, leaf)` (a `Got` reply is a nil error). */
  datatype MerkleLib = MerkleLib(
    marshal: ExecResult -> Reply<Bytes>,
    root: seq<ExecResult> -> Hash,
    prove: (seq<ExecResult>, nat) -> MerkleProof,
    verify: (MerkleProof, Hash, Bytes) -> Reply<()>)

  /** The one thing assumed of the library: a proof built for leaf `i` of a
      result sequence verifies against that sequence's root and the leaf
      encoding (the encoding of what `NewResults` keeps) of the result at
      `i`. */
  ghost predicate Agrees(lib: MerkleLib)
  {
    forall rs: seq<ExecResult>, i: nat ::
      i < |rs| && lib.marshal(rs[i]).Got? ==>
        lib.verify(lib.prove(rs, i), lib.root(rs), lib.marshal(rs[i]).value).Got?
  }

  /** The assumption is not vacuous: a library that records the leaf
      encoding in the proof and checks it satisfies it. */
  lemma AgreementIsSatisfiable()
    ensures exists lib :: Agrees(lib)
  {
    var lib := MerkleLib(
      (r: ExecResult) => Got(r.data),
      (rs: seq<ExecResult>) => [],
      (rs: seq<ExecResult>, i: nat) => MerkleProof(|rs|, i, if i < |rs| then rs[i].data else [], []),
      (p: MerkleProof, root: Hash, leaf: Bytes) =>
        if p.leafHash == leaf && 0 <= p.index < p.total then Got(()) else Error("invalid proof"));
    assert Agrees(lib);
  }
}
