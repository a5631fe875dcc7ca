# Recipient-transaction proofs of the query relayer

This project models the proof-gathering pipeline of the Cosmos query relayer. The relayer is given a set of event key/value parameters. It does four things:
- builds a Tendermint `TxSearch` query from them;
- asks a node for the matching transactions;
- for each transaction, fetches the results of its block and proves, with a Merkle proof over those results, that the transaction was delivered;
- checks such a proof against the results it was made from.

The repository holds two near-duplicate versions of this pipeline, and both are modelled:

- `ProofImpl` (`internal/proof/proof_impl`) requests pages of 100 matches until it stops, and returns records for the matches on the pages before the stopping one. These are `TxValue` records. Each record carries an inclusion proof, a delivery proof, the delivery result and the height.
- `Proofs` (`internal/proofer/proofs`) searches the first page only and returns `CompleteTransactionProof` records. It also holds `VerifyProof` and `ABCIResponsesResultsHash`.

Shared pieces:

- `Query` builds the query string. Go ranges over a map in an unspecified order, so the model makes that order an explicit parameter `order`. `IsIterationOrder` requires `order` to list every key exactly once.
- `Sequences` holds general sequence and multiset facts that the query proofs use.
- `Batch` is the per-transaction loop both versions share: in order, no partial result, abort on the first failure.
- `Types` holds the node's RPC (`Rpc`: `txSearch`, `blockResults`) and the Merkle/protobuf library (`MerkleLib`: `marshal`, `root`, `prove`, `verify`), both as values of total functions.
  - `marshal` is the leaf encoding of a result: the protobuf encoding of the part of it that `types.NewResults` keeps.
  - The one thing assumed of the library is `Agrees`: a proof built for leaf `i` verifies against the root of the same results and the leaf encoding of result `i`.
  - `AgreementIsSatisfiable` shows that this assumption is not vacuous.
- `Outcomes` models the outcomes of a Go call:
  - a returned error, as `Err` with a `Failure` that records which call failed and what it wraps;
  - an index-out-of-range panic, as `Panic`;
  - a nil slice versus an empty one, as `Slice.Nil` versus `Items([])`.
- `Soundness` relates the two versions to each other and to `VerifyProof`.

Heights are modelled as `nat`, so the `uint64(item.Height)` conversion is the identity.

The paginated loop checks `page*perPage >= TotalCount` *before* it appends the page's records. The page on which the loop stops therefore never contributes:
- with 250 matches, three pages are requested and 200 records come back;
- with at most 100 matches, nothing comes back.

A caller that expects every match gets 200 of 250. See `ProofImpl.CompleteIndexLosesLastPage` and `ProofImpl.TwoHundredFiftyMatchesYieldTwoHundred`.

## Model

| member | source | states |
|---|---|---|
| Query.Terms | internal/proof/proof_impl/recipient_transactions.go:86-89 | one `key='value'` term per visited key, in the order the keys are visited |
| Query.QueryFromParams | internal/proof/proof_impl/recipient_transactions.go:85-91 | the query is empty exactly when there are no parameters |
| Query.QueryTerms | internal/proofer/proofs/recipient_transactions.go:20-24 | the query is the `" AND "`-join of exactly one term per parameter: every key is visited once and only keys of the map are visited |
| Query.JoinLayout | internal/proof/proof_impl/recipient_transactions.go:90 | the joined query is term, separator, term, …, term: each term at its offset, one separator between neighbours, and nothing after the last |
| Query.QueryOrderIndependent | internal/proof/proof_impl/recipient_transactions.go:87-90 | two iteration orders of the same map give queries that join the same terms, possibly rearranged |
| Batch.Collect | internal/proof/proof_impl/recipient_transactions.go:50-66 | the batch succeeds iff every step does; on success it has one value per transaction, in order; otherwise it reports the first failing transaction's error wrapped with that transaction, or its panic |
| Batch.CollectCongruent | internal/proofer/proofs/recipient_transactions.go:42-58 | the batch depends on the step only through the step's values on the transactions it is given |
| ProofImpl.SearchFrom | internal/proof/proof_impl/recipient_transactions.go:14-44 | requests are for pages 1, 2, … consecutively, with proofs, 100 per page and empty ordering, up to and including the first page that is an error, is empty or reaches the total; an error there is reported; otherwise the records are pages 1 .. stop-1 concatenated, and the stopping page is left out |
| ProofImpl.FixedTotalBoundsRequests | internal/proof/proof_impl/recipient_transactions.go:25-44 | against a node with a fixed total count, the loop ends and makes at most max(1, ceil(total/100)) requests |
| ProofImpl.CompleteIndexLosesLastPage | internal/proof/proof_impl/recipient_transactions.go:31-41 | against a node with every match on exactly one page, every page is requested, only the full pages before the last come back, and the result has total minus the last page's records, fewer than total whenever total is positive |
| ProofImpl.TwoHundredFiftyMatchesYieldTwoHundred | internal/proof/proof_impl/recipient_transactions.go:35-41 | 250 matches: three requests, 200 records |
| ProofImpl.OnePageOfMatchesYieldsNothing | internal/proof/proof_impl/recipient_transactions.go:35-37 | a total of at most 100 ends the loop on page 1 with no records, whatever page 1 holds |
| ProofImpl.TxCompletedSuccessfullyProof | internal/proof/proof_impl/recipient_transactions.go:70-83 | a failed block-results fetch is an error naming the height; an index past the results panics; otherwise it returns the proof and the result at the index, and under `Agrees` that proof verifies against the results' root whenever the result can be encoded |
| ProofImpl.RecipientTransactions | internal/proof/proof_impl/recipient_transactions.go:20-67 | a search error aborts with no records; no found records give an empty non-nil list; it succeeds iff the search did and every found record could be proved; record i carries found transaction i's inclusion proof, height, block result and delivery proof; otherwise the first failing transaction decides the outcome |
| ProofImpl.ProveTx | internal/proof/proof_impl/recipient_transactions.go:52-62 | the record for one found transaction: a failed block-results fetch is an error naming the height; an index past the results panics; otherwise the record carries the transaction's inclusion proof and height, the result at its index and the delivery proof for that index |
| Proofs.ABCIResponsesResultsHash | internal/proofer/proofs/recipient_transactions.go:106-108 | under `Agrees`, the library's proof for every encodable result verifies against this hash |
| Proofs.TxCompletedSuccessfullyProof | internal/proofer/proofs/recipient_transactions.go:61-72 | a failed fetch is an error naming the height; an index past the results panics; otherwise it returns the library's proof for that index of the block's results |
| Proofs.VerifyProof | internal/proofer/proofs/recipient_transactions.go:75-96 | it panics iff the index is past the results; it succeeds iff the result at the index encodes and the proof verifies that encoding against the root of all the results; an encoding error is returned as it is, and so is a rejection by the proof |
| Proofs.ProveTx | internal/proofer/proofs/recipient_transactions.go:44-53 | the proof for one page-1 transaction: a failed block-results fetch is an error naming the height; an index past the results panics; otherwise it carries the transaction's block proof and height and the delivery proof for its index |
| Proofs.RecipientTransactions | internal/proofer/proofs/recipient_transactions.go:19-59 | a search error aborts; a total count of 0 is exactly when it returns a nil slice and no error; otherwise it succeeds iff every transaction of page 1 could be proved, with proof i carrying transaction i's block proof, height and delivery proof; the first failure decides the outcome |
| Proofs.OnlyFirstPageConsulted | internal/proofer/proofs/recipient_transactions.go:27-31 | only the page-1 search matters: nodes that agree on it and on block results give the same outcome |
| Soundness.ProveThenVerify | internal/proofer/proofs/recipient_transactions.go:61-95 | under `Agrees`, a proof fetched for an existing result passes `VerifyProof` for that block and index iff the result can be encoded |
| Soundness.ImplementationsAgree | internal/proof/proof_impl/recipient_transactions.go:70-83 | the two `TxCompletedSuccessfullyProof` functions fail alike, panic alike and return the same proof |
| Soundness.DeliveryProofsVerify | internal/proof/proof_impl/recipient_transactions.go:50-66 | under `Agrees`, every record of the paginated version carries a delivery proof that `VerifyProof` accepts iff the result it carries can be encoded |
| Soundness.SuccessProofsVerify | internal/proofer/proofs/recipient_transactions.go:42-58 | under `Agrees`, every proof of the single-page version passes `VerifyProof` for its transaction's block and index iff that result can be encoded |

## Left out

- The RPC client, `context.Context` and error message texts. `TxSearch` and `BlockResults` are pure functions of the request that may fail, and a `Failure` records which call failed and what it wraps instead of the formatted string.
- The `Printf` of the search result in `internal/proofer/proofs/recipient_transactions.go:32`: output only.
- The Merkle tree, SHA-256 hashing and protobuf encoding of the Tendermint library. They are the function fields of `MerkleLib`; `Agrees` is the one property assumed of them.
- Panics inside the library are not modelled. `root`, `prove` and `verify` are total functions. `prove` has no failure value at all, and `marshal` reports failure by value. Only the model's own index checks panic.
- Proofs.VerifyProof: when the result at the index cannot be encoded, the model returns `Err(MarshalFailed)`, as the source's check at `internal/proofer/proofs/recipient_transactions.go:90-93` does. In the Tendermint library, `Hash()` (reached at :83) and `ProveResult` encode every result of the block and panic as soon as one fails. So in the running code that error return sits behind a panic, and the model does not show that panic.
- `TxValue.tx` carries the result as the block returned it, not the part `NewResults` keeps. The record's delivery proof is for the leaf encoding of that result, which `marshal` computes.
- The commented-out comparison against the block header's `LastResultsHash` in `VerifyProof`: it is not code.
- The converse of the round trip, that `VerifyProof` rejects a proof for a different result, needs collision resistance of the hash. That is not a property of this code and is not stated.
- Map iteration order is not random here: it is the parameter `order`, constrained only to be some listing of the keys.
- Integer widths are not modelled:
  - `page*perPage` cannot overflow in the model;
  - heights are `nat`, so negative `int64` heights are not modelled and the `uint64` cast is the identity;
  - indexes are `nat`, so the `uint32` range is not modelled.
- ProofImpl.RecipientTransactions: it requires that the search loop ends (`Terminates`). A node that keeps raising its total count makes the Go loop run forever, and that run is not modelled.
- ProofImpl.SearchFrom: it requires that the loop ends, as above.
- The nil/empty distinction of the paginated version's error results: an error returns a nil list there, and the model returns no list at all.
