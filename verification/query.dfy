/** Turning the caller's key/value parameters into a `TxSearch` query, and
    the search request both implementations send. */
module Query {
  import opened Types
  import opened Sequences

  /** The page size both implementations pass to `TxSearch`. */
  const PerPage: int := 100

  /** The (empty) ordering both implementations pass to `TxSearch`. */
  const OrderBy: string := ""

  const Separator: string := " AND "

  /** The request for one page of matches, always asking for proofs. */
  function PageRequest(query: string, page: int): SearchRequest
  {
    SearchRequest(query, true, page, PerPage, OrderBy)
  }

  /** `fmt.Sprintf("%s='%s'", key, value)` */
  function Term(key: string, value: string): string
  {
    key + "='" + value + "'"
  }

  /** `strings.Join(parts, sep)` */
  function Join(parts: seq<string>, sep: string): string
  {
    if |parts| == 0 then ""
    else if |parts| == 1 then parts[0]
    else parts[0] + sep + Join(parts[1..], sep)
  }

  /** Where part `i` starts in `Join(parts, sep)`: every earlier part
      followed by one separator. */
  function Offset(parts: seq<string>, sep: string, i: nat): nat
    requires i <= |parts|
  {
    if i == 0 then 0 else |parts[0]| + |sep| + Offset(parts[1..], sep, i - 1)
  }

  /** Consecutive offsets are one part and one separator apart. */
  lemma {:induction false} OffsetStep(parts: seq<string>, sep: string, i: nat)
    requires i < |parts|
    ensures Offset(parts, sep, i + 1) == Offset(parts, sep, i) + |parts[i]| + |sep|
  {
    if i > 0 {
      OffsetStep(parts[1..], sep, i - 1);
      assert parts[1..][i - 1] == parts[i];
    }
  }

  /** The length of a joined string: every part followed by a separator,
      less the separator after the last part. */
  lemma {:induction false} JoinLength(parts: seq<string>, sep: string)
    requires |parts| > 0
    ensures |Join(parts, sep)| + |sep| == Offset(parts, sep, |parts|)
  {
    if |parts| > 1 {
      JoinLength(parts[1..], sep);
    }
  }

  /** Each part of a joined string sits at its offset. */
  lemma {:induction false} JoinParts(parts: seq<string>, sep: string)
    requires |parts| > 0
    ensures forall i :: 0 <= i < |parts| ==>
      Offset(parts, sep, i) + |parts[i]| <= |Join(parts, sep)| &&
      Join(parts, sep)[Offset(parts, sep, i)..Offset(parts, sep, i) + |parts[i]|] == parts[i]
  {
    var s := Join(parts, sep);
    if |parts| > 1 {
      var tail := parts[1..];
      var t := Join(tail, sep);
      JoinParts(tail, sep);
      assert s == parts[0] + sep + t;
      var h := |parts[0]| + |sep|;
      forall i | 0 <= i < |parts|
        ensures Offset(parts, sep, i) + |parts[i]| <= |s|
        ensures s[Offset(parts, sep, i)..Offset(parts, sep, i) + |parts[i]|] == parts[i]
      {
        if i == 0 {
          assert s[..|parts[0]|] == parts[0];
        } else {
          assert parts[i] == tail[i - 1];
          var o := Offset(tail, sep, i - 1);
          assert Offset(parts, sep, i) == h + o;
          assert s[h + o..h + o + |parts[i]|] == t[o..o + |tail[i - 1]|];
        }
      }
    }
  }

  /** The separator after part `i` of a joined string, when a part follows. */
  lemma {:induction false} JoinSeparatorAt(parts: seq<string>, sep: string, i: nat)
    requires i < |parts| - 1
    ensures Offset(parts, sep, i) + |parts[i]| + |sep| <= |Join(parts, sep)|
    ensures Join(parts, sep)[Offset(parts, sep, i) + |parts[i]|..Offset(parts, sep, i) + |parts[i]| + |sep|] == sep
  {
    var tail := parts[1..];
    var a := parts[0] + sep;
    var t := Join(tail, sep);
    assert Join(parts, sep) == a + t;
    if i == 0 {
      assert (a + t)[|parts[0]|..|a|] == sep;
    } else {
      JoinSeparatorAt(tail, sep, i - 1);
      var e := Offset(tail, sep, i - 1) + |tail[i - 1]|;
      assert Offset(parts, sep, i) + |parts[i]| == |a| + e by {
        assert parts[i] == tail[i - 1];
      }
      ShiftSlice(a, t, e, e + |sep|);
    }
  }

  /** Between two consecutive parts of a joined string stands one separator. */
  lemma JoinSeparators(parts: seq<string>, sep: string)
    requires |parts| > 0
    ensures forall i :: 0 <= i < |parts| - 1 ==>
      Offset(parts, sep, i) + |parts[i]| + |sep| <= |Join(parts, sep)| &&
      Join(parts, sep)[Offset(parts, sep, i) + |parts[i]|..Offset(parts, sep, i) + |parts[i]| + |sep|] == sep
  {
    forall i | 0 <= i < |parts| - 1
      ensures Offset(parts, sep, i) + |parts[i]| + |sep| <= |Join(parts, sep)|
      ensures Join(parts, sep)[Offset(parts, sep, i) + |parts[i]|..Offset(parts, sep, i) + |parts[i]| + |sep|] == sep
    {
      JoinSeparatorAt(parts, sep, i);
    }
  }

  /** A joined string is laid out part, separator, part, ..., part: each
      part sits at its offset, a separator fills the gap to the next one,
      and nothing follows the last part. */
  lemma JoinLayout(parts: seq<string>, sep: string)
    requires |parts| > 0
    ensures |Join(parts, sep)| + |sep| == Offset(parts, sep, |parts|)
    ensures forall i :: 0 <= i < |parts| ==>
      Offset(parts, sep, i + 1) == Offset(parts, sep, i) + |parts[i]| + |sep|
    ensures forall i :: 0 <= i < |parts| ==>
      Offset(parts, sep, i) + |parts[i]| <= |Join(parts, sep)| &&
      Join(parts, sep)[Offset(parts, sep, i)..Offset(parts, sep, i) + |parts[i]|] == parts[i]
    ensures forall i :: 0 <= i < |parts| - 1 ==>
      Offset(parts, sep, i) + |parts[i]| + |sep| <= |Join(parts, sep)| &&
      Join(parts, sep)[Offset(parts, sep, i) + |parts[i]|..Offset(parts, sep, i) + |parts[i]| + |sep|] == sep
  {
    forall i | 0 <= i < |parts|
      ensures Offset(parts, sep, i + 1) == Offset(parts, sep, i) + |parts[i]| + |sep|
    {
      OffsetStep(parts, sep, i);
    }
    JoinLength(parts, sep);
    JoinParts(parts, sep);
    JoinSeparators(parts, sep);
  }

  /** `order` is one way Go may range over `params`: every key exactly once. */
  ghost predicate IsIterationOrder(order: seq<string>, params: map<string, string>)
  {
    multiset(order) == multiset(params.Keys)
  }

  /** The terms for the keys of `order`, in that order. */
  function Terms(params: map<string, string>, order: seq<string>): (ts: seq<string>)
    requires forall k :: k in order ==> k in params
    ensures |ts| == |order|
    ensures forall i :: 0 <= i < |order| ==> ts[i] == Term(order[i], params[order[i]])
  {
    if |order| == 0 then [] else [Term(order[0], params[order[0]])] + Terms(params, order[1..])
  }

  /** `queryFromParams`: one `key='value'` term per parameter, visited in
      the iteration order `order`, joined by `" AND "`. */
  function QueryFromParams(params: map<string, string>, order: seq<string>): (q: string)
    requires IsIterationOrder(order, params)
    ensures |params| == 0 <==> q == ""
  {
    assert forall k :: k in order <==> k in multiset(order);
    assert |order| == |multiset(params.Keys)| == |params|;
    var terms := Terms(params, order);
    assert |params| > 0 ==> |terms[0]| >= 3;
    Join(terms, Separator)
  }

  /** A sequence with the multiset of a set lists each element once. */
  lemma DistinctKeys(order: seq<string>, keys: set<string>)
    requires multiset(order) == multiset(keys)
    ensures forall i, j :: 0 <= i < j < |order| ==> order[i] != order[j]
  {
    forall i, j | 0 <= i < j < |order|
      ensures order[i] != order[j]
    {
      var x := order[i];
      assert order == order[..j] + order[j..];
      assert order[..j][i] == x;
      assert order[j..][0] == order[j];
      assert multiset(order)[order[j]] == multiset(order[..j])[order[j]] + multiset(order[j..])[order[j]];
      assert multiset(order[..j])[x] >= 1 && multiset(order[j..])[order[j]] >= 1;
      assert multiset(keys)[x] <= 1;
    }
  }

  /** The query is the `" AND "`-join of exactly one term per parameter. */
  lemma QueryTerms(params: map<string, string>, order: seq<string>)
    requires IsIterationOrder(order, params)
    ensures |order| == |params|
    ensures forall k :: k in params <==> k in order
    ensures forall i, j :: 0 <= i < j < |order| ==> order[i] != order[j]
    ensures QueryFromParams(params, order) == Join(Terms(params, order), Separator)
  {
    assert forall k :: k in order <==> k in multiset(order);
    assert |order| == |multiset(params.Keys)| == |params|;
    DistinctKeys(order, params.Keys);
  }

  /** Two orders with the same keys give the same terms, possibly
      rearranged. */
  lemma TermsPermutation(params: map<string, string>, o1: seq<string>, o2: seq<string>)
    requires forall k :: k in o1 ==> k in params
    requires multiset(o1) == multiset(o2)
    ensures forall k :: k in o2 ==> k in params
    ensures multiset(Terms(params, o1)) == multiset(Terms(params, o2))
  {
    forall k | k in o2
      ensures k in params
    {
      assert k in multiset(o2);
      assert k in multiset(o1);
    }
    var f := (k: string) => if k in params then Term(k, params[k]) else "";
    PermutedImages(f, o1, o2, Terms(params, o1), Terms(params, o2));
  }

  /** Whatever order Go ranges over the map in, the query holds the same
      terms: the queries for two iteration orders join permutations of one
      another. */
  lemma QueryOrderIndependent(params: map<string, string>, o1: seq<string>, o2: seq<string>)
    requires IsIterationOrder(o1, params) && IsIterationOrder(o2, params)
    ensures forall k :: k in o1 <==> k in params
    ensures forall k :: k in o2 <==> k in params
    ensures QueryFromParams(params, o1) == Join(Terms(params, o1), Separator)
    ensures QueryFromParams(params, o2) == Join(Terms(params, o2), Separator)
    ensures multiset(Terms(params, o1)) == multiset(Terms(params, o2))
  {
    assert forall k :: k in o1 <==> k in multiset(o1);
    assert forall k :: k in o2 <==> k in multiset(o2);
    TermsPermutation(params, o1, o2);
  }
}
