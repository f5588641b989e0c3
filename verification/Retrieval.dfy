/**
 Merging ranked results, as merge_and_sort_query_results and query_collection of
 backend/open_webui/retrieval/utils.py do: keep the best score of each document, sort, cut to k.
 The vector database has already cut each collection's answer to its own k.
 */
module Retrieval {
  import opened Basics

  type Digest = string
  type Hash = string -> Digest

  /** One retrieved chunk; a document that is not a string is skipped by the merge. */
  datatype Hit = Hit(score: real, document: Option<string>, metadata: string)

  /** The three parallel lists a query returns. */
  datatype QueryResult = QueryResult(distances: seq<real>, documents: seq<Option<string>>, metadatas: seq<string>)

  /** A document kept by the merge, under its digest. */
  datatype Best = Best(digest: Digest, score: real, document: string, metadata: string)

  function Min(a: nat, b: nat): nat {
    if a < b then a else b
  }

  /** zip stops at the shortest list. */
  function Zip(r: QueryResult): seq<Hit> {
    seq(Min(|r.distances|, Min(|r.documents|, |r.metadatas|)),
        i requires 0 <= i < Min(|r.distances|, Min(|r.documents|, |r.metadatas|)) =>
          Hit(r.distances[i], r.documents[i], r.metadatas[i]))
  }

  /** Each of the three lists is at least as long, one of them is no longer, and place i is read from each. */
  lemma ZipExactly(r: QueryResult)
    ensures |Zip(r)| <= |r.distances| && |Zip(r)| <= |r.documents| && |Zip(r)| <= |r.metadatas|
    ensures |Zip(r)| == |r.distances| || |Zip(r)| == |r.documents| || |Zip(r)| == |r.metadatas|
    ensures forall i :: 0 <= i < |Zip(r)| ==> Zip(r)[i] == Hit(r.distances[i], r.documents[i], r.metadatas[i])
  {
  }

  function Flat(lists: seq<seq<Hit>>): seq<Hit>
    decreases |lists|
  {
    if lists == [] then [] else Flat(lists[..|lists| - 1]) + lists[|lists| - 1]
  }

  /** One ranking, or each of several, cut to its own first k. */
  function Cut(list: seq<Hit>, k: nat): seq<Hit> {
    list[..Min(k, |list|)]
  }

  function Cuts(lists: seq<seq<Hit>>, k: nat): seq<seq<Hit>> {
    seq(|lists|, i requires 0 <= i < |lists| => Cut(lists[i], k))
  }

  function Zips(results: seq<QueryResult>): seq<seq<Hit>> {
    seq(|results|, i requires 0 <= i < |results| => Zip(results[i]))
  }

  function Unzip(hits: seq<Hit>): QueryResult {
    QueryResult(seq(|hits|, i requires 0 <= i < |hits| => hits[i].score),
                seq(|hits|, i requires 0 <= i < |hits| => hits[i].document),
                seq(|hits|, i requires 0 <= i < |hits| => hits[i].metadata))
  }

  lemma {:induction false} FlatMember(lists: seq<seq<Hit>>, i: nat, h: Hit)
    requires i < |lists| && h in lists[i]
    ensures h in Flat(lists)
    decreases |lists|
  {
    if i < |lists| - 1 {
      FlatMember(lists[..|lists| - 1], i, h);
    }
  }

  lemma {:induction false} FlatOrigin(lists: seq<seq<Hit>>, h: Hit) returns (i: nat)
    requires h in Flat(lists)
    ensures i < |lists| && h in lists[i]
    decreases |lists|
  {
    if h in lists[|lists| - 1] {
      i := |lists| - 1;
    } else {
      i := FlatOrigin(lists[..|lists| - 1], h);
    }
  }

  // ---- The best score of each document

  function Improve(m: map<Digest, real>, h: Hit, hash: Hash): map<Digest, real> {
    if h.document.None? then m
    else
      var d := hash(h.document.value);
      if d in m && m[d] >= h.score then m else m[d := h.score]
  }

  function BestOf(hits: seq<Hit>, hash: Hash): map<Digest, real>
    decreases |hits|
  {
    if hits == [] then map[] else Improve(BestOf(hits[..|hits| - 1], hash), hits[|hits| - 1], hash)
  }

  predicate Carries(h: Hit, hash: Hash, d: Digest) {
    h.document.Some? && hash(h.document.value) == d
  }

  /** BestOf holds exactly the digests met, each with its greatest score. */
  lemma {:induction false} BestOfIsBest(hits: seq<Hit>, hash: Hash)
    ensures forall i :: 0 <= i < |hits| && hits[i].document.Some? ==>
      hash(hits[i].document.value) in BestOf(hits, hash) && hits[i].score <= BestOf(hits, hash)[hash(hits[i].document.value)]
    ensures forall d :: d in BestOf(hits, hash) ==>
      exists i :: 0 <= i < |hits| && Carries(hits[i], hash, d) && hits[i].score == BestOf(hits, hash)[d]
    decreases |hits|
  {
    if hits != [] {
      var n := |hits| - 1;
      BestOfIsBest(hits[..n], hash);
      var before, after := BestOf(hits[..n], hash), BestOf(hits, hash);
      forall d | d in after ensures exists i :: 0 <= i < |hits| && Carries(hits[i], hash, d) && hits[i].score == after[d] {
        if d in before && after[d] == before[d] {
          var i :| 0 <= i < n && Carries(hits[..n][i], hash, d) && hits[..n][i].score == before[d];
          assert hits[i] == hits[..n][i];
        } else {
          assert Carries(hits[n], hash, d);
        }
      }
      forall i | 0 <= i < n && hits[i].document.Some?
        ensures hash(hits[i].document.value) in after && hits[i].score <= after[hash(hits[i].document.value)]
      {
        assert hits[i] == hits[..n][i];
      }
    }
  }

  // ---- What a merged answer is

  predicate Descending(s: seq<Best>) {
    forall i, j :: 0 <= i < j < |s| ==> s[i].score >= s[j].score
  }

  predicate DistinctDigests(s: seq<Best>) {
    forall i, j :: 0 <= i < j < |s| ==> s[i].digest != s[j].digest
  }

  function Digests(s: seq<Best>): set<Digest> {
    set i | 0 <= i < |s| :: s[i].digest
  }

  /** out holds the k best documents of m: sorted, none twice, and nothing left out beats anything kept. */
  ghost predicate TopK(out: seq<Best>, m: map<Digest, real>, k: nat) {
    && |out| == Min(k, |m|)
    && Descending(out) && DistinctDigests(out)
    && (forall i :: 0 <= i < |out| ==> out[i].digest in m && m[out[i].digest] == out[i].score)
    && (forall d, i :: d in m && d !in Digests(out) && 0 <= i < |out| ==> m[d] <= out[i].score)
  }

  function Scores(s: seq<Best>): seq<real> {
    seq(|s|, i requires 0 <= i < |s| => s[i].score)
  }

  // ---- The order in which documents first come, and the hit each one keeps

  /** The first hit that carries the digest, or the number of hits when none does. */
  function First(hits: seq<Hit>, hash: Hash, d: Digest): (i: nat)
    ensures i <= |hits|
    ensures i < |hits| ==> Carries(hits[i], hash, d)
    ensures forall l :: 0 <= l < i ==> !Carries(hits[l], hash, d)
    decreases |hits|
  {
    if hits == [] || Carries(hits[0], hash, d) then 0 else 1 + First(hits[1..], hash, d)
  }

  /** Documents numbered by where they first came. */
  function Rank(hits: seq<Hit>, hash: Hash): Digest -> nat {
    d => First(hits, hash, d)
  }

  /** Of the hits with the best score of this digest, i is the first: a later one must be strictly better to replace it. */
  predicate IsKept(hits: seq<Hit>, hash: Hash, d: Digest, i: nat) {
    && i < |hits| && Carries(hits[i], hash, d)
    && forall l :: 0 <= l < |hits| && Carries(hits[l], hash, d) ==>
         hits[l].score <= hits[i].score && (l < i ==> hits[l].score < hits[i].score)
  }

  function Entry(h: Hit, hash: Hash): Best
    requires h.document.Some?
  {
    Best(hash(h.document.value), h.score, h.document.value, h.metadata)
  }

  /** The entry is the kept hit of its digest: score, document and metadata. */
  predicate Keeps(b: Best, hits: seq<Hit>, hash: Hash) {
    exists i :: 0 <= i < |hits| && IsKept(hits, hash, b.digest, i) && b == Entry(hits[i], hash)
  }

  /** Equal scores stand in the order of their ranks, and those cut away rank behind. */
  ghost predicate TiesKeepOrder(top: seq<Best>, m: map<Digest, real>, rank: Digest -> nat) {
    && (forall i, j :: 0 <= i < j < |top| && top[i].score == top[j].score ==> rank(top[i].digest) < rank(top[j].digest))
    && (forall d, i :: d in m && d !in Digests(top) && 0 <= i < |top| && m[d] == top[i].score ==>
         rank(top[i].digest) < rank(d))
  }

  /** What the merge of these hits is, to the last tie and metadata. */
  ghost predicate IsMerge(top: seq<Best>, hits: seq<Hit>, k: nat, hash: Hash) {
    && TopK(top, BestOf(hits, hash), k)
    && (forall i :: 0 <= i < |top| ==> Keeps(top[i], hits, hash))
    && TiesKeepOrder(top, BestOf(hits, hash), Rank(hits, hash))
  }

  lemma KeptOnce(a: Best, b: Best, hits: seq<Hit>, hash: Hash)
    requires Keeps(a, hits, hash) && Keeps(b, hits, hash) && a.digest == b.digest
    ensures a == b
  {
    var i :| 0 <= i < |hits| && IsKept(hits, hash, a.digest, i) && a == Entry(hits[i], hash);
    var j :| 0 <= j < |hits| && IsKept(hits, hash, b.digest, j) && b == Entry(hits[j], hash);
    assert i == j;
  }

  lemma PrefixDigest(s: seq<Best>, n: nat, l: nat)
    requires n <= |s| && l < |s|
    ensures l < n ==> s[l].digest in Digests(s[..n])
  {
    if l < n {
      assert s[..n][l] == s[l];
    }
  }

  /** A document that stands nowhere up to place j does not come before the one there. */
  lemma NoneComesBefore(top: seq<Best>, m: map<Digest, real>, k: nat, rank: Digest -> nat, j: nat, b: Best)
    requires TopK(top, m, k) && TiesKeepOrder(top, m, rank) && j < |top|
    requires b.digest in m && m[b.digest] == b.score && forall l :: 0 <= l <= j ==> top[l].digest != b.digest
    ensures top[j].score > b.score || (top[j].score == b.score && rank(top[j].digest) < rank(b.digest))
  {
    if b.digest in Digests(top) {
      var l :| 0 <= l < |top| && top[l].digest == b.digest;
      assert l > j;
    }
  }

  predicate AgreeBefore(a: seq<Best>, b: seq<Best>, n: nat) {
    n <= |a| && n <= |b| && forall l :: 0 <= l < n ==> a[l] == b[l]
  }

  lemma NotAmongFirst(a: seq<Best>, b: seq<Best>, j: nat)
    requires DistinctDigests(b) && AgreeBefore(a, b, j) && j < |a| && j < |b| && a[j].digest != b[j].digest
    ensures forall l :: 0 <= l <= j ==> a[l].digest != b[j].digest
  {
    forall l | 0 <= l <= j ensures a[l].digest != b[j].digest {
      assert l < j ==> a[l] == b[l];
    }
  }

  lemma SameDigestNext(a: seq<Best>, b: seq<Best>, m: map<Digest, real>, k: nat, rank: Digest -> nat, j: nat)
    requires TopK(a, m, k) && TiesKeepOrder(a, m, rank) && TopK(b, m, k) && TiesKeepOrder(b, m, rank)
    requires AgreeBefore(a, b, j) && j < |a| && j < |b|
    ensures a[j].digest == b[j].digest
  {
    if a[j].digest != b[j].digest {
      NotAmongFirst(a, b, j);
      NotAmongFirst(b, a, j);
      NoneComesBefore(a, m, k, rank, j, b[j]);
      NoneComesBefore(b, m, k, rank, j, a[j]);
    }
  }

  lemma {:induction false} AgreeEverywhere(a: seq<Best>, b: seq<Best>, n: nat)
    requires |a| == |b| && n <= |a|
    requires forall j :: 0 <= j < |a| && AgreeBefore(a, b, j) ==> a[j] == b[j]
    ensures AgreeBefore(a, b, n)
    decreases n
  {
    if n > 0 {
      AgreeEverywhere(a, b, n - 1);
      assert a[n - 1] == b[n - 1];
    }
  }

  /** IsMerge leaves no choice: two answers that meet it are the same. */
  lemma MergeIsDetermined(a: seq<Best>, b: seq<Best>, hits: seq<Hit>, k: nat, hash: Hash)
    requires IsMerge(a, hits, k, hash) && IsMerge(b, hits, k, hash)
    ensures a == b
  {
    forall j | 0 <= j < |a| && AgreeBefore(a, b, j) ensures a[j] == b[j] {
      SameDigestNext(a, b, BestOf(hits, hash), k, Rank(hits, hash), j);
      KeptOnce(a[j], b[j], hits, hash);
    }
    AgreeEverywhere(a, b, |a|);
  }

  // ---- Python's stable sort by descending score

  function InsertDescending(b: Best, s: seq<Best>): seq<Best>
    decreases |s|
  {
    if s == [] || b.score >= s[0].score then [b] + s else [s[0]] + InsertDescending(b, s[1..])
  }

  function SortDescending(s: seq<Best>): seq<Best>
    decreases |s|
  {
    if s == [] then [] else InsertDescending(s[0], SortDescending(s[1..]))
  }

  lemma {:induction false} InsertRearranges(b: Best, s: seq<Best>)
    ensures multiset(InsertDescending(b, s)) == multiset(s) + multiset{b}
    ensures forall x :: x in InsertDescending(b, s) ==> x == b || x in s
    decreases |s|
  {
    if s == [] || b.score >= s[0].score {
      assert multiset([b] + s) == multiset{b} + multiset(s);
    } else {
      InsertRearranges(b, s[1..]);
      assert s == [s[0]] + s[1..];
    }
  }

  /** a comes before b: a better score, or the same score and first come. */
  predicate Beats(a: Best, b: Best, rank: Digest -> nat) {
    a.score > b.score || (a.score == b.score && rank(a.digest) < rank(b.digest))
  }

  predicate Ranked(s: seq<Best>, rank: Digest -> nat) {
    forall i, j :: 0 <= i < j < |s| ==> Beats(s[i], s[j], rank)
  }

  lemma {:induction false} InsertRanked(b: Best, s: seq<Best>, rank: Digest -> nat)
    requires Ranked(s, rank) && forall x :: x in s ==> rank(b.digest) < rank(x.digest)
    ensures Ranked(InsertDescending(b, s), rank)
    decreases |s|
  {
    if s != [] && b.score < s[0].score {
      assert forall x :: x in s[1..] ==> x in s;
      InsertRanked(b, s[1..], rank);
      InsertRearranges(b, s[1..]);
      var rest := InsertDescending(b, s[1..]);
      forall j | 0 <= j < |rest| ensures Beats(s[0], rest[j], rank) {
        assert rest[j] in rest;
        if rest[j] != b {
          var l :| 0 <= l < |s[1..]| && s[1..][l] == rest[j];
          assert rest[j] == s[l + 1];
        }
      }
    }
  }

  lemma {:induction false} SortRearranges(s: seq<Best>)
    ensures multiset(SortDescending(s)) == multiset(s)
    decreases |s|
  {
    if s != [] {
      SortRearranges(s[1..]);
      InsertRearranges(s[0], SortDescending(s[1..]));
      assert s == [s[0]] + s[1..];
    }
  }

  /** The sort puts better scores first and keeps the given order among equal scores. */
  lemma {:induction false} SortStable(s: seq<Best>, rank: Digest -> nat)
    requires forall i, j :: 0 <= i < j < |s| ==> rank(s[i].digest) < rank(s[j].digest)
    ensures Ranked(SortDescending(s), rank)
    decreases |s|
  {
    if s != [] {
      SortStable(s[1..], rank);
      SortRearranges(s[1..]);
      var rest := SortDescending(s[1..]);
      forall x | x in rest ensures rank(s[0].digest) < rank(x.digest) {
        assert x in multiset(rest);
        var l :| 0 <= l < |s[1..]| && s[1..][l] == x;
      }
      InsertRanked(s[0], rest, rank);
    }
  }

  /** Rearranging a list of distinct digests keeps them distinct. */
  lemma {:induction false} RearrangedDistinct(s: seq<Best>, t: seq<Best>)
    requires multiset(s) == multiset(t) && DistinctDigests(s)
    ensures DistinctDigests(t)
  {
    forall i, j | 0 <= i < j < |t| ensures t[i].digest != t[j].digest {
      if t[i].digest == t[j].digest {
        assert t[i] in multiset(t) && t[j] in multiset(t);
        assert t[i] in s && t[j] in s;
        assert t[i] == t[j];
        assert t == t[..i] + [t[i]] + t[i + 1..j] + [t[j]] + t[j + 1..];
        assert multiset(t)[t[i]] >= 2;
        OnceOnly(s, t[i]);
      }
    }
  }

  lemma {:induction false} OnceOnly(s: seq<Best>, b: Best)
    requires DistinctDigests(s)
    ensures multiset(s)[b] <= 1
    decreases |s|
  {
    if s != [] {
      OnceOnly(s[1..], b);
      assert s == [s[0]] + s[1..];
      assert forall j :: 0 <= j < |s[1..]| ==> s[1..][j] == s[j + 1];
      assert s[0] !in s[1..];
    }
  }

  // ---- The dictionary of the merge

  /** The dictionary's values in the order their keys first came. */
  function Values(order: seq<Digest>, combined: map<Digest, Best>): seq<Best>
    requires forall i :: 0 <= i < |order| ==> order[i] in combined
  {
    seq(|order|, i requires 0 <= i < |order| => combined[order[i]])
  }

  /** The keys stand in the order in which they first came. */
  ghost predicate InFirstOrder(order: seq<Digest>, hits: seq<Hit>, hash: Hash) {
    forall i, j :: 0 <= i < j < |order| ==> First(hits, hash, order[i]) < First(hits, hash, order[j])
  }

  /** Each document met is there with the hit it keeps. */
  ghost predicate HoldsKept(combined: map<Digest, Best>, hits: seq<Hit>, hash: Hash) {
    && combined.Keys == BestOf(hits, hash).Keys
    && forall d :: d in combined ==>
         combined[d].digest == d && combined[d].score == BestOf(hits, hash)[d] && Keeps(combined[d], hits, hash)
  }

  /** The dictionary after some hits. */
  ghost predicate CombinedInv(order: seq<Digest>, combined: map<Digest, Best>, hits: seq<Hit>, hash: Hash) {
    && InFirstOrder(order, hits, hash) && HoldsKept(combined, hits, hash)
    && forall d :: d in order <==> d in combined
  }

  lemma BestOfStep(hits: seq<Hit>, h: Hit, hash: Hash)
    ensures BestOf(hits + [h], hash) == Improve(BestOf(hits, hash), h, hash)
  {
    assert (hits + [h])[..|hits|] == hits;
  }

  /** A digest met before keeps its first place; a new one takes the next. */
  lemma FirstStep(hits: seq<Hit>, h: Hit, hash: Hash, d: Digest)
    ensures First(hits, hash, d) < |hits| ==> First(hits + [h], hash, d) == First(hits, hash, d)
    ensures First(hits, hash, d) == |hits| && Carries(h, hash, d) ==> First(hits + [h], hash, d) == |hits|
  {
    var all := hits + [h];
    assert forall l :: 0 <= l < |hits| ==> Carries(all[l], hash, d) == Carries(hits[l], hash, d);
    assert all[|hits|] == h;
  }

  lemma KeptStep(b: Best, hits: seq<Hit>, h: Hit, hash: Hash)
    requires Keeps(b, hits, hash) && (Carries(h, hash, b.digest) ==> h.score <= b.score)
    ensures Keeps(b, hits + [h], hash)
  {
    var i :| 0 <= i < |hits| && IsKept(hits, hash, b.digest, i) && b == Entry(hits[i], hash);
    assert (hits + [h])[i] == hits[i];
    assert IsKept(hits + [h], hash, b.digest, i);
  }

  lemma KeptNow(hits: seq<Hit>, h: Hit, hash: Hash)
    requires h.document.Some?
    requires forall l :: 0 <= l < |hits| && Carries(hits[l], hash, hash(h.document.value)) ==> hits[l].score < h.score
    ensures Keeps(Entry(h, hash), hits + [h], hash)
  {
    assert (hits + [h])[|hits|] == h;
    assert IsKept(hits + [h], hash, hash(h.document.value), |hits|);
  }

  lemma HeldAfter(combined: map<Digest, Best>, hits: seq<Hit>, h: Hit, hash: Hash, d: Digest)
    requires HoldsKept(combined, hits, hash) && d in combined
    requires Carries(h, hash, d) ==> h.score <= combined[d].score
    ensures d in BestOf(hits + [h], hash) && combined[d].score == BestOf(hits + [h], hash)[d]
    ensures Keeps(combined[d], hits + [h], hash)
  {
    BestOfStep(hits, h, hash);
    KeptStep(combined[d], hits, h, hash);
  }

  lemma HoldsAfterIgnored(combined: map<Digest, Best>, hits: seq<Hit>, h: Hit, hash: Hash)
    requires HoldsKept(combined, hits, hash)
    requires h.document.Some? ==> hash(h.document.value) in combined && h.score <= combined[hash(h.document.value)].score
    ensures HoldsKept(combined, hits + [h], hash)
  {
    BestOfStep(hits, h, hash);
    forall d | d in combined
      ensures combined[d].score == BestOf(hits + [h], hash)[d] && Keeps(combined[d], hits + [h], hash)
    {
      HeldAfter(combined, hits, h, hash, d);
    }
  }

  lemma HoldsAfterPut(combined: map<Digest, Best>, hits: seq<Hit>, h: Hit, hash: Hash)
    requires HoldsKept(combined, hits, hash) && h.document.Some?
    requires hash(h.document.value) in combined ==> h.score > combined[hash(h.document.value)].score
    ensures HoldsKept(combined[hash(h.document.value) := Entry(h, hash)], hits + [h], hash)
  {
    var put := combined[hash(h.document.value) := Entry(h, hash)];
    BestOfStep(hits, h, hash);
    BestOfIsBest(hits, hash);
    KeptNow(hits, h, hash);
    forall d | d in put
      ensures put[d].digest == d && put[d].score == BestOf(hits + [h], hash)[d] && Keeps(put[d], hits + [h], hash)
    {
      if d != hash(h.document.value) {
        HeldAfter(combined, hits, h, hash, d);
      }
    }
  }

  /** The keys are the digests met. */
  lemma KeysWereMet(combined: map<Digest, Best>, hits: seq<Hit>, hash: Hash, d: Digest)
    requires HoldsKept(combined, hits, hash)
    ensures d in combined <==> First(hits, hash, d) < |hits|
  {
    BestOfIsBest(hits, hash);
    if d in combined {
      var i :| 0 <= i < |hits| && Carries(hits[i], hash, d) && hits[i].score == BestOf(hits, hash)[d];
    }
  }

  lemma OrderAfter(order: seq<Digest>, combined: map<Digest, Best>, hits: seq<Hit>, h: Hit, hash: Hash)
    requires CombinedInv(order, combined, hits, hash)
    ensures InFirstOrder(order, hits + [h], hash)
    ensures h.document.Some? && hash(h.document.value) !in combined ==>
      InFirstOrder(order + [hash(h.document.value)], hits + [h], hash)
  {
    forall i | 0 <= i < |order|
      ensures First(hits + [h], hash, order[i]) == First(hits, hash, order[i]) < |hits|
    {
      assert order[i] in order;
      KeysWereMet(combined, hits, hash, order[i]);
      FirstStep(hits, h, hash, order[i]);
    }
    if h.document.Some? && hash(h.document.value) !in combined {
      KeysWereMet(combined, hits, hash, hash(h.document.value));
      FirstStep(hits, h, hash, hash(h.document.value));
    }
  }

  // ---- From the dictionary to the answer

  lemma {:induction false} ValuesSize(order: seq<Digest>, keys: set<Digest>)
    requires NoRepeats(order)
    requires forall d :: d in order <==> d in keys
    ensures |order| == |keys|
    decreases |order|
  {
    if order != [] {
      assert order[0] in keys;
      forall d ensures d in order[1..] <==> d in keys - {order[0]} {
        if d in order[1..] {
          var j :| 0 <= j < |order[1..]| && order[1..][j] == d;
          assert order[j + 1] == d;
        }
      }
      ValuesSize(order[1..], keys - {order[0]});
    } else {
      assert keys == {};
    }
  }

  /** Sorting the values rearranges them. */
  lemma SortedValues(values: seq<Best>, sorted: seq<Best>)
    requires multiset(sorted) == multiset(values) && DistinctDigests(values)
    ensures DistinctDigests(sorted) && |sorted| == |values|
    ensures forall b :: b in sorted <==> b in values
  {
    assert |multiset(sorted)| == |sorted| && |multiset(values)| == |values|;
    RearrangedDistinct(values, sorted);
    forall b ensures b in sorted <==> b in values {
      assert b in sorted <==> b in multiset(sorted);
      assert b in values <==> b in multiset(values);
    }
  }

  /** The entry is the best of its document. */
  predicate IsBestEntry(b: Best, hits: seq<Hit>, hash: Hash) {
    b.digest in BestOf(hits, hash) && BestOf(hits, hash)[b.digest] == b.score && Keeps(b, hits, hash)
  }

  /** Every digest met has its entry among the values, in first-come order. */
  lemma ValuesAreBest(order: seq<Digest>, combined: map<Digest, Best>, hits: seq<Hit>, hash: Hash)
    requires CombinedInv(order, combined, hits, hash)
    ensures var values, rank := Values(order, combined), Rank(hits, hash);
      && (forall i, j :: 0 <= i < j < |values| ==> rank(values[i].digest) < rank(values[j].digest))
      && (forall i :: 0 <= i < |values| ==> IsBestEntry(values[i], hits, hash))
  {
    var values := Values(order, combined);
    forall i | 0 <= i < |values| ensures values[i].digest == order[i] && IsBestEntry(values[i], hits, hash) {
      assert order[i] in combined;
    }
  }

  lemma ValuesCount(order: seq<Digest>, combined: map<Digest, Best>, hits: seq<Hit>, hash: Hash)
    requires CombinedInv(order, combined, hits, hash)
    ensures |order| == |BestOf(hits, hash)|
  {
    assert NoRepeats(order);
    ValuesSize(order, combined.Keys);
    assert |BestOf(hits, hash).Keys| == |BestOf(hits, hash)|;
  }

  lemma RankedApart(values: seq<Best>, rank: Digest -> nat)
    requires forall i, j :: 0 <= i < j < |values| ==> rank(values[i].digest) < rank(values[j].digest)
    ensures DistinctDigests(values)
  {
  }

  lemma {:induction false} DigestsSize(s: seq<Best>)
    requires DistinctDigests(s)
    ensures |Digests(s)| == |s|
    decreases |s|
  {
    if s != [] {
      DigestsSize(s[1..]);
      assert forall i :: 0 <= i < |s[1..]| ==> s[1..][i] == s[i + 1];
      forall d | d in Digests(s) ensures d in Digests(s[1..]) + {s[0].digest} {
        var i :| 0 <= i < |s| && s[i].digest == d;
        assert i > 0 ==> s[1..][i - 1].digest == d;
      }
      assert Digests(s) == Digests(s[1..]) + {s[0].digest};
      assert s[0].digest !in Digests(s[1..]);
    }
  }

  lemma DigestsCover(s: seq<Best>, m: map<Digest, real>)
    requires DistinctDigests(s) && |s| == |m| && forall i :: 0 <= i < |s| ==> s[i].digest in m
    ensures Digests(s) == m.Keys
  {
    DigestsSize(s);
    assert |m.Keys| == |m|;
    SubsetSame(Digests(s), m.Keys);
  }

  /** A cut of a ranked list keeps what beats the rest. */
  lemma OmittedIsBeaten(sorted: seq<Best>, rank: Digest -> nat, n: nat, d: Digest, i: nat) returns (l: nat)
    requires Ranked(sorted, rank) && i < n <= |sorted| && d in Digests(sorted) && d !in Digests(sorted[..n])
    ensures l < |sorted| && sorted[l].digest == d && Beats(sorted[i], sorted[l], rank)
  {
    l :| 0 <= l < |sorted| && sorted[l].digest == d;
    PrefixDigest(sorted, n, l);
  }

  lemma PrefixDescends(sorted: seq<Best>, rank: Digest -> nat, n: nat)
    requires Ranked(sorted, rank) && n <= |sorted|
    ensures Descending(sorted[..n])
    ensures forall i, j :: 0 <= i < j < n && sorted[i].score == sorted[j].score ==> rank(sorted[i].digest) < rank(sorted[j].digest)
  {
    forall i, j | 0 <= i < j < n ensures Beats(sorted[i], sorted[j], rank) {
    }
  }

  lemma CutDescends(sorted: seq<Best>, m: map<Digest, real>, rank: Digest -> nat, n: nat)
    requires Ranked(sorted, rank) && n <= |sorted| && Digests(sorted) == m.Keys
    requires forall i :: 0 <= i < |sorted| ==> sorted[i].digest in m && m[sorted[i].digest] == sorted[i].score
    ensures forall d, i :: d in m && d !in Digests(sorted[..n]) && 0 <= i < n ==> m[d] <= sorted[i].score
    ensures TiesKeepOrder(sorted[..n], m, rank)
  {
    PrefixDescends(sorted, rank, n);
    forall d, i | d in m && d !in Digests(sorted[..n]) && 0 <= i < n
      ensures m[d] <= sorted[i].score && (m[d] == sorted[i].score ==> rank(sorted[i].digest) < rank(d))
    {
      var l := OmittedIsBeaten(sorted, rank, n, d, i);
    }
  }

  /** A ranked list of all documents, cut to k. */
  lemma CutOfRanked(sorted: seq<Best>, m: map<Digest, real>, rank: Digest -> nat, k: nat)
    requires Ranked(sorted, rank) && DistinctDigests(sorted) && |sorted| == |m|
    requires forall i :: 0 <= i < |sorted| ==> sorted[i].digest in m && m[sorted[i].digest] == sorted[i].score
    ensures TopK(sorted[..Min(k, |sorted|)], m, k)
    ensures TiesKeepOrder(sorted[..Min(k, |sorted|)], m, rank)
  {
    var n := Min(k, |sorted|);
    DigestsCover(sorted, m);
    PrefixDescends(sorted, rank, n);
    CutDescends(sorted, m, rank, n);
    assert DistinctDigests(sorted[..n]);
  }

  lemma SortedAreBest(values: seq<Best>, sorted: seq<Best>, hits: seq<Hit>, hash: Hash)
    requires forall b :: b in sorted <==> b in values
    requires forall i :: 0 <= i < |values| ==> IsBestEntry(values[i], hits, hash)
    ensures forall i :: 0 <= i < |sorted| ==> IsBestEntry(sorted[i], hits, hash)
  {
    forall i | 0 <= i < |sorted| ensures IsBestEntry(sorted[i], hits, hash) {
      assert sorted[i] in values;
    }
  }

  /** Sorting the dictionary's values and cutting gives the merge of the hits. */
  lemma CutIsMerge(order: seq<Digest>, combined: map<Digest, Best>, hits: seq<Hit>, hash: Hash, k: nat)
    requires CombinedInv(order, combined, hits, hash)
    ensures var sorted := SortDescending(Values(order, combined));
      |sorted| == |order| && IsMerge(sorted[..Min(k, |sorted|)], hits, k, hash)
  {
    ValuesAreBest(order, combined, hits, hash);
    ValuesCount(order, combined, hits, hash);
    BestValuesMerge(Values(order, combined), hits, hash, k);
  }

  lemma BestValuesMerge(values: seq<Best>, hits: seq<Hit>, hash: Hash, k: nat)
    requires |values| == |BestOf(hits, hash)|
    requires var rank := Rank(hits, hash);
      forall i, j :: 0 <= i < j < |values| ==> rank(values[i].digest) < rank(values[j].digest)
    requires forall i :: 0 <= i < |values| ==> IsBestEntry(values[i], hits, hash)
    ensures var sorted := SortDescending(values);
      |sorted| == |values| && IsMerge(sorted[..Min(k, |sorted|)], hits, k, hash)
  {
    var sorted, rank := SortDescending(values), Rank(hits, hash);
    RankedApart(values, rank);
    SortStable(values, rank);
    SortRearranges(values);
    SortedValues(values, sorted);
    SortedAreBest(values, sorted, hits, hash);
    CutOfRanked(sorted, BestOf(hits, hash), rank, k);
  }

  // ---- What the answer says of documents

  predicate Omitted(h: Hit, top: seq<Best>) {
    forall j :: 0 <= j < |top| ==> h.document != Some(top[j].document)
  }

  /** With a collision-free hash no document appears twice, and each carries its own best score. */
  lemma MergedDocuments(hits: seq<Hit>, k: nat, hash: Hash, top: seq<Best>)
    requires forall a, b :: hash(a) == hash(b) ==> a == b
    requires IsMerge(top, hits, k, hash)
    ensures forall i, j :: 0 <= i < j < |top| ==> top[i].document != top[j].document
    ensures forall h, i :: h in hits && 0 <= i < |top| && h.document == Some(top[i].document) ==> h.score <= top[i].score
    ensures forall h, i :: h in hits && h.document.Some? && Omitted(h, top) && 0 <= i < |top| ==> h.score <= top[i].score
  {
    BestOfIsBest(hits, hash);
    assert forall i :: 0 <= i < |top| ==> Keeps(top[i], hits, hash);
    forall h, i | h in hits && h.document.Some? && Omitted(h, top) && 0 <= i < |top|
      ensures h.score <= top[i].score
    {
      var d := hash(h.document.value);
      assert d !in Digests(top);
    }
  }

  /** The entry repeats one of the hits, metadata included, under the digest of its document. */
  predicate IsHit(b: Best, hits: seq<Hit>, hash: Hash) {
    b.digest == hash(b.document) && Hit(b.score, Some(b.document), b.metadata) in hits
  }

  lemma EntriesAreHits(top: seq<Best>, hits: seq<Hit>, k: nat, hash: Hash)
    requires IsMerge(top, hits, k, hash)
    ensures forall i :: 0 <= i < |top| ==> IsHit(top[i], hits, hash)
  {
    forall i | 0 <= i < |top| ensures IsHit(top[i], hits, hash) {
      var l :| 0 <= l < |hits| && IsKept(hits, hash, top[i].digest, l) && top[i] == Entry(hits[l], hash);
      assert hits[l] in hits;
    }
  }

  // ---- An answer exists for any hits

  lemma {:induction false} DictionaryOf(hits: seq<Hit>, hash: Hash) returns (order: seq<Digest>, combined: map<Digest, Best>)
    ensures CombinedInv(order, combined, hits, hash)
    decreases |hits|
  {
    if hits == [] {
      order, combined := [], map[];
    } else {
      var before, h := hits[..|hits| - 1], hits[|hits| - 1];
      order, combined := DictionaryOf(before, hash);
      assert hits == before + [h];
      OrderAfter(order, combined, before, h, hash);
      if h.document.None? || (hash(h.document.value) in combined && h.score <= combined[hash(h.document.value)].score) {
        HoldsAfterIgnored(combined, before, h, hash);
      } else {
        HoldsAfterPut(combined, before, h, hash);
        order := if hash(h.document.value) in combined then order else order + [hash(h.document.value)];
        combined := combined[hash(h.document.value) := Entry(h, hash)];
      }
    }
  }

  lemma MergeExists(hits: seq<Hit>, k: nat, hash: Hash) returns (top: seq<Best>)
    ensures IsMerge(top, hits, k, hash)
  {
    var order, combined := DictionaryOf(hits, hash);
    CutIsMerge(order, combined, hits, hash, k);
    var sorted := SortDescending(Values(order, combined));
    top := sorted[..Min(k, |sorted|)];
  }

  // ---- The merge, step by step

  /** One hit: a new document goes last, a strictly better score replaces the entry where it stands. */
  method Note(order: seq<Digest>, combined: map<Digest, Best>, hit: Hit, hash: Hash, ghost done: seq<Hit>)
      returns (order': seq<Digest>, combined': map<Digest, Best>)
    requires CombinedInv(order, combined, done, hash)
    ensures CombinedInv(order', combined', done + [hit], hash)
  {
    OrderAfter(order, combined, done, hit, hash);
    order', combined' := order, combined;
    if hit.document.Some? {
      var digest := hash(hit.document.value);
      var entry := Best(digest, hit.score, hit.document.value, hit.metadata);
      if digest !in combined {
        HoldsAfterPut(combined, done, hit, hash);
        combined' := combined[digest := entry];
        order' := order + [digest];
        return;
      }
      if hit.score > combined[digest].score {
        HoldsAfterPut(combined, done, hit, hash);
        combined' := combined[digest := entry];
        return;
      }
    }
    HoldsAfterIgnored(combined, done, hit, hash);
  }

  /** The inner loop: one result list goes into the dictionary. */
  method Combine(order: seq<Digest>, combined: map<Digest, Best>, zipped: seq<Hit>, hash: Hash, ghost done: seq<Hit>)
      returns (order': seq<Digest>, combined': map<Digest, Best>)
    requires CombinedInv(order, combined, done, hash)
    ensures CombinedInv(order', combined', done + zipped, hash)
  {
    order', combined' := order, combined;
    assert done + zipped[..0] == done;
    for j := 0 to |zipped|
      invariant CombinedInv(order', combined', done + zipped[..j], hash)
    {
      assert done + zipped[..j + 1] == done + zipped[..j] + [zipped[j]];
      order', combined' := Note(order', combined', zipped[j], hash, done + zipped[..j]);
    }
    assert zipped[..|zipped|] == zipped;
  }

  /** None when the unpacking of an empty cut raises: k is 0 and something was found. */
  method MergeAndSort(results: seq<QueryResult>, k: nat, hash: Hash) returns (top: Option<seq<Best>>)
    ensures top.None? <==> k == 0 && BestOf(Flat(Zips(results)), hash) != map[]
    ensures top.Some? ==> IsMerge(top.value, Flat(Zips(results)), k, hash)
    ensures top.Some? ==> forall i :: 0 <= i < |top.value| ==> IsHit(top.value[i], Flat(Zips(results)), hash)
  {
    var order: seq<Digest> := [];
    var combined: map<Digest, Best> := map[];
    for n := 0 to |results|
      invariant CombinedInv(order, combined, Flat(Zips(results[..n])), hash)
    {
      order, combined := Combine(order, combined, Zip(results[n]), hash, Flat(Zips(results[..n])));
      assert Zips(results[..n + 1])[..n] == Zips(results[..n]);
    }
    assert results[..|results|] == results;
    CutIsMerge(order, combined, Flat(Zips(results)), hash, k);
    var sorted := SortDescending(Values(order, combined));
    assert sorted != [] <==> BestOf(Flat(Zips(results)), hash) != map[] by {
      assert BestOf(Flat(Zips(results)), hash).Keys == combined.Keys;
      assert order != [] ==> order[0] in combined;
      assert combined == map[] <==> combined.Keys == {};
    }
    if sorted == [] {
      return Some([]);
    }
    var kept := sorted[..Min(k, |sorted|)];
    if kept == [] {
      return None;
    }
    EntriesAreHits(kept, Flat(Zips(results)), k, hash);
    top := Some(kept);
  }
}
