/**
 Cutting twice.  The vector database cuts the answer of each collection to k, and the merge cuts
 again: when that gives the scores of the k best documents overall, and when it does not.
 */
module TwoLevels {
  import opened Basics
  import opened Queries
  import opened Retrieval

  /** A ranking by descending score, as the vector database gives it. */
  predicate IsSorted(list: seq<Hit>) {
    forall i, j :: 0 <= i < j < |list| ==> list[i].score >= list[j].score
  }

  /** The first k places show as many documents as a top k can: places are not spent on repeats while others wait. */
  predicate Safe(list: seq<Hit>, k: nat, hash: Hash) {
    |BestOf(Cut(list, k), hash)| == Min(k, |BestOf(list, hash)|)
  }

  ghost predicate BothTopK(merged: seq<Best>, global: seq<Best>, lists: seq<seq<Hit>>, k: nat, hash: Hash) {
    TopK(merged, BestOf(Flat(Cuts(lists, k)), hash), k) && TopK(global, BestOf(Flat(lists), hash), k)
  }

  ghost predicate TwoLevelsAgree(lists: seq<seq<Hit>>, k: nat, hash: Hash) {
    forall merged, global :: BothTopK(merged, global, lists, k, hash) ==> Scores(merged) == Scores(global)
  }

  ghost predicate SafeCompany(lists: seq<seq<Hit>>, k: nat, hash: Hash) {
    forall i :: 0 <= i < |lists| ==> IsSorted(lists[i]) && Safe(lists[i], k, hash)
  }

  function Above(m: map<Digest, real>, t: real): set<Digest> {
    set d | d in m && m[d] >= t
  }

  /** The j-th kept score is the greatest t that more than j documents reach. */
  lemma TopKReaches(out: seq<Best>, m: map<Digest, real>, k: nat, j: nat)
    requires TopK(out, m, k) && j < |out|
    ensures |Above(m, out[j].score)| >= j + 1
  {
    DigestsSize(out[..j + 1]);
    SubsetSize(Digests(out[..j + 1]), Above(m, out[j].score));
  }

  lemma TopKKeeps(out: seq<Best>, m: map<Digest, real>, k: nat, j: nat, t: real)
    requires TopK(out, m, k) && j < k && |Above(m, t)| >= j + 1
    ensures j < |out| && out[j].score >= t
  {
    SubsetSize(Above(m, t), m.Keys);
    assert |m.Keys| == |m|;
    if out[j].score < t {
      forall d | d in Above(m, t) ensures d in Digests(out[..j]) {
        assert d in Digests(out);
        var i :| 0 <= i < |out| && out[i].digest == d;
        assert i < j;
        assert out[..j][i].digest == d;
      }
      DigestsSize(out[..j]);
      SubsetSize(Above(m, t), Digests(out[..j]));
    }
  }

  /** The same documents reach t, or at least k do on both sides. */
  predicate CountAgrees(m: map<Digest, real>, n: map<Digest, real>, k: nat, t: real) {
    Above(m, t) == Above(n, t) || (|Above(m, t)| >= k && |Above(n, t)| >= k)
  }

  /** The number of documents above every score, counting to k, agrees. */
  ghost predicate SameCounts(m: map<Digest, real>, n: map<Digest, real>, k: nat) {
    forall t :: CountAgrees(m, n, k, t)
  }

  lemma Dominates(a: seq<Best>, m: map<Digest, real>, b: seq<Best>, n: map<Digest, real>, k: nat, j: nat)
    requires TopK(a, m, k) && TopK(b, n, k) && j < |a|
    requires SameCounts(m, n, k) || SameCounts(n, m, k)
    ensures j < |b| && b[j].score >= a[j].score
  {
    assert CountAgrees(m, n, k, a[j].score) || CountAgrees(n, m, k, a[j].score);
    TopKReaches(a, m, k, j);
    TopKKeeps(b, n, k, j, a[j].score);
  }

  lemma SameCountsSameScores(a: seq<Best>, m: map<Digest, real>, b: seq<Best>, n: map<Digest, real>, k: nat)
    requires TopK(a, m, k) && TopK(b, n, k) && SameCounts(m, n, k)
    ensures Scores(a) == Scores(b)
  {
    if |a| > 0 {
      Dominates(a, m, b, n, k, |a| - 1);
    }
    if |b| > 0 {
      Dominates(b, n, a, m, k, |b| - 1);
    }
    forall j | 0 <= j < |a| ensures a[j].score == b[j].score {
      Dominates(a, m, b, n, k, j);
      Dominates(b, n, a, m, k, j);
    }
  }

  lemma CutsAreAmong(lists: seq<seq<Hit>>, k: nat)
    ensures forall h :: h in Flat(Cuts(lists, k)) ==> h in Flat(lists)
  {
    forall h | h in Flat(Cuts(lists, k)) ensures h in Flat(lists) {
      var i := FlatOrigin(Cuts(lists, k), h);
      FlatMember(lists, i, h);
    }
  }

  /** Cutting never raises a best score. */
  lemma CutIsBelow(lists: seq<seq<Hit>>, k: nat, hash: Hash, t: real)
    ensures Above(BestOf(Flat(Cuts(lists, k)), hash), t) <= Above(BestOf(Flat(lists), hash), t)
  {
    var cut, all := Flat(Cuts(lists, k)), Flat(lists);
    CutsAreAmong(lists, k);
    BestOfIsBest(cut, hash);
    forall d | d in Above(BestOf(cut, hash), t) ensures d in Above(BestOf(all, hash), t) {
      var i :| 0 <= i < |cut| && Carries(cut[i], hash, d) && cut[i].score == BestOf(cut, hash)[d];
      assert cut[i] in all;
      BestOfIsBest(all, hash);
    }
  }

  /** Where a document's best score stands. */
  lemma BestPlace(lists: seq<seq<Hit>>, hash: Hash, d: Digest) returns (i: nat, j: nat)
    requires d in BestOf(Flat(lists), hash)
    ensures i < |lists| && j < |lists[i]| && Carries(lists[i][j], hash, d)
    ensures lists[i][j].score == BestOf(Flat(lists), hash)[d]
  {
    var all := Flat(lists);
    BestOfIsBest(all, hash);
    var x :| 0 <= x < |all| && Carries(all[x], hash, d) && all[x].score == BestOf(all, hash)[d];
    i := FlatOrigin(lists, all[x]);
    j :| 0 <= j < |lists[i]| && lists[i][j] == all[x];
  }

  /** A prefix shows no document the list does not. */
  lemma PrefixKeys(list: seq<Hit>, n: nat, hash: Hash)
    requires n <= |list|
    ensures BestOf(list[..n], hash).Keys <= BestOf(list, hash).Keys
  {
    BestOfIsBest(list[..n], hash);
    BestOfIsBest(list, hash);
    forall d | d in BestOf(list[..n], hash) ensures d in BestOf(list, hash) {
      var i :| 0 <= i < n && Carries(list[..n][i], hash, d) && list[..n][i].score == BestOf(list[..n], hash)[d];
      assert Carries(list[i], hash, d);
    }
  }

  lemma PlaceShows(lists: seq<seq<Hit>>, k: nat, hash: Hash, i: nat, j: nat, d: Digest)
    requires i < |lists| && j < |Cut(lists[i], k)| && Carries(lists[i][j], hash, d)
    ensures d in Above(BestOf(Flat(Cuts(lists, k)), hash), lists[i][j].score)
  {
    var cut, all := Cut(lists[i], k), Flat(Cuts(lists, k));
    BestOfIsBest(all, hash);
    assert cut[j] == lists[i][j] && cut[j] in Cuts(lists, k)[i];
    FlatMember(Cuts(lists, k), i, cut[j]);
    var n :| 0 <= n < |all| && all[n] == cut[j];
  }

  /** What one cut list shows, when it ends above t, the merge shows above t. */
  lemma CutShows(lists: seq<seq<Hit>>, k: nat, hash: Hash, t: real, i: nat)
    requires i < |lists| && forall l :: 0 <= l < |Cut(lists[i], k)| ==> lists[i][l].score >= t
    ensures BestOf(Cut(lists[i], k), hash).Keys <= Above(BestOf(Flat(Cuts(lists, k)), hash), t)
  {
    var cut := Cut(lists[i], k);
    BestOfIsBest(cut, hash);
    forall d | d in BestOf(cut, hash) ensures d in Above(BestOf(Flat(Cuts(lists, k)), hash), t) {
      var l :| 0 <= l < |cut| && Carries(cut[l], hash, d) && cut[l].score == BestOf(cut, hash)[d];
      PlaceShows(lists, k, hash, i, l, d);
    }
  }

  /** A document lost to the cut of a safe list had k others before it, all of which survive. */
  lemma LostPastCut(lists: seq<seq<Hit>>, k: nat, hash: Hash, t: real, i: nat, j: nat, d: Digest)
    requires i < |lists| && IsSorted(lists[i]) && Safe(lists[i], k, hash)
    requires j < |lists[i]| && lists[i][j].score >= t && Carries(lists[i][j], hash, d)
    requires d !in Above(BestOf(Flat(Cuts(lists, k)), hash), t)
    ensures |Above(BestOf(Flat(Cuts(lists, k)), hash), t)| >= k
  {
    var list, cut := lists[i], Cut(lists[i], k);
    var above := Above(BestOf(Flat(Cuts(lists, k)), hash), t);
    if j < |cut| {
      PlaceShows(lists, k, hash, i, j, d);
    }
    CutShows(lists, k, hash, t, i);
    SubsetSize(BestOf(cut, hash).Keys, above);
    assert |BestOf(cut, hash).Keys| == |BestOf(cut, hash)| && |BestOf(list, hash).Keys| == |BestOf(list, hash)|;
    BestOfIsBest(list, hash);
    assert d in BestOf(list, hash).Keys;
    if |BestOf(cut, hash)| < k {
      PrefixKeys(list, |cut|, hash);
      SubsetSame(BestOf(cut, hash).Keys, BestOf(list, hash).Keys);
    }
  }

  /** Cutting safe rankings hides a document above a score only where k others reach it. */
  lemma CutLosesNothingAbove(lists: seq<seq<Hit>>, k: nat, hash: Hash, t: real)
    requires SafeCompany(lists, k, hash)
    ensures CountAgrees(BestOf(Flat(Cuts(lists, k)), hash), BestOf(Flat(lists), hash), k, t)
  {
    var m, n := BestOf(Flat(Cuts(lists, k)), hash), BestOf(Flat(lists), hash);
    CutIsBelow(lists, k, hash, t);
    if Above(m, t) != Above(n, t) {
      var d :| d in Above(n, t) && d !in Above(m, t);
      var i, j := BestPlace(lists, hash, d);
      LostPastCut(lists, k, hash, t, i, j, d);
      SubsetSize(Above(m, t), Above(n, t));
    }
  }

  /**
   Merging safe rankings that were each cut to their own top k gives the same scores as the
   global top k of the complete rankings.
   */
  lemma TwoLevelTopK(lists: seq<seq<Hit>>, k: nat, hash: Hash, merged: seq<Best>, global: seq<Best>)
    requires SafeCompany(lists, k, hash)
    requires BothTopK(merged, global, lists, k, hash)
    ensures Scores(merged) == Scores(global)
  {
    var m, n := BestOf(Flat(Cuts(lists, k)), hash), BestOf(Flat(lists), hash);
    forall t: real ensures CountAgrees(m, n, k, t) {
      CutLosesNothingAbove(lists, k, hash, t);
    }
    SameCountsSameScores(merged, m, global, n, k);
  }

  /** The answer of query_collection has the scores of the global top k, when every ranking it asks for is safe. */
  lemma QueryIsGlobalTopK(names: seq<string>, queries: seq<string>, k: nat, hash: Hash,
                          search: (string, string) -> Option<seq<Hit>>, top: seq<Best>, global: seq<Best>)
    requires SafeCompany(Answers(names, queries, search), k, hash)
    requires IsMerge(top, Flat(Cuts(Answers(names, queries, search), k)), k, hash)
    requires TopK(global, BestOf(Flat(Answers(names, queries, search)), hash), k)
    ensures Scores(top) == Scores(global)
  {
    TwoLevelTopK(Answers(names, queries, search), k, hash, top, global);
  }

  lemma {:induction false} BestOfSize(hits: seq<Hit>, hash: Hash)
    ensures |BestOf(hits, hash)| <= |hits|
    decreases |hits|
  {
    if hits != [] {
      BestOfSize(hits[..|hits| - 1], hash);
    }
  }

  lemma FlatOne(list: seq<Hit>)
    ensures Flat([list]) == list
  {
    assert [list][..0] == [] && Flat([]) == [];
  }

  lemma FlatAlone(list: seq<Hit>, k: nat)
    ensures Flat([list]) == list && Flat(Cuts([list], k)) == Cut(list, k)
  {
    assert Cuts([list], k) == [Cut(list, k)];
    FlatOne(list);
    FlatOne(Cut(list, k));
  }

  lemma BothSizes(merged: seq<Best>, global: seq<Best>, lists: seq<seq<Hit>>, k: nat, hash: Hash)
    requires BothTopK(merged, global, lists, k, hash)
    ensures |merged| == Min(k, |BestOf(Flat(Cuts(lists, k)), hash)|) && |global| == Min(k, |BestOf(Flat(lists), hash)|)
  {
  }

  /** How many documents a ranking on its own shows at either level. */
  lemma AloneSizes(list: seq<Hit>, k: nat, hash: Hash, merged: seq<Best>, global: seq<Best>)
    requires BothTopK(merged, global, [list], k, hash)
    ensures |merged| == |BestOf(Cut(list, k), hash)| && |global| == Min(k, |BestOf(list, hash)|)
  {
    BothSizes(merged, global, [list], k, hash);
    FlatAlone(list, k);
    BestOfSize(Cut(list, k), hash);
  }

  /** A ranking on its own: the two levels give equally many documents exactly when it is safe. */
  lemma AloneExactly(list: seq<Hit>, k: nat, hash: Hash, merged: seq<Best>, global: seq<Best>)
    requires BothTopK(merged, global, [list], k, hash)
    ensures |merged| == |global| <==> Safe(list, k, hash)
  {
    AloneSizes(list, k, hash, merged, global);
  }

  /** Safety is exactly what a ranking needs for the two levels to agree in every company of safe rankings. */
  lemma SafeInEveryCompany(list: seq<Hit>, k: nat, hash: Hash)
    requires IsSorted(list)
    ensures Safe(list, k, hash) <==>
      forall others :: SafeCompany(others, k, hash) ==> TwoLevelsAgree(others + [list], k, hash)
  {
    if Safe(list, k, hash) {
      forall others | SafeCompany(others, k, hash) ensures TwoLevelsAgree(others + [list], k, hash) {
        forall merged, global | BothTopK(merged, global, others + [list], k, hash)
          ensures Scores(merged) == Scores(global)
        {
          TwoLevelTopK(others + [list], k, hash, merged, global);
        }
      }
    } else {
      var merged := MergeExists(Flat(Cuts([list], k)), k, hash);
      var global := MergeExists(Flat([list]), k, hash);
      AloneExactly(list, k, hash, merged, global);
      assert |Scores(merged)| != |Scores(global)|;
      assert SafeCompany([], k, hash) && [] + [list] == [list];
    }
  }

  /** Distinct documents in the first k places suffice, whatever repeats further down. */
  lemma DistinctTopIsSafe(list: seq<Hit>, k: nat, hash: Hash)
    requires forall i :: 0 <= i < |Cut(list, k)| ==> list[i].document.Some?
    requires forall i, j :: 0 <= i < j < |Cut(list, k)| ==> hash(list[i].document.value) != hash(list[j].document.value)
    ensures Safe(list, k, hash)
  {
    var cut := Cut(list, k);
    DistinctSize(cut, hash);
    BestOfSize(list, hash);
    PrefixKeys(list, |cut|, hash);
    SubsetSize(BestOf(cut, hash).Keys, BestOf(list, hash).Keys);
    assert |BestOf(cut, hash).Keys| == |BestOf(cut, hash)| && |BestOf(list, hash).Keys| == |BestOf(list, hash)|;
  }

  lemma {:induction false} NotMet(hits: seq<Hit>, hash: Hash, d: Digest)
    requires forall i :: 0 <= i < |hits| ==> !Carries(hits[i], hash, d)
    ensures d !in BestOf(hits, hash)
    decreases |hits|
  {
    if hits != [] {
      NotMet(hits[..|hits| - 1], hash, d);
    }
  }

  lemma {:induction false} DistinctSize(hits: seq<Hit>, hash: Hash)
    requires forall i :: 0 <= i < |hits| ==> hits[i].document.Some?
    requires forall i, j :: 0 <= i < j < |hits| ==> hash(hits[i].document.value) != hash(hits[j].document.value)
    ensures |BestOf(hits, hash)| == |hits|
    decreases |hits|
  {
    if hits != [] {
      var n := |hits| - 1;
      DistinctSize(hits[..n], hash);
      NotMet(hits[..n], hash, hash(hits[n].document.value));
    }
  }

  lemma OneHit(h: Hit, hash: Hash)
    requires h.document.Some?
    ensures BestOf([h], hash) == map[hash(h.document.value) := h.score]
  {
    BestOfStep([], h, hash);
    assert [] + [h] == [h] && BestOf([], hash) == map[];
  }

  lemma BothExist(lists: seq<seq<Hit>>, k: nat, hash: Hash) returns (merged: seq<Best>, global: seq<Best>)
    ensures BothTopK(merged, global, lists, k, hash)
  {
    merged := MergeExists(Flat(Cuts(lists, k)), k, hash);
    global := MergeExists(Flat(lists), k, hash);
  }

  const RAIN_TWICE := [Hit(3.0, Some("rain"), ""), Hit(3.0, Some("rain"), ""), Hit(1.0, Some("wind"), "")]

  lemma RainTwiceShowsOne(hash: Hash)
    requires hash("rain") != hash("wind")
    ensures |BestOf(Cut(RAIN_TWICE, 2), hash)| == 1 && |BestOf(RAIN_TWICE, hash)| == 2
  {
    var a, b := RAIN_TWICE[0], RAIN_TWICE[2];
    OneHit(a, hash);
    BestOfStep([a], a, hash);
    assert [a] + [a] == Cut(RAIN_TWICE, 2);
    BestOfStep(Cut(RAIN_TWICE, 2), b, hash);
    assert Cut(RAIN_TWICE, 2) + [b] == RAIN_TWICE;
  }

  /** A repeat in the first k places can cost a document its place: one shown, where the top two has two. */
  lemma RepeatCostsAPlace(hash: Hash) returns (merged: seq<Best>, global: seq<Best>)
    requires hash("rain") != hash("wind")
    ensures IsSorted(RAIN_TWICE) && !Safe(RAIN_TWICE, 2, hash)
    ensures BothTopK(merged, global, [RAIN_TWICE], 2, hash) && |merged| == 1 && |global| == 2
  {
    merged, global := BothExist([RAIN_TWICE], 2, hash);
    AloneSizes(RAIN_TWICE, 2, hash, merged, global);
    RainTwiceShowsOne(hash);
  }

  /** A repeat below the first k places costs nothing. */
  lemma RepeatBelowCostsNothing(hash: Hash)
    requires hash("rain") != hash("wind")
    ensures Safe([Hit(3.0, Some("rain"), ""), Hit(2.0, Some("wind"), ""), Hit(1.0, Some("rain"), "")], 2, hash)
  {
    var list := [Hit(3.0, Some("rain"), ""), Hit(2.0, Some("wind"), ""), Hit(1.0, Some("rain"), "")];
    DistinctTopIsSafe(list, 2, hash);
  }
}
