/**
 Asking every collection every query, as query_collection of backend/open_webui/retrieval/utils.py
 does, and what the merged answer holds, hit by hit.
 */
module Queries {
  import opened Basics
  import opened Retrieval

  /** The complete rankings behind the answers to one query: unnamed or failing collections give none. */
  function AnswersOf(names: seq<string>, query: string, search: (string, string) -> Option<seq<Hit>>): seq<seq<Hit>>
    decreases |names|
  {
    if names == [] then []
    else
      var n := |names| - 1;
      var answer := if names[n] == "" then None else search(query, names[n]);
      AnswersOf(names[..n], query, search) + (if answer.Some? then [answer.value] else [])
  }

  function Answers(names: seq<string>, queries: seq<string>, search: (string, string) -> Option<seq<Hit>>): seq<seq<Hit>>
    decreases |queries|
  {
    if queries == [] then []
    else Answers(names, queries[..|queries| - 1], search) + AnswersOf(names, queries[|queries| - 1], search)
  }

  lemma CutsAppend(lists: seq<seq<Hit>>, list: seq<Hit>, k: nat)
    ensures Cuts(lists + [list], k) == Cuts(lists, k) + [Cut(list, k)]
  {
  }

  lemma ZipsAppend(results: seq<QueryResult>, cut: seq<Hit>)
    ensures Zips(results + [Unzip(cut)]) == Zips(results) + [cut]
  {
    assert Zip(Unzip(cut)) == cut;
  }

  /** Lists cut to nothing hold no documents. */
  lemma {:induction false} NothingToMerge(lists: seq<seq<Hit>>, hash: Hash)
    ensures Flat(Cuts(lists, 0)) == [] && BestOf(Flat(Cuts(lists, 0)), hash) == map[]
    decreases |lists|
  {
    if lists != [] {
      NothingToMerge(lists[..|lists| - 1], hash);
      assert Cuts(lists, 0)[..|lists| - 1] == Cuts(lists[..|lists| - 1], 0);
    }
  }

  /** The inner loop: one query goes to every named collection, and a failing one is skipped. */
  method AskCollections(names: seq<string>, query: string, k: nat, search: (string, string) -> Option<seq<Hit>>,
                        before: seq<QueryResult>, ghost asked: seq<seq<Hit>>) returns (results: seq<QueryResult>)
    requires Zips(before) == Cuts(asked, k)
    ensures Zips(results) == Cuts(asked + AnswersOf(names, query, search), k)
  {
    results := before;
    assert asked + [] == asked;
    for c := 0 to |names|
      invariant Zips(results) == Cuts(asked + AnswersOf(names[..c], query, search), k)
    {
      assert names[..c + 1][..c] == names[..c];
      ghost var soFar := AnswersOf(names[..c], query, search);
      assert asked + (soFar + []) == asked + soFar;
      if names[c] != "" {
        var answer := search(query, names[c]);
        if answer.Some? {
          var cut := Cut(answer.value, k);
          CutsAppend(asked + soFar, answer.value, k);
          ZipsAppend(results, cut);
          assert asked + (soFar + [answer.value]) == (asked + soFar) + [answer.value];
          results := results + [Unzip(cut)];
        }
      }
    }
    assert names[..|names|] == names;
  }

  // ---- Which rankings are asked

  lemma Regroup(a: seq<seq<Hit>>, b: seq<seq<Hit>>, c: seq<seq<Hit>>)
    ensures (a + b) + c == a + (b + c)
  {
  }

  /** Asking splits over names and over queries, so rankings stand in the order of the loops, each once. */
  lemma {:induction false} AnswersOfInOrder(a: seq<string>, b: seq<string>, query: string, search: (string, string) -> Option<seq<Hit>>)
    ensures AnswersOf(a + b, query, search) == AnswersOf(a, query, search) + AnswersOf(b, query, search)
    decreases |b|
  {
    if b == [] {
      assert a + b == a;
    } else {
      var n := |b| - 1;
      assert (a + b)[..|a| + n] == a + b[..n] && (a + b)[|a| + n] == b[n];
      AnswersOfInOrder(a, b[..n], query, search);
      var answer := if b[n] == "" then None else search(query, b[n]);
      Regroup(AnswersOf(a, query, search), AnswersOf(b[..n], query, search), if answer.Some? then [answer.value] else []);
    }
  }

  lemma {:induction false} AnswersInOrder(names: seq<string>, a: seq<string>, b: seq<string>, search: (string, string) -> Option<seq<Hit>>)
    ensures Answers(names, a + b, search) == Answers(names, a, search) + Answers(names, b, search)
    decreases |b|
  {
    if b == [] {
      assert a + b == a;
    } else {
      var n := |b| - 1;
      assert (a + b)[..|a| + n] == a + b[..n] && (a + b)[|a| + n] == b[n];
      AnswersInOrder(names, a, b[..n], search);
      var last := AnswersOf(names, b[n], search);
      Regroup(Answers(names, a, search), Answers(names, b[..n], search), last);
    }
  }

  /** One name and one query: the ranking, if the name is not empty and the collection answers. */
  lemma OneAnswer(name: string, query: string, search: (string, string) -> Option<seq<Hit>>)
    ensures Answers([name], [query], search) == AnswersOf([name], query, search)
    ensures AnswersOf([name], query, search) ==
      if name != "" && search(query, name).Some? then [search(query, name).value] else []
  {
    assert [name][..0] == [] && [query][..0] == [];
    assert Answers([name], [], search) == [];
  }

  /** The ranking of query q by collection c is asked for and given. */
  predicate Gives(names: seq<string>, queries: seq<string>, search: (string, string) -> Option<seq<Hit>>, q: nat, c: nat, list: seq<Hit>) {
    q < |queries| && c < |names| && names[c] != "" && search(queries[q], names[c]) == Some(list)
  }

  lemma {:induction false} OneQueryExactly(names: seq<string>, query: string, search: (string, string) -> Option<seq<Hit>>, list: seq<Hit>)
    ensures list in AnswersOf(names, query, search) <==> exists c :: 0 <= c < |names| && Gives(names, [query], search, 0, c, list)
    decreases |names|
  {
    if names != [] {
      var n := |names| - 1;
      OneQueryExactly(names[..n], query, search, list);
      if c :| 0 <= c < n && Gives(names[..n], [query], search, 0, c, list) {
        assert Gives(names, [query], search, 0, c, list);
      }
      if c :| 0 <= c < |names| && Gives(names, [query], search, 0, c, list) {
        assert c < n ==> Gives(names[..n], [query], search, 0, c, list);
      }
      assert Gives(names, [query], search, 0, n, list) <==> names[n] != "" && search(query, names[n]) == Some(list);
    }
  }

  /** The rankings are exactly those some query gets from some named collection. */
  lemma {:induction false} AnswersExactly(names: seq<string>, queries: seq<string>, search: (string, string) -> Option<seq<Hit>>, list: seq<Hit>)
    ensures list in Answers(names, queries, search) <==>
      exists q, c :: 0 <= q < |queries| && 0 <= c < |names| && Gives(names, queries, search, q, c, list)
    decreases |queries|
  {
    if queries != [] {
      var n := |queries| - 1;
      AnswersExactly(names, queries[..n], search, list);
      OneQueryExactly(names, queries[n], search, list);
      if q, c :| 0 <= q < n && 0 <= c < |names| && Gives(names, queries[..n], search, q, c, list) {
        assert Gives(names, queries, search, q, c, list);
      }
      if c :| 0 <= c < |names| && Gives(names, [queries[n]], search, 0, c, list) {
        assert Gives(names, queries, search, n, c, list);
      }
      if q, c :| 0 <= q < |queries| && 0 <= c < |names| && Gives(names, queries, search, q, c, list) {
        if q < n {
          assert Gives(names, queries[..n], search, q, c, list);
        } else {
          assert Gives(names, [queries[n]], search, 0, c, list);
        }
      }
    }
  }

  /** The hit stands in the first k places of a ranking that is asked for and given. */
  ghost predicate IsReturned(h: Hit, names: seq<string>, queries: seq<string>, k: nat, search: (string, string) -> Option<seq<Hit>>) {
    exists q, c, list :: 0 <= q < |queries| && 0 <= c < |names| && Gives(names, queries, search, q, c, list) && h in Cut(list, k)
  }

  lemma ReturnedExactly(h: Hit, names: seq<string>, queries: seq<string>, k: nat, search: (string, string) -> Option<seq<Hit>>)
    ensures h in Flat(Cuts(Answers(names, queries, search), k)) <==> IsReturned(h, names, queries, k, search)
  {
    var lists := Answers(names, queries, search);
    if h in Flat(Cuts(lists, k)) {
      var i := FlatOrigin(Cuts(lists, k), h);
      AnswersExactly(names, queries, search, lists[i]);
    }
    if IsReturned(h, names, queries, k, search) {
      var q, c, list :| 0 <= q < |queries| && 0 <= c < |names| && Gives(names, queries, search, q, c, list) && h in Cut(list, k);
      AnswersExactly(names, queries, search, list);
      var i :| 0 <= i < |lists| && lists[i] == list;
      FlatMember(Cuts(lists, k), i, h);
    }
  }

  /** The document is shown with at least this score, or k entries are shown and none scores below it. */
  predicate ShownOrBeaten(top: seq<Best>, k: nat, d: Digest, score: real) {
    || (exists i :: 0 <= i < |top| && top[i].digest == d && score <= top[i].score)
    || (|top| == k && forall i :: 0 <= i < |top| ==> score <= top[i].score)
  }

  /** A hit is shown, or beaten by k others. */
  lemma HitIsShown(top: seq<Best>, hits: seq<Hit>, k: nat, hash: Hash, h: Hit)
    requires TopK(top, BestOf(hits, hash), k) && h in hits && h.document.Some?
    ensures ShownOrBeaten(top, k, hash(h.document.value), h.score)
  {
    var m, d := BestOf(hits, hash), hash(h.document.value);
    BestOfIsBest(hits, hash);
    if d in Digests(top) {
      var i :| 0 <= i < |top| && top[i].digest == d;
    } else if |top| == |m| {
      DigestsCover(top, m);
    }
  }

  /** What a query over all collections answers, hit by hit: nothing invented, and nothing good left out. */
  ghost predicate IsAnswer(top: seq<Best>, names: seq<string>, queries: seq<string>, k: nat, hash: Hash,
                           search: (string, string) -> Option<seq<Hit>>) {
    && |top| <= k && Descending(top) && DistinctDigests(top)
    && (forall i :: 0 <= i < |top| ==>
         top[i].digest == hash(top[i].document)
         && IsReturned(Hit(top[i].score, Some(top[i].document), top[i].metadata), names, queries, k, search))
    && (forall h :: IsReturned(h, names, queries, k, search) && h.document.Some? ==>
         ShownOrBeaten(top, k, hash(h.document.value), h.score))
  }

  lemma MergeIsAnswer(top: seq<Best>, names: seq<string>, queries: seq<string>, k: nat, hash: Hash,
                      search: (string, string) -> Option<seq<Hit>>)
    requires IsMerge(top, Flat(Cuts(Answers(names, queries, search), k)), k, hash)
    ensures IsAnswer(top, names, queries, k, hash, search)
  {
    var hits := Flat(Cuts(Answers(names, queries, search), k));
    EntriesAreHits(top, hits, k, hash);
    forall i | 0 <= i < |top|
      ensures top[i].digest == hash(top[i].document)
      ensures IsReturned(Hit(top[i].score, Some(top[i].document), top[i].metadata), names, queries, k, search)
    {
      assert IsHit(top[i], hits, hash);
      ReturnedExactly(Hit(top[i].score, Some(top[i].document), top[i].metadata), names, queries, k, search);
    }
    forall h | IsReturned(h, names, queries, k, search) && h.document.Some?
      ensures ShownOrBeaten(top, k, hash(h.document.value), h.score)
    {
      ReturnedExactly(h, names, queries, k, search);
      HitIsShown(top, hits, k, hash, h);
    }
  }

  /** query_collection: every query on every named collection that answers, merged.  It never raises. */
  method QueryCollection(names: seq<string>, queries: seq<string>, k: nat, hash: Hash,
                         search: (string, string) -> Option<seq<Hit>>) returns (top: seq<Best>)
    ensures IsMerge(top, Flat(Cuts(Answers(names, queries, search), k)), k, hash)
    ensures IsAnswer(top, names, queries, k, hash, search)
  {
    var results: seq<QueryResult> := [];
    for q := 0 to |queries|
      invariant Zips(results) == Cuts(Answers(names, queries[..q], search), k)
    {
      assert queries[..q + 1][..q] == queries[..q];
      results := AskCollections(names, queries[q], k, search, results, Answers(names, queries[..q], search));
    }
    assert queries[..|queries|] == queries;
    NothingToMerge(Answers(names, queries, search), hash);
    var merged := MergeAndSort(results, k, hash);
    top := merged.value;
    MergeIsAnswer(top, names, queries, k, hash, search);
  }
}
