/**
 A table of parent links, as the message tree of a chat and the folder table both keep one.
 The reference notion is the climb: follow the parent link n times.  A table is a forest of
 trees when no id is among its own strict ancestors.
 */
module Forest {
  import opened Basics

  type Parents = map<Id, Option<Id>>

  /** The id reached by following the parent link n times from x, if the links last that long. */
  function Up(p: Parents, x: Id, n: nat): Option<Id>
    decreases n
  {
    if n == 0 then Some(x)
    else if x in p && p[x].Some? then Up(p, p[x].value, n - 1)
    else None
  }

  /** x lies strictly below a. */
  ghost predicate Below(p: Parents, x: Id, a: Id) {
    exists n: nat :: n > 0 && Up(p, x, n) == Some(a)
  }

  ghost predicate Acyclic(p: Parents) {
    forall x :: x in p ==> !Below(p, x, x)
  }

  /** Every parent is itself in the table. */
  predicate Closed(p: Parents) {
    forall x :: x in p && p[x].Some? ==> p[x].value in p
  }

  // ---- Composing and restricting climbs

  lemma {:induction false} UpSplit(p: Parents, x: Id, m: nat, n: nat)
    ensures Up(p, x, m + n) == if Up(p, x, m).Some? then Up(p, Up(p, x, m).value, n) else None
    decreases m
  {
    if m > 0 && x in p && p[x].Some? {
      UpSplit(p, p[x].value, m - 1, n);
    }
  }

  lemma BelowParent(p: Parents, x: Id)
    requires x in p && p[x].Some?
    ensures Below(p, x, p[x].value)
  {
    assert Up(p, x, 1) == Up(p, p[x].value, 0);
  }

  lemma BelowTrans(p: Parents, x: Id, y: Id, z: Id)
    requires Below(p, x, y) && Below(p, y, z)
    ensures Below(p, x, z)
  {
    var m: nat :| m > 0 && Up(p, x, m) == Some(y);
    var n: nat :| n > 0 && Up(p, y, n) == Some(z);
    UpSplit(p, x, m, n);
    assert Up(p, x, m + n) == Some(z);
  }

  /** The first step of a climb: x is below a exactly when its parent is a or is below a. */
  lemma BelowStep(p: Parents, x: Id, a: Id)
    ensures Below(p, x, a) <==> x in p && p[x].Some? && (p[x].value == a || Below(p, p[x].value, a))
  {
    if Below(p, x, a) {
      var n: nat :| n > 0 && Up(p, x, n) == Some(a);
      if n == 1 {
        assert Up(p, x, 1) == Up(p, p[x].value, 0);
      } else {
        assert Up(p, p[x].value, n - 1) == Some(a);
      }
    }
    if x in p && p[x].Some? {
      BelowParent(p, x);
      if p[x].value != a && Below(p, p[x].value, a) {
        BelowTrans(p, x, p[x].value, a);
      }
    }
  }

  /** The last step of a climb: a strict descendant of a is a child of a or lies below one. */
  lemma {:induction false} BelowLastStep(p: Parents, x: Id, a: Id, n: nat) returns (c: Id)
    requires n > 0 && Up(p, x, n) == Some(a)
    ensures c in p && p[c] == Some(a) && Up(p, x, n - 1) == Some(c)
    decreases n
  {
    if n == 1 {
      assert Up(p, x, 1) == Up(p, p[x].value, 0);
      c := x;
    } else {
      c := BelowLastStep(p, p[x].value, a, n - 1);
    }
  }

  /** Dropping entries, or dropping links, only loses climbs. */
  ghost predicate Weaker(q: Parents, p: Parents) {
    forall x :: x in q && q[x].Some? ==> x in p && p[x] == q[x]
  }

  lemma {:induction false} UpWeaker(q: Parents, p: Parents, x: Id, n: nat)
    requires Weaker(q, p) && Up(q, x, n).Some?
    ensures Up(p, x, n) == Up(q, x, n)
    decreases n
  {
    if n > 0 {
      UpWeaker(q, p, q[x].value, n - 1);
    }
  }

  lemma BelowWeaker(q: Parents, p: Parents, x: Id, a: Id)
    requires Weaker(q, p) && Below(q, x, a)
    ensures Below(p, x, a)
  {
    var n: nat :| n > 0 && Up(q, x, n) == Some(a);
    UpWeaker(q, p, x, n);
  }

  lemma AcyclicWeaker(q: Parents, p: Parents)
    requires Weaker(q, p) && Acyclic(p)
    ensures Acyclic(q)
  {
    forall x | x in q ensures !Below(q, x, x) {
      if Below(q, x, x) {
        BelowStep(q, x, x);
        BelowWeaker(q, p, x, x);
      }
    }
  }

  // ---- Hanging a subtree under a new parent

  /** A climb that reaches f after f's link was changed also reached f before. */
  lemma {:induction false} FirstVisit(p: Parents, q: Parents, f: Id, x: Id, n: nat)
    requires forall y :: y != f && y in q && q[y].Some? ==> y in p && p[y] == q[y]
    requires Up(q, x, n) == Some(f)
    ensures x == f || Below(p, x, f)
    decreases n
  {
    if x != f {
      FirstVisit(p, q, f, q[x].value, n - 1);
      BelowStep(p, x, f);
    }
  }

  /** A climb that never meets f does not notice that f's link changed. */
  lemma {:induction false} AvoidsOrMeets(p: Parents, q: Parents, f: Id, x: Id, n: nat) returns (k: nat)
    requires forall y :: y != f && y in q && q[y].Some? ==> y in p && p[y] == q[y]
    requires Up(q, x, n).Some?
    ensures k <= n
    ensures k == n ==> Up(p, x, n) == Up(q, x, n)
    ensures k < n ==> Up(q, x, k) == Some(f)
    decreases n
  {
    if n == 0 {
      k := 0;
    } else if x == f {
      k := 0;
    } else {
      var j := AvoidsOrMeets(p, q, f, q[x].value, n - 1);
      k := j + 1;
    }
  }

  /**
   Giving f a new parent t keeps the table free of cycles exactly when t is neither f nor
   below f.  This is the test the folder move handler makes.
   */
  lemma RelinkAcyclic(p: Parents, f: Id, t: Id)
    requires Acyclic(p)
    ensures Acyclic(p[f := Some(t)]) <==> t != f && !Below(p, t, f)
  {
    var q := p[f := Some(t)];
    if t != f && !Below(p, t, f) {
      forall x | x in q ensures !Below(q, x, x) {
        RelinkNoCycle(p, f, t, x);
      }
    }
    if t == f {
      BelowStep(q, f, f);
    } else if Below(p, t, f) {
      // The old climb from t to f survives up to its first visit of f, and f now leads to t.
      var n: nat :| n > 0 && Up(p, t, n) == Some(f);
      FirstVisit(q, p, f, t, n);
      BelowStep(q, f, f);
    }
  }

  lemma RelinkNoCycle(p: Parents, f: Id, t: Id, x: Id)
    requires Acyclic(p) && t != f && !Below(p, t, f)
    ensures !Below(p[f := Some(t)], x, x)
  {
    var q := p[f := Some(t)];
    if Below(q, x, x) {
      var n: nat :| n > 0 && Up(q, x, n) == Some(x);
      var k := AvoidsOrMeets(p, q, f, x, n);
      if k == n {
        BelowStep(p, x, x);
      } else {
        UpSplit(q, x, k, n);
        UpSplit(q, x, n, k);
        assert Up(q, t, n - 1) == Some(f);
        FirstVisit(p, q, f, t, n - 1);
      }
    }
  }

  /** A new id with no children of its own closes no cycle. */
  lemma AddLeafAcyclic(p: Parents, u: Id, parent: Option<Id>)
    requires Acyclic(p) && Closed(p) && u !in p
    requires parent.Some? ==> parent.value in p
    ensures Acyclic(p[u := parent])
  {
    var q := p[u := parent];
    match parent
    case None =>
      AcyclicWeaker(q, p);
    case Some(t) =>
      if Below(p, t, u) {
        var n: nat :| n > 0 && Up(p, t, n) == Some(u);
        var c := BelowLastStep(p, t, u, n);
      }
      RelinkAcyclic(p, u, t);
  }

  // ---- Every id of a closed, acyclic table belongs to a tree with a root

  /** The ids met on the first n steps of the climb from x. */
  ghost function Trail(p: Parents, x: Id, n: nat): (s: set<Id>)
    decreases n
  {
    if n == 0 then {} else
      Trail(p, x, n - 1) + (if Up(p, x, n - 1).Some? then {Up(p, x, n - 1).value} else {})
  }

  lemma {:induction false} TrailMember(p: Parents, x: Id, n: nat, y: Id) returns (k: nat)
    requires y in Trail(p, x, n)
    ensures k < n && Up(p, x, k) == Some(y)
    decreases n
  {
    if Up(p, x, n - 1) == Some(y) {
      k := n - 1;
    } else {
      k := TrailMember(p, x, n - 1, y);
    }
  }

  /** Without a cycle no climb meets an id twice. */
  lemma NoReturn(p: Parents, x: Id, k: nat, n: nat)
    requires Acyclic(p) && k < n && Up(p, x, k).Some?
    ensures Up(p, x, n) != Up(p, x, k)
  {
    var y := Up(p, x, k).value;
    UpSplit(p, x, k, n - k);
    assert y in p ==> !Below(p, y, y);
  }

  lemma TrailFresh(p: Parents, x: Id, n: nat)
    requires Acyclic(p) && Up(p, x, n).Some?
    ensures Up(p, x, n).value !in Trail(p, x, n)
  {
    forall y | y in Trail(p, x, n) ensures Some(y) != Up(p, x, n) {
      var k := TrailMember(p, x, n, y);
      NoReturn(p, x, k, n);
    }
  }

  lemma {:induction false} TrailGrows(p: Parents, x: Id, n: nat)
    requires Acyclic(p) && Closed(p) && x in p
    requires Up(p, x, n).Some?
    ensures |Trail(p, x, n + 1)| == n + 1 && Trail(p, x, n + 1) <= p.Keys
    decreases n
  {
    var last := Up(p, x, n).value;
    if n > 0 {
      UpSplit(p, x, n - 1, 1);
      TrailGrows(p, x, n - 1);
      assert Up(p, Up(p, x, n - 1).value, 1) == Some(last);
      assert Up(p, Up(p, x, n - 1).value, 1) == Up(p, p[Up(p, x, n - 1).value].value, 0);
    }
    TrailFresh(p, x, n);
  }

  /** No climb in a closed, acyclic table takes more steps than the table has entries. */
  lemma ClimbEnds(p: Parents, x: Id)
    requires Acyclic(p) && Closed(p) && x in p
    ensures Up(p, x, |p|) == None
  {
    if Up(p, x, |p|).Some? {
      assert |p.Keys| == |p|;
      TrailGrows(p, x, |p|);
      SubsetSize(Trail(p, x, |p| + 1), p.Keys);
    }
  }
}
