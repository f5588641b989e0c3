/** What every history writer keeps: the stored messages form a forest, and currentId is stored. */
module MessageForest {
  import opened Basics
  import opened Forest
  import opened Messages

  /** A parent link points at a stored message that lists this one as a child. */
  ghost predicate LinkedUp(ms: Bag, x: Id)
    requires x in ms
  {
    ms[x].parent.Some? ==> ms[x].parent.value in ms && x in ms[ms[x].parent.value].children
  }

  /** Every listed child is stored, names this message as its parent, and is listed once. */
  ghost predicate LinkedDown(ms: Bag, x: Id)
    requires x in ms
  {
    && NoRepeats(ms[x].children)
    && forall c :: c in ms[x].children ==> c in ms && ms[c].parent == Some(x)
  }

  ghost predicate IsForest(ms: Bag) {
    && (forall x :: x in ms ==> LinkedUp(ms, x))
    && (forall x :: x in ms ==> LinkedDown(ms, x))
    && Acyclic(ParentsOf(ms))
  }

  predicate CurrentStored(h: History) {
    h.current.Some? ==> h.current.value in h.messages
  }

  lemma ForestClosed(ms: Bag)
    requires forall x :: x in ms ==> LinkedUp(ms, x)
    ensures Closed(ParentsOf(ms))
  {
    forall x | x in ParentsOf(ms) && ParentsOf(ms)[x].Some? ensures ParentsOf(ms)[x].value in ParentsOf(ms) {
      assert LinkedUp(ms, x);
    }
  }

  lemma NotOwnParent(ms: Bag, x: Id)
    requires Acyclic(ParentsOf(ms)) && x in ms
    ensures ms[x].parent != Some(x)
  {
    BelowStep(ParentsOf(ms), x, x);
  }

  /** In a forest, every message's chain of parents ends at a root. */
  lemma EveryMessageHasRoot(ms: Bag, x: Id)
    requires IsForest(ms) && x in ms
    ensures Up(ParentsOf(ms), x, |ms|) == None
  {
    ForestClosed(ms);
    assert ParentsOf(ms).Keys == ms.Keys;
    assert |ParentsOf(ms)| == |ParentsOf(ms).Keys| == |ms.Keys| == |ms|;
    ClimbEnds(ParentsOf(ms), x);
  }

  // ---- append_turn

  /**
   When a turn suits the stored tree.  A new user message lists no child but its reply, which is
   new as well and a different message; a stored user message gets a new reply or one of its
   own; and a new reply comes without children.
   */
  predicate TurnFits(ms: Bag, t: Turn) {
    match t.userId
    case None => t.assistantId.None? || t.assistantId.value in ms || t.assistant.children == []
    case Some(u) =>
      if u in ms then
        match t.assistantId
        case None => true
        case Some(a) => if a in ms then a in ms[u].children else t.assistant.children == []
      else
        match t.assistantId
        case None => t.user.children == []
        case Some(a) =>
          && a !in ms && a != u
          && (t.user.children == [] || t.user.children == [a])
          && t.assistant.children == []
  }

  /** append_turn turns a forest into a forest exactly when the turn fits. */
  lemma TurnKeepsForest(h: History, t: Turn)
    requires IsForest(h.messages) && !ParentMissing(h.messages, t)
    ensures IsForest(TurnResult(h, t).messages) <==> TurnFits(h.messages, t)
  {
    if TurnFits(h.messages, t) {
      FittingTurn(h, t);
    } else {
      UnfittingTurn(h, t);
    }
  }

  /** Store a new childless message under a stored one, or as a root. */
  function Hang(ms: Bag, x: Id, m: Message, parent: Option<Id>): Bag
    requires parent.Some? ==> parent.value in ms
  {
    var added := ms[x := m.(parent := parent)];
    if parent.Some? then added[parent.value := WithChild(ms[parent.value], x)] else added
  }

  lemma HangKeepsForest(ms: Bag, x: Id, m: Message, parent: Option<Id>)
    requires IsForest(ms) && x !in ms && m.children == []
    requires parent.Some? ==> parent.value in ms
    ensures IsForest(Hang(ms, x, m, parent))
  {
    ForestClosed(ms);
    AddLeafAcyclic(ParentsOf(ms), x, parent);
    assert ParentsOf(Hang(ms, x, m, parent)) == ParentsOf(ms)[x := parent];
    forall y | y in Hang(ms, x, m, parent)
      ensures LinkedUp(Hang(ms, x, m, parent), y) && LinkedDown(Hang(ms, x, m, parent), y)
    {
      if y != x {
        HangLinks(ms, x, m, parent, y);
      }
    }
  }

  lemma HangLinks(ms: Bag, x: Id, m: Message, parent: Option<Id>, y: Id)
    requires x !in ms && y in ms && (parent.Some? ==> parent.value in ms)
    requires LinkedUp(ms, y) && LinkedDown(ms, y)
    requires forall c :: c in ms ==> LinkedUp(ms, c)
    ensures LinkedUp(Hang(ms, x, m, parent), y) && LinkedDown(Hang(ms, x, m, parent), y)
  {
    var r := Hang(ms, x, m, parent);
    assert r[y].parent == ms[y].parent;
    assert r[y].children == if parent == Some(y) then ms[y].children + [x] else ms[y].children;
  }

  lemma FittingTurn(h: History, t: Turn)
    requires IsForest(h.messages) && !ParentMissing(h.messages, t) && TurnFits(h.messages, t)
    ensures IsForest(TurnResult(h, t).messages)
  {
    var ms := h.messages;
    match t.userId
    case None =>
      if t.assistantId.Some? && t.assistantId.value !in ms {
        HangKeepsForest(ms, t.assistantId.value, WithRole(t.assistant, "assistant"), None);
      }
    case Some(u) =>
      if u in ms {
        FittingReply(ms, t, u);
      } else {
        FittingExchange(ms, t, u);
      }
  }

  /** The user message is stored already: an edit, then perhaps a new reply under it. */
  lemma FittingReply(ms: Bag, t: Turn, u: Id)
    requires IsForest(ms) && t.userId == Some(u) && u in ms && !ParentMissing(ms, t) && TurnFits(ms, t)
    ensures IsForest(ReplyStored(UserStored(ms, t), t))
  {
    var base := ms[u := EditedUser(ms[u], t.(assistantId := None))];
    SameLinksKeepForest(ms, base);
    if t.assistantId.Some? && t.assistantId.value !in ms {
      HangKeepsForest(base, t.assistantId.value, WithRole(t.assistant, "assistant"), t.userId);
      ReplyIsHang(ms, t, u, t.assistantId.value);
    } else {
      assert ReplyStored(UserStored(ms, t), t) == base;
    }
  }

  lemma ReplyIsHang(ms: Bag, t: Turn, u: Id, a: Id)
    requires u in ms && a !in ms && t.userId == Some(u) && t.assistantId == Some(a) && !ParentMissing(ms, t)
    ensures ReplyStored(UserStored(ms, t), t)
         == Hang(ms[u := EditedUser(ms[u], t.(assistantId := None))], a, WithRole(t.assistant, "assistant"), Some(u))
  {
    assert EditedUser(ms[u], t) == WithChild(EditedUser(ms[u], t.(assistantId := None)), a);
  }

  /** Both messages are new, or the user message alone. */
  lemma FittingExchange(ms: Bag, t: Turn, u: Id)
    requires IsForest(ms) && t.userId == Some(u) && u !in ms && !ParentMissing(ms, t) && TurnFits(ms, t)
    ensures IsForest(ReplyStored(UserStored(ms, t), t))
  {
    var user := WithRole(t.user.(children := []), "user");
    var base := Hang(ms, u, user, t.user.parent);
    HangKeepsForest(ms, u, user, t.user.parent);
    if t.assistantId.Some? {
      var reply := WithRole(t.assistant, "assistant");
      HangKeepsForest(base, t.assistantId.value, reply, t.userId);
      ExchangeIsTwoHangs(ms, t, u, t.assistantId.value);
    } else {
      assert ReplyStored(UserStored(ms, t), t) == base;
    }
  }

  lemma ExchangeIsTwoHangs(ms: Bag, t: Turn, u: Id, a: Id)
    requires u !in ms && a !in ms && a != u && !ParentMissing(ms, t)
    requires t.userId == Some(u) && t.assistantId == Some(a)
    requires t.user.children == [] || t.user.children == [a]
    ensures ReplyStored(UserStored(ms, t), t)
         == Hang(Hang(ms, u, WithRole(t.user.(children := []), "user"), t.user.parent),
                 a, WithRole(t.assistant, "assistant"), Some(u))
  {
    assert WithChild(t.user, a) == t.user.(children := [a]);
    var bare := WithRole(t.user.(children := []), "user");
    assert WithChild(bare, a) == WithRole(t.user.(children := [a]), "user");
    assert UserStored(ms, t) == Hang(ms, u, bare, t.user.parent)[u := WithChild(bare, a)];
  }

  /** What the user's half yields, spelled out for one message at a time. */
  lemma UserHalf(ms: Bag, t: Turn) returns (mid: Bag)
    requires IsForest(ms) && !ParentMissing(ms, t)
    ensures mid == UserStored(ms, t)
    ensures mid.Keys == ms.Keys + (if t.userId.Some? then {t.userId.value} else {})
    ensures forall x :: x in ms ==> mid[x].parent == ms[x].parent
    ensures t.userId.Some? && t.userId.value !in ms ==> mid[t.userId.value].parent == t.user.parent
  {
    mid := UserStored(ms, t);
  }

  lemma UnfittingTurn(h: History, t: Turn)
    requires IsForest(h.messages) && !ParentMissing(h.messages, t) && !TurnFits(h.messages, t)
    ensures !IsForest(TurnResult(h, t).messages)
  {
    var ms := h.messages;
    var mid := UserHalf(ms, t);
    var r := TurnResult(h, t).messages;
    if t.assistantId.Some? && t.assistantId.value !in mid && t.assistant.children != [] {
      // A new reply that lists a child: no stored message names the reply as its parent.
      var a := t.assistantId.value;
      var c := t.assistant.children[0];
      assert c in r[a].children;
      assert c in ms ==> LinkedUp(ms, c);
      assert !LinkedDown(r, a);
    } else {
      var u := t.userId.value;
      if u in ms {
        // The reply is stored under another message, yet becomes a child of this one as well.
        var a := t.assistantId.value;
        NotOwnParent(ms, u);
        assert a in r[u].children && LinkedUp(ms, a);
        assert !LinkedDown(r, u);
      } else if t.assistantId.Some? && (t.assistantId.value in ms || t.assistantId.value == u) {
        var a := t.assistantId.value;
        assert a in r[u].children;
        assert a in ms ==> LinkedUp(ms, a);
        assert !LinkedDown(r, u);
      } else {
        UnfittingChildren(ms, t, r);
      }
    }
  }

  /** A new user message that lists a child other than its new reply, or lists it twice. */
  lemma UnfittingChildren(ms: Bag, t: Turn, r: Bag)
    requires IsForest(ms) && !ParentMissing(ms, t)
    requires t.userId.Some? && t.userId.value !in ms
    requires t.assistantId.Some? ==> t.assistantId.value !in ms && t.assistantId != t.userId
    requires t.user.children != [] && (t.assistantId.Some? ==> t.user.children != [t.assistantId.value])
    requires r == ReplyStored(UserStored(ms, t), t)
    ensures !IsForest(r)
  {
    var u := t.userId.value;
    var given, kids := t.user.children, r[u].children;
    assert given <= kids;
    if exists c :: c in given && Some(c) != t.assistantId {
      var c :| c in given && Some(c) != t.assistantId;
      assert c in kids;
      assert c in ms ==> LinkedUp(ms, c);
      assert !LinkedDown(r, u);
    } else {
      assert given[0] in given;
      ListedTwice(given, t.assistantId.value);
      assert !NoRepeats(kids) by {
        assert kids[0] == given[0] && kids[1] == given[1];
      }
      assert !LinkedDown(r, u);
    }
  }

  lemma ListedTwice(s: seq<Id>, a: Id)
    requires s != [] && s != [a] && forall c :: c in s ==> c == a
    ensures |s| > 1 && s[0] == s[1] == a
  {
    assert s[0] in s;
    assert |s| > 1 ==> s[1] in s;
  }

  /** The turn the browser sends: a new user message and its new reply, or a new reply to a stored one. */
  lemma ClientTurnFits(ms: Bag, t: Turn)
    requires t.userId.Some? && t.assistantId.Some? && t.userId != t.assistantId
    requires t.assistantId.value !in ms && t.assistant.children == []
    requires t.user.children == [t.assistantId.value]
    ensures TurnFits(ms, t)
  {
  }

  /** The list grows at its end by the child, unless it is there already. */
  predicate GrowsBy(before: seq<Id>, after: seq<Id>, c: Option<Id>) {
    after == if c.None? || c.value in before then before else before + [c.value]
  }

  /**
   What a turn may touch: its own two messages and the parent's child list, which gains a new user
   message.  Every other message is left exactly as it was, and so is a reply that was stored before.
   */
  lemma TurnTouchesOnly(h: History, t: Turn, x: Id)
    requires !ParentMissing(h.messages, t) && x in h.messages && t.userId != Some(x)
    ensures var r := TurnResult(h, t).messages;
      && x in r
      && r[x].(children := h.messages[x].children) == h.messages[x]
      && GrowsBy(h.messages[x].children, r[x].children,
                 if t.user.parent == Some(x) && t.userId.Some? && t.userId.value !in h.messages then t.userId else None)
  {
  }

  /** A new message is stored as sent, down to its defaults. */
  predicate StoredAsSent(stored: Message, sent: Message, parent: Option<Id>, children: seq<Id>, role: string) {
    && stored.parent == parent && stored.children == children
    && stored.content == sent.content && stored.files == sent.files && stored.extra == sent.extra
    && stored.role == (if sent.role.None? then Some(role) else sent.role)
  }

  /** A stored user message takes the incoming text and files when there are any, gains the reply, and keeps the rest. */
  predicate EditedByTurn(before: Message, after: Message, sent: Message, reply: Option<Id>) {
    && after.parent == before.parent && after.role == before.role && after.extra == before.extra
    && after.content == (if sent.content == "" then before.content else sent.content)
    && after.files == (if sent.files == [] then before.files else sent.files)
    && GrowsBy(before.children, after.children, reply)
  }

  /** The user message of a turn, with or without a reply, new or stored. */
  lemma TurnStoresUser(h: History, t: Turn)
    requires !ParentMissing(h.messages, t) && t.userId.Some?
    ensures var r, u := TurnResult(h, t).messages, t.userId.value;
      && u in r
      && (if u in h.messages then EditedByTurn(h.messages[u], r[u], t.user, t.assistantId)
          else GrowsBy(t.user.children, r[u].children, t.assistantId)
               && StoredAsSent(r[u], t.user, t.user.parent, r[u].children, "user"))
  {
  }

  /** The reply of a turn, with or without a user message, and what becomes current. */
  lemma TurnStoresReply(h: History, t: Turn)
    requires !ParentMissing(h.messages, t)
    ensures var r := TurnResult(h, t);
      && r.current == (if t.assistantId.Some? then t.assistantId else h.current)
      && r.messages.Keys == h.messages.Keys + (if t.userId.Some? then {t.userId.value} else {})
                            + (if t.assistantId.Some? then {t.assistantId.value} else {})
      && (t.assistantId.Some? && t.assistantId.value !in h.messages && t.assistantId != t.userId ==>
           StoredAsSent(r.messages[t.assistantId.value], t.assistant, t.userId, t.assistant.children, "assistant"))
  {
  }

  /** Both messages of a turn, new or stored, afterwards; the reply is current. */
  lemma TurnStoresBoth(h: History, t: Turn)
    requires !ParentMissing(h.messages, t)
    requires t.userId.Some? && t.assistantId.Some? && t.userId != t.assistantId
    ensures var r, u, a := TurnResult(h, t), t.userId.value, t.assistantId.value;
      && r.current == Some(a) && u in r.messages && a in r.messages
      && (if u in h.messages then EditedByTurn(h.messages[u], r.messages[u], t.user, Some(a))
          else GrowsBy(t.user.children, r.messages[u].children, Some(a))
               && StoredAsSent(r.messages[u], t.user, t.user.parent, r.messages[u].children, "user"))
      && (if a in h.messages then r.messages[a].(children := h.messages[a].children) == h.messages[a]
          else StoredAsSent(r.messages[a], t.assistant, Some(u), t.assistant.children, "assistant"))
  {
    TurnStoresUser(h, t);
    TurnStoresReply(h, t);
  }

  /**
   append_turn reports no change exactly when storing the turn would change nothing and it brings a
   stored user message no files; otherwise it stores the turn, or raises for a missing parent.
   */
  lemma TurnReportsExactly(h: History, t: Turn)
    ensures AppendTurn(h, t).Raised? <==> t.user.parent.Some? && t.user.parent.value !in h.messages
    ensures AppendTurn(h, t).Changed? ==> AppendTurn(h, t).value == TurnResult(h, t)
    ensures !AppendTurn(h, t).Raised? ==>
      (AppendTurn(h, t).Same? <==> TurnResult(h, t) == h && (t.userId.Some? ==> t.user.files == []))
  {
    if !AppendTurn(h, t).Raised? {
      TurnStoresReply(h, t);
      if t.userId.Some? {
        TurnStoresUser(h, t);
      }
    }
  }

  /** A reply already stored elsewhere: the new user message lists a message that names another parent, or none. */
  lemma StoredReplyBreaksForest() returns (h: History, t: Turn)
    ensures IsForest(h.messages) && !ParentMissing(h.messages, t)
    ensures AppendTurn(h, t).Changed? && !IsForest(AppendTurn(h, t).value.messages)
  {
    h := History(map["reply" := BLANK], Some("reply"));
    t := Turn(Some("question"), BLANK, Some("reply"), BLANK);
    assert Acyclic(ParentsOf(h.messages)) by {
      BelowStep(ParentsOf(h.messages), "reply", "reply");
    }
    TurnKeepsForest(h, t);
  }

  lemma TurnKeepsCurrent(h: History, t: Turn)
    requires CurrentStored(h) && !ParentMissing(h.messages, t)
    ensures CurrentStored(TurnResult(h, t))
    ensures h.messages.Keys <= TurnResult(h, t).messages.Keys
  {
  }

  // ---- apply_history_patch: deleting

  /** Deleting a message deletes its replies. */
  predicate DescendantClosed(ms: Bag, gone: set<Id>) {
    forall x :: x in ms && x !in gone && ms[x].parent.Some? ==> ms[x].parent.value !in gone
  }

  lemma {:induction false} WithoutKeepsNoRepeats(s: seq<Id>, gone: set<Id>)
    requires NoRepeats(s)
    ensures NoRepeats(Without(s, gone))
  {
    if s != [] {
      assert NoRepeats(s[1..]);
      WithoutKeepsNoRepeats(s[1..], gone);
      assert forall x :: x in Without(s[1..], gone) ==> x in s[1..];
      assert s[0] !in s[1..];
    }
  }

  /** A deletion leaves a forest exactly when it takes every descendant along. */
  lemma DeleteKeepsForest(ms: Bag, gone: set<Id>)
    requires IsForest(ms)
    ensures IsForest(Pruned(ms, gone)) <==> DescendantClosed(ms, gone)
  {
    var r := Pruned(ms, gone);
    AcyclicWeaker(ParentsOf(r), ParentsOf(ms));
    if DescendantClosed(ms, gone) {
      forall x | x in r ensures LinkedUp(r, x) && LinkedDown(r, x) {
        assert LinkedUp(ms, x) && LinkedDown(ms, x);
        WithoutKeepsNoRepeats(ms[x].children, gone);
      }
    } else {
      var x :| x in ms && x !in gone && ms[x].parent.Some? && ms[x].parent.value in gone;
      assert x in r && !LinkedUp(r, x);
    }
  }

  // ---- apply_history_patch: where currentId lands

  /** a is the first message on the way up from x, x itself included, that is not deleted. */
  ghost predicate NearestSurvivor(p: Parents, gone: set<Id>, x: Id, a: Option<Id>) {
    exists n: nat ::
      && Up(p, x, n) == a
      && (forall k: nat :: k < n ==> Up(p, x, k).Some? && Up(p, x, k).value in gone)
      && (a.Some? ==> a.value !in gone)
  }

  lemma {:induction false} ClimbFinds(ms: Bag, gone: set<Id>, x: Id, n: nat)
    requires IsForest(ms) && x in ms
    requires forall k: nat :: k < n ==> Up(ParentsOf(ms), x, k).Some? && Up(ParentsOf(ms), x, k).value in gone
    ensures NearestSurvivor(ParentsOf(ms), gone, x, Climb(ms, gone, Up(ParentsOf(ms), x, n), Trail(ParentsOf(ms), x, n)))
    decreases gone - Trail(ParentsOf(ms), x, n)
  {
    var p := ParentsOf(ms);
    var cursor := Up(p, x, n);
    if cursor.Some? {
      UpStored(ms, x, n);
      var c := cursor.value;
      TrailFresh(p, x, n);
      if c in gone {
        UpSplit(p, x, n, 1);
        assert Up(p, c, 1) == RememberedParent(ms, c) by {
          if ms[c].parent.Some? {
            assert Up(p, c, 1) == Up(p, ms[c].parent.value, 0);
          }
        }
        ClimbFinds(ms, gone, x, n + 1);
      }
    }
  }

  lemma {:induction false} UpStored(ms: Bag, x: Id, n: nat)
    requires forall y :: y in ms ==> LinkedUp(ms, y)
    requires x in ms && Up(ParentsOf(ms), x, n).Some?
    ensures Up(ParentsOf(ms), x, n).value in ms
    decreases n
  {
    if n > 0 {
      assert LinkedUp(ms, x);
      UpStored(ms, ms[x].parent.value, n - 1);
    }
  }

  /** On a forest, deleting the current message moves currentId to its nearest surviving ancestor, or to null. */
  lemma DeleteMovesCurrentToSurvivor(h: History, gone: set<Id>)
    requires IsForest(h.messages) && CurrentStored(h)
    requires h.current.Some? && h.current.value in gone
    ensures NearestSurvivor(ParentsOf(h.messages), gone, h.current.value, CurrentAfterDelete(h, gone))
  {
    var p, x := ParentsOf(h.messages), h.current.value;
    assert Up(p, x, 0) == Some(x);
    ClimbFinds(h.messages, gone, x, 0);
    var cursor := Climb(h.messages, gone, h.current, {});
    if cursor.Some? {
      var n: nat :| Up(p, x, n) == cursor;
      UpStored(h.messages, x, n);
    }
  }

  /** On any links at all, cyclic ones included, currentId ends up null or stored. */
  lemma PatchKeepsCurrent(h: History, up: map<Id, Patch>, gone: set<Id>)
    requires CurrentStored(h)
    ensures CurrentStored(HistoryPatch(h, up, gone))
  {
    assert CurrentStored(Deleted(h, gone));
  }

  // ---- writes that leave links alone

  /** The patch names no parent and no children other than the ones already there. */
  predicate KeepsLinks(ms: Bag, x: Id, p: Patch) {
    var m := if x in ms then ms[x] else BLANK;
    && (p.parent.Some? ==> p.parent.value == m.parent)
    && (p.children.Some? ==> p.children.value == m.children)
  }

  /** Same links on the stored messages; new messages are isolated roots. */
  ghost predicate SameLinks(ms: Bag, r: Bag) {
    && ms.Keys <= r.Keys
    && (forall x :: x in ms ==> r[x].parent == ms[x].parent && r[x].children == ms[x].children)
    && (forall x :: x in r && x !in ms ==> r[x].parent == None && r[x].children == [])
  }

  lemma SameLinksKeepForest(ms: Bag, r: Bag)
    requires IsForest(ms) && SameLinks(ms, r)
    ensures IsForest(r)
  {
    AcyclicWeaker(ParentsOf(r), ParentsOf(ms));
    forall x | x in r ensures LinkedUp(r, x) && LinkedDown(r, x) {
      if x in ms {
        assert LinkedUp(ms, x) && LinkedDown(ms, x);
      }
    }
  }

  /** A history patch whose upserts touch no links leaves a forest exactly when it deletes whole subtrees. */
  lemma PatchKeepsForest(h: History, up: map<Id, Patch>, gone: set<Id>)
    requires IsForest(h.messages)
    requires forall x :: x in up ==> KeepsLinks(Deleted(h, gone).messages, x, up[x])
    ensures IsForest(HistoryPatch(h, up, gone).messages) <==> DescendantClosed(h.messages, gone)
  {
    var d, r := Deleted(h, gone).messages, HistoryPatch(h, up, gone).messages;
    DeleteKeepsForest(h.messages, gone);
    forall x | x in r
      ensures x in d ==> r[x].parent == d[x].parent && r[x].children == d[x].children
      ensures x !in d ==> r[x].parent == None && r[x].children == []
    {
      if x in up {
        assert KeepsLinks(d, x, up[x]);
      }
    }
    if DescendantClosed(h.messages, gone) {
      SameLinksKeepForest(d, r);
    } else {
      var x :| x in h.messages && x !in gone && h.messages[x].parent.Some? && h.messages[x].parent.value in gone;
      assert x in r && !LinkedUp(r, x);
    }
  }

  // ---- replaying a turn

  /** One later write to the reply of a turn. */
  datatype ReplyWrite = Piece(text: string) | FinalSave(updates: Option<Updates>, patch: Patch) | Parts(batch: Updates)

  function AfterWrite(h: History, r: Applied<History>): History {
    if r.Changed? then r.value else h
  }

  function WriteReply(h: History, a: Id, w: ReplyWrite): History {
    match w
    case Piece(text) => AfterWrite(h, AppendContent(h, a, text))
    case FinalSave(updates, patch) => SaveReply(h, a, updates, patch)
    case Parts(batch) => AfterWrite(h, MergeUpdates(h, a, batch))
  }

  function WriteReplies(h: History, a: Id, ws: seq<ReplyWrite>): History
    decreases |ws|
  {
    if ws == [] then h else WriteReplies(WriteReply(h, a, ws[0]), a, ws[1..])
  }

  /**
   The final save of a reply is its pending parts merged and its text upserted, in one write, an
   unstored message counting as blank: the patch has the last word over the parts, and saving a
   reply with no parts is an upsert.
   */
  lemma SaveIsMergeThenUpsert(h: History, x: Id, updates: Option<Updates>, p: Patch)
    ensures
      var stored := if x in h.messages then h else h.(messages := h.messages[x := BLANK]);
      var merged := if updates.Some? then AfterWrite(stored, MergeUpdates(stored, x, updates.value)) else stored;
      SaveReply(h, x, updates, p) == UpsertMessage(merged, x, p)
    ensures updates.None? ==> SaveReply(h, x, updates, p) == UpsertMessage(h, x, p)
  {
  }

  /** What a turn leaves behind, and what any write to its reply leaves in place. */
  predicate TurnInPlace(h: History, t: Turn)
    requires t.userId.Some? && t.assistantId.Some?
  {
    var u, a := t.userId.value, t.assistantId.value;
    && u in h.messages && a in h.messages && h.current == Some(a)
    && a in h.messages[u].children
    && (t.user.content != "" ==> h.messages[u].content == t.user.content)
    && (t.user.parent.Some? ==> t.user.parent.value in h.messages)
  }

  lemma TurnTakesPlace(h: History, t: Turn)
    requires t.userId.Some? && t.assistantId.Some? && t.userId != t.assistantId
    requires !AppendTurn(h, t).Raised?
    ensures TurnInPlace(AfterWrite(h, AppendTurn(h, t)), t)
  {
  }

  lemma {:induction false} RepliesStayInPlace(h: History, t: Turn, ws: seq<ReplyWrite>)
    requires t.userId.Some? && t.assistantId.Some? && t.userId != t.assistantId
    requires TurnInPlace(h, t)
    ensures TurnInPlace(WriteReplies(h, t.assistantId.value, ws), t)
    decreases |ws|
  {
    if ws != [] {
      RepliesStayInPlace(WriteReply(h, t.assistantId.value, ws[0]), t, ws[1..]);
    }
  }

  /**
   A turn is sent, its reply is written any number of times, and the same turn is sent again.
   The second sending never changes the reply, and it reports no change exactly when the turn
   carries no files.
   */
  lemma ReplayedTurn(h: History, t: Turn, ws: seq<ReplyWrite>)
    requires t.userId.Some? && t.assistantId.Some? && t.userId != t.assistantId
    requires !AppendTurn(h, t).Raised?
    ensures
      var a := t.assistantId.value;
      var h' := WriteReplies(AfterWrite(h, AppendTurn(h, t)), a, ws);
      && a in h'.messages
      && !AppendTurn(h', t).Raised?
      && (AppendTurn(h', t).Same? <==> t.user.files == [])
      && AfterWrite(h', AppendTurn(h', t)).messages[a] == h'.messages[a]
  {
    TurnTakesPlace(h, t);
    RepliesStayInPlace(AfterWrite(h, AppendTurn(h, t)), t, ws);
  }

  /** Sending a turn with files again stores it again. */
  lemma FilesAreStoredAgain() returns (h: History, t: Turn)
    ensures AppendTurn(h, t).Changed? && AppendTurn(AppendTurn(h, t).value, t).Changed?
  {
    h := History(map[], None);
    t := Turn(Some("question"), BLANK.(files := ["map.png"]), Some("reply"), BLANK);
    ReplayedTurn(h, t, []);
  }
}
