/**
 The apply closures of backend/open_webui/models/chats.py, step by step on the private copy of a
 chat's history that the closure is given.  Each method is proved against the function of
 Messages that says what the edit yields.
 */
module HistoryEdits {
  import opened Basics
  import opened Messages

  /** The decoded copy of one chat's history. */
  class HistoryCopy {
    var messages: Bag
    var current: Option<Id>

    constructor (h: History)
      ensures Value() == h
    {
      messages, current := h.messages, h.current;
    }

    function Value(): History
      reads this
    {
      History(messages, current)
    }

    /** Store the messages of a turn that are new; the outcome says whether to keep the copy. */
    method AppendTurn(t: Turn) returns (r: Applied<()>)
      modifies this
      ensures r.Raised? <==> Messages.AppendTurn(old(Value()), t).Raised?
      ensures r.Raised? ==> Value() == old(Value())
      ensures r.Same? <==> Messages.AppendTurn(old(Value()), t).Same?
      ensures r.Same? ==> Value() == old(Value())
      ensures r.Changed? ==> Messages.AppendTurn(old(Value()), t) == Changed(Value())
    {
      if t.user.parent.Some? && t.user.parent.value !in messages {
        return Raised;
      }
      var changed := false;
      if t.userId.Some? && t.userId.value !in messages {
        changed := true;
        StoreNewUser(t, t.userId.value);
      } else if t.userId.Some? {
        changed := EditStoredUser(t, t.userId.value);
      }
      if t.assistantId.Some? && t.assistantId.value !in messages {
        var reply := t.assistant;
        if reply.role.None? {
          reply := reply.(role := Some("assistant"));
        }
        messages := messages[t.assistantId.value := reply.(parent := t.userId)];
        changed := true;
      }
      if t.assistantId.Some? && current != t.assistantId {
        current := t.assistantId;
        changed := true;
      }
      r := if changed then Changed(()) else Same;
      if !changed {
        assert messages == old(messages);
      }
    }

    method StoreNewUser(t: Turn, u: Id)
      requires t.userId == Some(u) && u !in messages && !ParentMissing(messages, t)
      modifies this`messages
      ensures messages == UserStored(old(messages), t)
    {
      var stored := t.user;
      if t.assistantId.Some? && t.assistantId.value !in stored.children {
        stored := stored.(children := stored.children + [t.assistantId.value]);
      }
      if stored.role.None? {
        stored := stored.(role := Some("user"));
      }
      messages := messages[u := stored];
      if t.user.parent.Some? {
        var parent := messages[t.user.parent.value];
        if u !in parent.children {
          parent := parent.(children := parent.children + [u]);
        }
        messages := messages[t.user.parent.value := parent];
      }
    }

    method EditStoredUser(t: Turn, u: Id) returns (changed: bool)
      requires t.userId == Some(u) && u in messages && !ParentMissing(messages, t)
      modifies this`messages
      ensures messages == UserStored(old(messages), t)
      ensures changed == UserEdited(old(messages)[u], t)
    {
      var stored := messages[u];
      changed := false;
      if t.user.content != "" && t.user.content != stored.content {
        stored := stored.(content := t.user.content);
        changed := true;
      }
      if t.user.files != [] {
        stored := stored.(files := t.user.files);
        changed := true;
      }
      if t.assistantId.Some? && t.assistantId.value !in stored.children {
        stored := stored.(children := stored.children + [t.assistantId.value]);
        changed := true;
      }
      messages := messages[u := stored];
    }

    /** Remove the deleted messages, mend child lists and currentId, then merge the upserts. */
    method ApplyHistoryPatch(up: map<Id, Patch>, gone: set<Id>)
      modifies this
      ensures Value() == HistoryPatch(old(Value()), up, gone)
    {
      var start := messages;
      messages := map x | x in start && x !in gone :: start[x];
      FilterChildren(gone);
      assert messages == Pruned(start, gone);
      if current.Some? && current.value in gone {
        var cursor := ClimbPastDeleted(start, gone, current);
        current := if cursor.Some? && cursor.value in messages then cursor else None;
      }
      MergeUpserts(up);
    }

    method FilterChildren(gone: set<Id>)
      modifies this`messages
      ensures messages.Keys == old(messages).Keys
      ensures forall x :: x in messages ==>
        messages[x] == old(messages)[x].(children := Without(old(messages)[x].children, gone))
    {
      var todo := messages.Keys;
      while todo != {}
        invariant todo <= messages.Keys == old(messages).Keys
        invariant forall x :: x in messages ==>
          messages[x] == if x in todo then old(messages)[x]
                         else old(messages)[x].(children := Without(old(messages)[x].children, gone))
        decreases todo
      {
        var x :| x in todo;
        messages := messages[x := messages[x].(children := Without(messages[x].children, gone))];
        todo := todo - {x};
      }
    }

    /** The climb past deleted messages, over the links of the messages as they were. */
    static method ClimbPastDeleted(start: Bag, gone: set<Id>, from: Option<Id>) returns (cursor: Option<Id>)
      ensures cursor == Climb(start, gone, from, {})
      ensures cursor.Some? && cursor.value in Pruned(start, gone) ==> cursor.value !in gone
    {
      cursor := from;
      var seen: set<Id> := {};
      while cursor.Some? && cursor.value in gone && cursor.value !in seen
        invariant Climb(start, gone, cursor, seen) == Climb(start, gone, from, {})
        decreases gone - seen
      {
        seen := seen + {cursor.value};
        cursor := RememberedParent(start, cursor.value);
      }
    }

    method MergeUpserts(up: map<Id, Patch>)
      modifies this`messages
      ensures messages == Upserted(old(messages), up)
    {
      var todo := up.Keys;
      while todo != {}
        invariant todo <= up.Keys
        invariant messages == Upserted(old(messages), map x | x in up && x !in todo :: up[x])
        decreases todo
      {
        var x :| x in todo;
        messages := messages[x := Overlay(if x in messages then messages[x] else BLANK, up[x])];
        todo := todo - {x};
      }
      assert (map x | x in up && x !in todo :: up[x]) == up;
    }

    method Upsert(x: Id, p: Patch)
      modifies this
      ensures Value() == UpsertMessage(old(Value()), x, p)
    {
      if x in messages {
        messages := messages[x := Overlay(messages[x], p)];
      } else {
        messages := messages[x := Overlay(BLANK, p)];
      }
      current := Some(x);
    }

    method AppendText(x: Id, text: string) returns (changed: bool)
      modifies this`messages
      ensures Messages.AppendContent(old(Value()), x, text) == if changed then Changed(Value()) else Same
      ensures !changed ==> Value() == old(Value())
    {
      changed := x in messages && text != "";
      if changed {
        var message := messages[x];
        messages := messages[x := message.(content := message.content + text)];
      }
    }

    method SaveFinal(x: Id, updates: Option<Updates>, p: Patch)
      modifies this
      ensures Value() == SaveReply(old(Value()), x, updates, p)
    {
      var base := if x in messages then messages[x] else BLANK;
      if updates.Some? {
        base := ApplyUpdates(base, updates.value);
      }
      messages := messages[x := Overlay(base, p)];
      current := Some(x);
    }

    method MergeParts(x: Id, u: Updates) returns (changed: bool)
      modifies this`messages
      ensures Messages.MergeUpdates(old(Value()), x, u) == if changed then Changed(Value()) else Same
      ensures !changed ==> Value() == old(Value())
    {
      changed := x in messages;
      if changed {
        messages := messages[x := ApplyUpdates(messages[x], u)];
      }
    }
  }
}
