/** The folder and chat tables as the methods and handlers change them, step by step. */
module FolderTables {
  import opened Basics
  import opened Forest
  import opened Folders
  import opened FolderRuns

  /** What deleting a folder leaves and keeps, read off the desk before. */
  lemma DeletedDesk(d: Desk, id: Id, user: Id, deleteChats: bool)
    requires Sound(d.rows) && id in d.rows
    ensures Sound(WithoutSubtree(d.rows, id)) && SubtreeGone(d.rows, WithoutSubtree(d.rows, id), id)
    ensures var gone, remove := Subtree(d.rows, id), deleteChats && d.rows[id].visibility.Private?;
      ChatsLeft(d.chats, ChatsAfterDelete(d.chats, gone, user, remove), gone, user, remove)
    ensures var c := DeleteTree(id, user, deleteChats); Tidy(d) && Accepted(d, c) ==> Tidy(Changed(d, c))
  {
    DeleteKeepsSound(d.rows, id);
    WithoutSubtreeExactly(d.rows, id);
    ChatsAfterDeleteExactly(d.chats, Subtree(d.rows, id), user, deleteChats && d.rows[id].visibility.Private?);
    if Tidy(d) && Accepted(d, DeleteTree(id, user, deleteChats)) {
      DeleteTreeStaysTidy(d, DeleteTree(id, user, deleteChats));
    }
  }

  lemma DroppedDesk(d: Desk, organization: Id)
    ensures var c := DropOrganization(organization);
      && (Sound(d.rows) ==> Sound(Changed(d, c).rows))
      && (Sound(d.rows) && Tidy(d) ==> (Tidy(Changed(d, c)) <==> Clear(d, c)))
  {
    if Sound(d.rows) {
      ChangeKeepsSound(d, DropOrganization(organization));
      if Tidy(d) {
        ChangeStaysTidyExactly(d, DropOrganization(organization));
      }
    }
  }

  class FolderTable {
    var rows: Rows
    var chats: Chats

    function Value(): Desk
      reads this
    {
      Desk(rows, chats)
    }

    /** The children the query returns, in an order the database chooses. */
    method QueryChildren(folder: Folder, parent: Id) returns (children: seq<Id>)
      ensures NoRepeats(children)
      ensures forall x :: x in children <==> x in ScopedLinks(rows, folder) && rows[x].parent == Some(parent)
    {
      children := [];
      var todo := set x | x in rows && SameScope(folder, rows[x]) && rows[x].parent == Some(parent);
      ghost var all := todo;
      while todo != {}
        invariant todo <= all && NoRepeats(children)
        invariant forall x :: x in children <==> x in all && x !in todo
        decreases todo
      {
        var x :| x in todo;
        children := children + [x];
        todo := todo - {x};
      }
    }

    /**
     descendant_folders: a worklist with no visited set.  It needs only that the folder does not
     lie below itself; it then ends with exactly the folders below, each once.
     */
    method DescendantFolders(id: Id, folder: Folder) returns (found: seq<Id>)
      requires !ScopedBelow(rows, folder, id, id)
      ensures NoRepeats(found)
      ensures forall x :: x in found <==> ScopedBelow(rows, folder, id, x)
    {
      ghost var p := ScopedLinks(rows, folder);
      found := [];
      var stack := [id];
      while stack != []
        invariant MidSearch(p, id, found, stack)
        invariant |found| <= |p|
        decreases 2 * (|p| - |found|) + |stack|
      {
        var parent := stack[|stack| - 1];
        stack := stack[..|stack| - 1];
        var children := QueryChildren(folder, parent);
        SearchStep(p, id, found, stack, parent, children);
        found := found + children;
        stack := stack + children;
        FoundFits(found, p);
      }
      assert forall x :: x in found ==> ScopedBelow(rows, folder, id, x);
      forall x | ScopedBelow(rows, folder, id, x) ensures x in found {
        var n: nat :| n > 0 && Up(p, x, n) == Some(id);
        ClosedHoldsAll(p, id, Elements(found), x, n);
      }
    }

    /** _can_read_folder: one's own folder, or a shared one of an organization one belongs to. */
    predicate CanRead(id: Id, user: Id, members: set<(Id, Id)>)
      reads this`rows
    {
      id in rows && (rows[id].user == user ||
                     (rows[id].visibility.Shared? && (rows[id].organization, user) in members))
    }

    /** One reads one's own folders, private or shared, and of other people's just the shared ones of one's organizations. */
    lemma CanReadExactly(id: Id, user: Id, members: set<(Id, Id)>)
      ensures id !in rows ==> !CanRead(id, user, members)
      ensures id in rows && rows[id].user == user ==> CanRead(id, user, members)
      ensures id in rows && rows[id].user != user && rows[id].visibility.Private? ==> !CanRead(id, user, members)
      ensures id in rows && rows[id].user != user && rows[id].visibility.Shared? ==>
        (CanRead(id, user, members) <==> (rows[id].organization, user) in members)
    {
    }

    /** create_folder and insert_new_folder: a new root under a fresh, non-empty id. */
    method CreateFolder(id: Id, user: Id, organization: Id, asked: Visibility, name: string)
      requires id != "" && Unused(rows, id) && Sound(rows)
      modifies this`rows
      ensures rows == old(rows)[id := NewFolder(user, organization, asked, name)]
      ensures rows[id].visibility.Shared? <==> asked.Shared? && organization != "" && organization != user
      ensures Sound(rows)
      ensures old(Anchored(rows)) ==> Anchored(rows)
    {
      var folder := NewFolder(user, organization, asked, name);
      CreateKeepsSound(rows, id, folder);
      rows := rows[id := folder];
    }

    /**
     The move handler.  A null or empty target makes the folder a root; nameTaken is the answer
     of the sibling-name query.
     */
    method MoveFolder(id: Id, target: Option<Id>, user: Id, members: set<(Id, Id)>, nameTaken: bool)
        returns (moved: bool)
      requires Sound(rows)
      modifies this`rows
      ensures moved <==> old(CanRead(id, user, members)) && !nameTaken
                         && (target.Some? && target.value != "" ==>
                              && old(CanRead(target.value, user, members))
                              && MoveAllowed(old(rows), id, target.value))
      ensures !moved ==> rows == old(rows)
      ensures moved ==> rows.Keys == old(rows).Keys && rows[id] == old(rows)[id].(parent := target)
      ensures forall x :: x in old(rows) && x != id ==> x in rows && rows[x] == old(rows)[x]
      ensures Sound(rows)
      ensures old(Anchored(rows)) ==> Anchored(rows)
    {
      if !CanRead(id, user, members) {
        return false;
      }
      var folder := rows[id];
      if target.Some? && target.value != "" {
        if !CanRead(target.value, user, members) {
          return false;
        }
        var parent := rows[target.value];
        ScopeCheckIsSameScope(rows, id, target.value, user, members);
        if parent.visibility != folder.visibility
           || (parent.visibility.Shared? && parent.organization != folder.organization) {
          return false;
        }
        NeverBelowItself(rows, id);
        var descendants := DescendantFolders(id, folder);
        DescendantsAreScoped(rows, id, target.value);
        if target.value == id || target.value in descendants {
          return false;
        }
      }
      if nameTaken {
        return false;
      }
      MoveKeepsSound(rows, id, target);
      rows := rows[id := folder.(parent := target)];
      moved := true;
    }

    /** delete_chats_by_user_id_and_folder_id, for each of these folders. */
    method DeleteChatsIn(ids: seq<Id>, user: Id)
      modifies this`chats
      ensures chats == ChatsAfterDelete(old(chats), Elements(ids), user, true)
      ensures ChatsLeft(old(chats), chats, Elements(ids), user, true)
    {
      var i := 0;
      while i < |ids|
        invariant 0 <= i <= |ids|
        invariant chats == ChatsAfterDelete(old(chats), Elements(ids[..i]), user, true)
      {
        chats := map c | c in chats && !(chats[c].user == user && chats[c].folder == Some(ids[i])) :: chats[c];
        assert ids[..i + 1] == ids[..i] + [ids[i]];
        i := i + 1;
      }
      assert ids[..i] == ids;
      ChatsAfterDeleteExactly(old(chats), Elements(ids), user, true);
    }

    /** clear_chat_folder_ids. */
    method UnfileChatsIn(ids: seq<Id>)
      modifies this`chats
      ensures chats == Unfiled(old(chats), Elements(ids))
      ensures chats.Keys == old(chats).Keys
      ensures forall c :: c in chats ==>
        chats[c] == if FiledAmong(old(chats)[c], Elements(ids)) then old(chats)[c].(folder := None) else old(chats)[c]
    {
      chats := map c | c in chats ::
        if chats[c].folder.Some? && chats[c].folder.value in ids then chats[c].(folder := None) else chats[c];
    }

    /** The folder and everything below it, as delete_folder_by_id_and_user_id collects them. */
    method SubtreeIds(id: Id) returns (ids: seq<Id>)
      requires Sound(rows) && id in rows
      ensures Elements(ids) == Subtree(rows, id)
    {
      NeverBelowItself(rows, id);
      var descendants := DescendantFolders(id, rows[id]);
      ids := [id] + descendants;
      forall x ensures x in Elements(ids) <==> x in Subtree(rows, id) {
        DescendantsAreScoped(rows, id, x);
        BelowStep(Links(rows), x, id);
      }
    }

    /**
     delete_folder_by_id_and_user_id.  Chats of a private folder are deleted when they are the
     caller's; chats of a shared folder are put back in the list.  A tidy desk stays tidy when the
     caller owns the folder or it is shared.
     */
    method DeleteFolder(id: Id, user: Id, deleteChats: bool) returns (done: bool)
      requires Sound(rows)
      modifies this
      ensures done <==> id in old(rows)
      ensures !done ==> Value() == old(Value())
      ensures done ==> SubtreeGone(old(rows), rows, id)
      ensures done ==> ChatsLeft(old(chats), chats, Subtree(old(rows), id), user,
                                 deleteChats && old(rows)[id].visibility.Private?)
      ensures Sound(rows)
      ensures done && old(Tidy(Value()) && Accepted(Value(), DeleteTree(id, user, deleteChats))) ==> Tidy(Value())
    {
      if id !in rows {
        return false;
      }
      DeletedDesk(Value(), id, user, deleteChats);
      var removeChats := deleteChats && !rows[id].visibility.Shared?;
      var ids := SubtreeIds(id);
      if removeChats {
        DeleteChatsIn(ids, user);
      } else {
        UnfileChatsIn(ids);
      }
      rows := map x | x in rows && x !in ids :: rows[x];
      assert rows == WithoutSubtree(old(rows), id);
      done := true;
    }

    /**
     The filing handler.  The user must be allowed to write the chat, mayWrite being the answer of
     require_chat_write, and the folder must be readable and take the chat.  A null or empty folder takes the chat out of its folder.
     */
    method FileChat(chat: Id, folder: Option<Id>, user: Id, members: set<(Id, Id)>, mayWrite: bool) returns (filed: bool)
      modifies this`chats
      ensures filed <==>
        && chat in old(chats) && mayWrite
        && (folder.Some? && folder.value != "" ==>
             CanRead(folder.value, user, members) && SameSection(rows[folder.value], old(chats)[chat]))
      ensures chats == if filed then old(chats)[chat := old(chats)[chat].(folder := folder)] else old(chats)
      ensures old(Tidy(Value())) ==> Tidy(Value())
    {
      if chat !in chats || !mayWrite {
        return false;
      }
      if folder.Some? && folder.value != "" {
        if !CanRead(folder.value, user, members) {
          return false;
        }
        if FolderChatError(Some(rows[folder.value]), chats[chat]).Some? {
          return false;
        }
      }
      chats := chats[chat := chats[chat].(folder := folder)];
      filed := true;
    }

    /** Deleting an organization deletes its folders and its chats, whoever owns them, and no others. */
    method DeleteOrganization(organization: Id)
      modifies this
      ensures old(Sound(rows)) ==> Sound(rows)
      ensures old(Sound(rows) && Tidy(Value())) ==>
        (Tidy(Value()) <==> old(Clear(Value(), DropOrganization(organization))))
      ensures forall x :: x in rows <==> x in old(rows) && old(rows)[x].organization != organization
      ensures forall x :: x in rows ==> rows[x] == old(rows)[x]
      ensures forall k :: k in chats <==> k in old(chats) && old(chats)[k].organization != organization
      ensures forall k :: k in chats ==> chats[k] == old(chats)[k]
    {
      DroppedDesk(Value(), organization);
      var gone := set k | k in chats && chats[k].organization == organization;
      chats := map k | k in chats && k !in gone :: chats[k];
      rows := map x | x in rows && rows[x].organization != organization :: rows[x];
    }
  }
}
