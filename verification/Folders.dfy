/**
 The folder table of backend/open_webui/models/folders.py: scopes, the search below a folder, and
 what creating, moving and deleting folders keep.
 */
module Folders {
  import opened Basics
  import opened Forest

  datatype Visibility = Private | Shared

  datatype Folder = Folder(
    parent: Option<Id>,
    user: Id,
    organization: Id,
    visibility: Visibility,
    name: string)

  /** What the folder operations see of a chat: whose it is, who sees it, and where it is filed. */
  datatype FiledChat = FiledChat(user: Id, organization: Id, visibility: Visibility, folder: Option<Id>)

  type Rows = map<Id, Folder>
  type Chats = map<Id, FiledChat>

  /** Same section of the sidebar: one owner's private folders, or one organization's shared ones. */
  predicate SameScope(f: Folder, g: Folder) {
    && f.visibility == g.visibility
    && (if f.visibility.Shared? then f.organization == g.organization else f.user == g.user)
  }

  function Links(rows: Rows): Parents {
    map x | x in rows :: rows[x].parent
  }

  /** The links a scoped query follows. */
  function ScopedLinks(rows: Rows, folder: Folder): Parents {
    map x | x in rows && SameScope(folder, rows[x]) :: rows[x].parent
  }

  /** Every parent link to a stored folder stays inside one scope. */
  ghost predicate Scoped(rows: Rows) {
    forall x :: x in rows && rows[x].parent.Some? && rows[x].parent.value in rows
      ==> SameScope(rows[x], rows[rows[x].parent.value])
  }

  /** No folder names a missing parent.  The empty id, which a move may store, is no parent. */
  ghost predicate Anchored(rows: Rows) {
    forall x :: x in rows && rows[x].parent.Some? ==> rows[x].parent.value in rows || rows[x].parent.value == ""
  }

  ghost predicate Sound(rows: Rows) {
    "" !in rows && Acyclic(Links(rows)) && Scoped(rows)
  }

  // ---- The worklist

  /** Every folder strictly below this one in its scope. */
  ghost predicate ScopedBelow(rows: Rows, folder: Folder, id: Id, x: Id) {
    Below(ScopedLinks(rows, folder), x, id)
  }

  /** Inside a sound table the scoped query misses no descendant. */
  lemma {:induction false} ScopeHoldsDescendants(rows: Rows, id: Id, x: Id, n: nat)
    requires Sound(rows) && id in rows && x in rows
    requires Up(Links(rows), x, n) == Some(id)
    ensures SameScope(rows[id], rows[x])
    ensures Up(ScopedLinks(rows, rows[id]), x, n) == Some(id)
    decreases n
  {
    if n > 0 {
      var p := rows[x].parent.value;
      if n == 1 {
        assert Up(Links(rows), x, 1) == Up(Links(rows), p, 0);
      } else {
        assert p in Links(rows);
      }
      ScopeHoldsDescendants(rows, id, p, n - 1);
    }
  }

  lemma DescendantsAreScoped(rows: Rows, id: Id, x: Id)
    requires Sound(rows) && id in rows
    ensures ScopedBelow(rows, rows[id], id, x) <==> Below(Links(rows), x, id)
  {
    if Below(Links(rows), x, id) {
      var n: nat :| n > 0 && Up(Links(rows), x, n) == Some(id);
      BelowStep(Links(rows), x, id);
      ScopeHoldsDescendants(rows, id, x, n);
    }
    if ScopedBelow(rows, rows[id], id, x) {
      BelowWeaker(ScopedLinks(rows, rows[id]), Links(rows), x, id);
    }
  }

  /** The found folders, with the folder itself, are closed under children: nothing below is missing. */
  lemma {:induction false} ClosedHoldsAll(p: Parents, id: Id, found: set<Id>, x: Id, n: nat)
    requires forall y :: y in p && p[y].Some? && (p[y].value == id || p[y].value in found) ==> y in found
    requires n > 0 && Up(p, x, n) == Some(id)
    ensures x in found
    decreases n
  {
    if n == 1 {
      assert Up(p, x, 1) == Up(p, p[x].value, 0);
    } else {
      ClosedHoldsAll(p, id, found, p[x].value, n - 1);
    }
  }

  function Elements(s: seq<Id>): set<Id> {
    set x | x in s
  }

  /**
   The search between two pops: what was found lies below the folder, what waits was found, and
   the children of a found folder are found exactly when it no longer waits.
   */
  ghost predicate MidSearch(p: Parents, id: Id, found: seq<Id>, stack: seq<Id>) {
    && NoRepeats(found) && NoRepeats(stack)
    && (forall x :: x in found ==> x in p && Below(p, x, id))
    && (forall x :: x in stack ==> x == id || x in found)
    && (forall x :: x in found ==> p[x].Some? && (p[x].value == id || p[x].value in found))
    && (forall x :: x in p && p[x].Some? && (p[x].value == id || p[x].value in found) ==>
          (x in found <==> p[x].value !in stack))
  }

  /** No child of the popped folder was met before, so nothing is ever pushed twice. */
  lemma ChildrenAreNew(p: Parents, id: Id, found: seq<Id>, stack: seq<Id>, parent: Id, children: seq<Id>)
    requires !Below(p, id, id) && MidSearch(p, id, found, stack + [parent])
    requires forall x :: x in children <==> x in p && p[x] == Some(parent)
    ensures (parent == id || parent in found) && parent !in stack && NoRepeats(stack)
    ensures forall x :: x in stack ==> x == id || x in found
    ensures forall x :: x in children ==> x !in found && x !in stack && x != id && Below(p, x, id)
  {
    assert (stack + [parent])[|stack|] == parent;
    forall i | 0 <= i < |stack| ensures stack[i] != parent && stack[i] in stack + [parent] {
      assert (stack + [parent])[i] == stack[i];
    }
    assert parent in stack + [parent];
    assert stack == (stack + [parent])[..|stack|];
    forall x | x in children ensures x !in found && x !in stack && x != id && Below(p, x, id) {
      BelowParent(p, x);
      if parent != id {
        BelowTrans(p, x, parent, id);
      }
    }
  }

  lemma SearchStep(p: Parents, id: Id, found: seq<Id>, stack: seq<Id>, parent: Id, children: seq<Id>)
    requires !Below(p, id, id) && MidSearch(p, id, found, stack + [parent]) && NoRepeats(children)
    requires forall x :: x in children <==> x in p && p[x] == Some(parent)
    ensures MidSearch(p, id, found + children, stack + children)
  {
    ChildrenAreNew(p, id, found, stack, parent, children);
    NoRepeatsAppend(found, children);
    NoRepeatsAppend(stack, children);
    forall x | x in p && p[x].Some? && (p[x].value == id || p[x].value in found + children)
      ensures x in found + children <==> p[x].value !in stack + children
    {
      var up := p[x].value;
      if up == parent {
        assert x in children;
      } else {
        assert up in stack + [parent] <==> up in stack;
      }
    }
  }

  lemma NoRepeatsAppend(a: seq<Id>, b: seq<Id>)
    requires NoRepeats(a) && NoRepeats(b) && forall x :: x in b ==> x !in a
    ensures NoRepeats(a + b)
  {
    forall i, j | 0 <= i < j < |a + b| ensures (a + b)[i] != (a + b)[j] {
      if i < |a| <= j {
        assert b[j - |a|] in b;
      }
    }
  }

  lemma {:induction false} NoRepeatsSize(s: seq<Id>)
    requires NoRepeats(s)
    ensures |Elements(s)| == |s|
  {
    if s != [] {
      NoRepeatsSize(s[1..]);
      assert Elements(s) == Elements(s[1..]) + {s[0]};
      assert s[0] !in s[1..];
    }
  }

  lemma FoundFits(found: seq<Id>, p: Parents)
    requires NoRepeats(found) && forall x :: x in found ==> x in p
    ensures Elements(found) <= p.Keys && |found| <= |p|
  {
    NoRepeatsSize(found);
    SubsetSize(Elements(found), p.Keys);
    assert |p.Keys| == |p|;
  }

  lemma NeverBelowItself(rows: Rows, id: Id)
    requires Sound(rows) && id in rows
    ensures !ScopedBelow(rows, rows[id], id, id)
  {
    DescendantsAreScoped(rows, id, id);
  }

  // ---- What the search needs, exactly

  /** The stack after popping its last folder and pushing that folder's children in some order. */
  ghost predicate NextStack(p: Parents, s: seq<Id>, t: seq<Id>)
    requires s != []
  {
    var k := |s| - 1;
    && |t| >= k && t[..k] == s[..k]
    && forall x :: x in t[k..] <==> x in p && p[x] == Some(s[k])
  }

  ghost predicate WorklistRun(p: Parents, id: Id, stacks: seq<seq<Id>>) {
    && stacks != [] && stacks[0] == [id]
    && forall i :: 0 <= i < |stacks| - 1 ==> stacks[i] != [] && NextStack(p, stacks[i], stacks[i + 1])
  }

  /** A member of the stack that the folder's own chain of parents meets. */
  ghost predicate MeetsChain(p: Parents, id: Id, s: seq<Id>) {
    exists n: nat :: Up(p, id, n).Some? && Up(p, id, n).value in s
  }

  /**
   On a folder below itself the search never empties its stack, so what DescendantFolders
   requires is exactly what it needs to end.
   */
  lemma {:induction false} SearchNeverEnds(p: Parents, id: Id, stacks: seq<seq<Id>>)
    requires Below(p, id, id) && WorklistRun(p, id, stacks)
    ensures MeetsChain(p, id, stacks[|stacks| - 1]) && stacks[|stacks| - 1] != []
    decreases |stacks|
  {
    if |stacks| == 1 {
      assert Up(p, id, 0).value in stacks[0];
    } else {
      var k := |stacks| - 2;
      assert stacks[..k + 1][k] == stacks[k];
      SearchNeverEnds(p, id, stacks[..k + 1]);
      assert NextStack(p, stacks[k], stacks[k + 1]);
      ChainStaysOnStack(p, id, stacks[k], stacks[k + 1]);
    }
  }

  lemma ChainStaysOnStack(p: Parents, id: Id, s: seq<Id>, t: seq<Id>)
    requires Below(p, id, id) && s != [] && NextStack(p, s, t) && MeetsChain(p, id, s)
    ensures MeetsChain(p, id, t)
  {
    var k := |s| - 1;
    var n: nat :| Up(p, id, n).Some? && Up(p, id, n).value in s;
    var y := Up(p, id, n).value;
    if y in s[..k] {
      assert y in t[..k];
    } else {
      var m: nat := n;
      if n == 0 {
        m :| m > 0 && Up(p, id, m) == Some(id);
      }
      var c := BelowLastStep(p, id, y, m);
      assert c in t[k..];
      assert Up(p, id, m - 1).value in t;
    }
  }

  // ---- Creating

  /** A folder outside any shared section is private. */
  function NewFolder(user: Id, organization: Id, asked: Visibility, name: string): Folder {
    var org := if organization == "" then user else organization;
    Folder(None, user, org, if org == user then Private else asked, name)
  }

  /** A new folder is shared exactly when that was asked for in an organization other than the user's own; without one it is the user's own. */
  lemma NewFolderSection(user: Id, organization: Id, asked: Visibility, name: string)
    ensures var f := NewFolder(user, organization, asked, name);
      && f.user == user && f.name == name && f.parent == None
      && (f.visibility.Shared? <==> asked.Shared? && organization != "" && organization != user)
      && (organization != "" ==> f.organization == organization)
      && (organization == "" ==> f.organization == user)
  {
  }

  /** An id minted now: no folder has it, and no folder names it as a parent. */
  predicate Unused(rows: Rows, id: Id) {
    id !in rows && forall x :: x in rows ==> rows[x].parent != Some(id)
  }

  lemma CreateKeepsSound(rows: Rows, id: Id, folder: Folder)
    requires Sound(rows) && Unused(rows, id) && id != "" && folder.parent == None
    ensures Sound(rows[id := folder])
    ensures Anchored(rows) ==> Anchored(rows[id := folder])
  {
    AcyclicWeaker(Links(rows[id := folder]), Links(rows));
  }

  // ---- Moving

  /** What the handler tests of the target: same section, and not the folder itself or below it. */
  ghost predicate MoveAllowed(rows: Rows, id: Id, target: Id)
  {
    && id in rows && target in rows
    && SameScope(rows[id], rows[target])
    && target != id && !Below(Links(rows), target, id)
  }

  function Moved(rows: Rows, id: Id, target: Option<Id>): Rows
    requires id in rows
  {
    rows[id := rows[id].(parent := target)]
  }

  /** Both folders readable: the handler's comparison of sections then decides the scope. */
  lemma ScopeCheckIsSameScope(rows: Rows, id: Id, target: Id, user: Id, members: set<(Id, Id)>)
    requires id in rows && target in rows
    requires rows[id].user == user || (rows[id].visibility.Shared? && (rows[id].organization, user) in members)
    requires rows[target].user == user || (rows[target].visibility.Shared? && (rows[target].organization, user) in members)
    ensures SameScope(rows[id], rows[target]) <==>
      !(rows[target].visibility != rows[id].visibility
        || (rows[target].visibility.Shared? && rows[target].organization != rows[id].organization))
  {
  }

  /** The containment test is exact: of the moves within a section, it refuses just those that close a cycle. */
  lemma MoveKeepsSoundExactly(rows: Rows, id: Id, target: Id)
    requires Sound(rows) && id in rows && target in rows && SameScope(rows[id], rows[target])
    ensures Sound(Moved(rows, id, Some(target))) <==> MoveAllowed(rows, id, target)
  {
    RelinkAcyclic(Links(rows), id, target);
    assert Links(Moved(rows, id, Some(target))) == Links(rows)[id := Some(target)];
    forall x | x in rows ensures SameScope(Moved(rows, id, Some(target))[x], rows[x]) {
    }
  }

  lemma MoveKeepsSound(rows: Rows, id: Id, target: Option<Id>)
    requires Sound(rows) && id in rows
    requires target.Some? && target.value != "" ==> MoveAllowed(rows, id, target.value)
    ensures Sound(Moved(rows, id, target))
    ensures Anchored(rows) ==> Anchored(Moved(rows, id, target))
  {
    var moved := Moved(rows, id, target);
    if target.Some? && target.value != "" {
      MoveKeepsSoundExactly(rows, id, target.value);
    } else {
      RootAcyclic(Links(rows), id, target);
      assert Links(moved) == Links(rows)[id := target];
    }
  }

  lemma RootAcyclic(p: Parents, id: Id, target: Option<Id>)
    requires Acyclic(p) && id in p && "" !in p && (target.Some? ==> target.value == "")
    ensures Acyclic(p[id := target])
  {
    if target.Some? {
      BelowStep(p, "", id);
      RelinkAcyclic(p, id, "");
    } else {
      AcyclicWeaker(p[id := target], p);
    }
  }

  // ---- Deleting a folder

  ghost function Subtree(rows: Rows, id: Id): set<Id> {
    set x | x in rows && (x == id || Below(Links(rows), x, id))
  }

  ghost function WithoutSubtree(rows: Rows, id: Id): Rows {
    rows - Subtree(rows, id)
  }

  /** The chats filed in these folders are put back in the list. */
  function Unfiled(chats: Chats, gone: set<Id>): Chats {
    map c | c in chats ::
      if chats[c].folder.Some? && chats[c].folder.value in gone then chats[c].(folder := None) else chats[c]
  }

  /** Chats filed in the deleted folders: the caller's are deleted, or all are unfiled. */
  function ChatsAfterDelete(chats: Chats, gone: set<Id>, user: Id, remove: bool): Chats {
    if remove then
      map c | c in chats && !(chats[c].user == user && chats[c].folder.Some? && chats[c].folder.value in gone) :: chats[c]
    else Unfiled(chats, gone)
  }

  predicate FiledAmong(chat: FiledChat, folders: set<Id>) {
    chat.folder.Some? && chat.folder.value in folders
  }

  /**
   Chats in no folder, or in a folder that stays, are left alone.  Of the chats in the deleted
   folders, when chats are removed, exactly the caller's go and the others stay as they are;
   otherwise all stay, in no folder and the same in every other respect.
   */
  ghost predicate ChatsLeft(before: Chats, after: Chats, gone: set<Id>, user: Id, remove: bool) {
    && after.Keys <= before.Keys
    && (forall c :: c in before && !FiledAmong(before[c], gone) ==> c in after && after[c] == before[c])
    && (remove ==> forall c :: c in before && FiledAmong(before[c], gone) ==>
         (c in after <==> before[c].user != user) && (c in after ==> after[c] == before[c]))
    && (!remove ==> forall c :: c in before && FiledAmong(before[c], gone) ==>
         c in after && after[c] == before[c].(folder := None))
  }

  lemma ChatsAfterDeleteExactly(chats: Chats, gone: set<Id>, user: Id, remove: bool)
    ensures ChatsLeft(chats, ChatsAfterDelete(chats, gone, user, remove), gone, user, remove)
  {
  }

  /** Exactly the folder and what lies below it is gone, and the rest is as it was. */
  ghost predicate SubtreeGone(before: Rows, after: Rows, id: Id) {
    && (forall x :: x in after <==> x in before && x != id && !Below(Links(before), x, id))
    && (forall x :: x in after ==> after[x] == before[x])
  }

  lemma WithoutSubtreeExactly(rows: Rows, id: Id)
    ensures SubtreeGone(rows, WithoutSubtree(rows, id), id)
  {
  }

  /** No chat is filed under a missing folder.  The empty id is no folder. */
  ghost predicate Filed(rows: Rows, chats: Chats) {
    forall c :: c in chats && chats[c].folder.Some? ==> chats[c].folder.value in rows || chats[c].folder.value == ""
  }

  /** Deleting a folder keeps the table sound and leaves no folder with a deleted parent. */
  lemma DeleteKeepsSound(rows: Rows, id: Id)
    requires Sound(rows) && id in rows
    ensures Sound(WithoutSubtree(rows, id))
    ensures Anchored(rows) ==> Anchored(WithoutSubtree(rows, id))
  {
    var left := WithoutSubtree(rows, id);
    AcyclicWeaker(Links(left), Links(rows));
    forall x | x in left && rows[x].parent.Some? ensures rows[x].parent.value !in Subtree(rows, id) {
      BelowStep(Links(rows), x, id);
    }
  }

  /**
   No surviving chat stays filed under a deleted folder: always for a shared folder, and for a
   private one exactly when every chat filed there is the caller's.  Deleting a shared folder
   deletes no chat.
   */
  lemma DeleteLeavesChatsFiled(rows: Rows, chats: Chats, id: Id, user: Id, remove: bool)
    requires Sound(rows) && id in rows && Filed(rows, chats)
    ensures var left := ChatsAfterDelete(chats, Subtree(rows, id), user, remove);
      && (Filed(WithoutSubtree(rows, id), left) <==>
           (remove ==> forall c :: c in chats && chats[c].folder.Some? && chats[c].folder.value in Subtree(rows, id)
                                   ==> chats[c].user == user))
      && (!remove ==> left.Keys == chats.Keys)
  {
    var left := ChatsAfterDelete(chats, Subtree(rows, id), user, remove);
    if remove && exists c :: c in chats && chats[c].folder.Some? && chats[c].folder.value in Subtree(rows, id) && chats[c].user != user {
      var c :| c in chats && chats[c].folder.Some? && chats[c].folder.value in Subtree(rows, id) && chats[c].user != user;
      assert c in left && left[c].folder.value !in WithoutSubtree(rows, id);
    }
  }
}
