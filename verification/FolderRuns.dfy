/**
 Folders and the chats filed in them over whole runs: the handlers of
 backend/open_webui/routers/folders.py and routers/chats.py, and the deletion of organizations and
 users.  The folder handlers contain no await, so each is one step.
 */
module FolderRuns {
  import opened Basics
  import opened Forest
  import opened Folders

  // ---- Filing chats

  /** A private folder takes its owner's private chats, a shared one the shared chats of its organization. */
  predicate SameSection(f: Folder, c: FiledChat) {
    && f.visibility == c.visibility
    && (if f.visibility.Shared? then f.organization == c.organization else f.user == c.user)
  }

  datatype FilingError = FolderNotFound | ChatNotShared | ChatIsShared | OtherOrganization | OtherUser

  /** folder_chat_error: no error just when the folder takes the chat. */
  function FolderChatError(folder: Option<Folder>, chat: FiledChat): (e: Option<FilingError>)
    ensures e.None? <==> folder.Some? && SameSection(folder.value, chat)
  {
    if folder.None? then Some(FolderNotFound)
    else
      var f := folder.value;
      if f.visibility != chat.visibility then Some(if f.visibility.Shared? then ChatNotShared else ChatIsShared)
      else if f.visibility.Shared? then (if f.organization != chat.organization then Some(OtherOrganization) else None)
      else if f.user != chat.user then Some(OtherUser) else None
  }

  /** The chat is in no folder, or in a stored one that takes it. */
  predicate FiledRight(rows: Rows, chat: FiledChat) {
    chat.folder.Some? && chat.folder.value != "" ==>
      chat.folder.value in rows && SameSection(rows[chat.folder.value], chat)
  }

  ghost predicate Placed(rows: Rows, chats: Chats) {
    forall k :: k in chats ==> FiledRight(rows, chats[k])
  }

  // ---- Deleting an organization or a user

  function WithoutOrganization(rows: Rows, organization: Id): Rows {
    map x | x in rows && rows[x].organization != organization :: rows[x]
  }

  function ChatsOutside(chats: Chats, organization: Id): Chats {
    map k | k in chats && chats[k].organization != organization :: chats[k]
  }

  predicate IsPrivateOf(user: Id, owner: Id, visibility: Visibility) {
    owner == user && visibility.Private?
  }

  /** The private folders of a deleted user go, and so do the private chats. */
  function WithoutPrivateOf(rows: Rows, user: Id): Rows {
    map x | x in rows && !IsPrivateOf(user, rows[x].user, rows[x].visibility) :: rows[x]
  }

  function ChatsNotPrivateOf(chats: Chats, user: Id): Chats {
    map k | k in chats && !IsPrivateOf(user, chats[k].user, chats[k].visibility) :: chats[k]
  }

  predicate HasParentIn(rows: Rows, x: Id, organization: Id)
    requires x in rows
  {
    && rows[x].parent.Some? && rows[x].parent.value in rows
    && rows[rows[x].parent.value].organization == organization
  }

  predicate FiledIn(rows: Rows, chat: FiledChat, organization: Id) {
    chat.folder.Some? && chat.folder.value in rows && rows[chat.folder.value].organization == organization
  }

  lemma WithoutOrganizationSound(rows: Rows, organization: Id)
    requires Sound(rows)
    ensures Sound(WithoutOrganization(rows, organization))
  {
    AcyclicWeaker(Links(WithoutOrganization(rows, organization)), Links(rows));
  }

  lemma WithoutPrivateSound(rows: Rows, user: Id)
    requires Sound(rows)
    ensures Sound(WithoutPrivateOf(rows, user))
  {
    AcyclicWeaker(Links(WithoutPrivateOf(rows, user)), Links(rows));
  }

  /**
   Private folders of one user may be nested across organizations, because the move handler
   compares no organization for them.  Deleting an organization therefore leaves folders with a
   missing parent exactly when some folder of another organization sits under one of its own.
   */
  lemma DeleteOrganizationAnchored(rows: Rows, organization: Id)
    requires Sound(rows) && Anchored(rows)
    ensures Anchored(WithoutOrganization(rows, organization)) <==>
      forall x :: x in rows && HasParentIn(rows, x, organization) ==> rows[x].organization == organization
  {
    var left := WithoutOrganization(rows, organization);
    if x :| x in rows && HasParentIn(rows, x, organization) && rows[x].organization != organization {
      assert x in left && left[x].parent.value !in left;
    }
  }

  /** Private chats may be filed across organizations too, for the same reason. */
  lemma DeleteOrganizationPlaced(rows: Rows, chats: Chats, organization: Id)
    requires Sound(rows) && Placed(rows, chats)
    ensures Placed(WithoutOrganization(rows, organization), ChatsOutside(chats, organization)) <==>
      forall k :: k in chats && FiledIn(rows, chats[k], organization) ==> chats[k].organization == organization
  {
    var left := ChatsOutside(chats, organization);
    if k :| k in chats && FiledIn(rows, chats[k], organization) && chats[k].organization != organization {
      assert k in left && !FiledRight(WithoutOrganization(rows, organization), left[k]);
    }
  }

  /** Deleting a user's private folders takes every folder below them along. */
  lemma DeletePrivateAnchored(rows: Rows, user: Id)
    requires Sound(rows) && Anchored(rows)
    ensures Anchored(WithoutPrivateOf(rows, user))
  {
  }

  /** And every chat filed in them. */
  lemma DeletePrivatePlaced(rows: Rows, chats: Chats, user: Id)
    requires Placed(rows, chats)
    ensures Placed(WithoutPrivateOf(rows, user), ChatsNotPrivateOf(chats, user))
  {
    var left := ChatsNotPrivateOf(chats, user);
    forall k | k in left ensures FiledRight(WithoutPrivateOf(rows, user), left[k]) {
      assert FiledRight(rows, chats[k]);
    }
  }

  /** delete_user_by_id: the personal organization goes first, then the private resources. */
  function RowsWithoutUser(rows: Rows, user: Id): Rows {
    WithoutPrivateOf(WithoutOrganization(rows, user), user)
  }

  function ChatsWithoutUser(chats: Chats, user: Id): Chats {
    ChatsNotPrivateOf(ChatsOutside(chats, user), user)
  }

  /** Exactly the folders and chats of the personal organization and the user's private ones go; the rest stays as it is. */
  lemma DeletedUserLosesExactly(rows: Rows, chats: Chats, user: Id)
    ensures var left := RowsWithoutUser(rows, user);
      && (forall x :: x in left <==>
           x in rows && rows[x].organization != user && (rows[x].user != user || rows[x].visibility.Shared?))
      && (forall x :: x in left ==> left[x] == rows[x])
    ensures var left := ChatsWithoutUser(chats, user);
      && (forall k :: k in left <==>
           k in chats && chats[k].organization != user && (chats[k].user != user || chats[k].visibility.Shared?))
      && (forall k :: k in left ==> left[k] == chats[k])
  {
  }

  /** Of the folders in a personal organization only those of somebody else can matter to what is left. */
  lemma DeleteUserAnchored(rows: Rows, user: Id)
    requires Sound(rows) && Anchored(rows)
    ensures Anchored(RowsWithoutUser(rows, user)) <==>
      forall x :: x in rows && HasParentIn(rows, x, user) ==>
        rows[x].organization == user || IsPrivateOf(user, rows[x].user, rows[x].visibility)
  {
    var left := RowsWithoutUser(rows, user);
    if x :| x in rows && HasParentIn(rows, x, user) && rows[x].organization != user
            && !IsPrivateOf(user, rows[x].user, rows[x].visibility) {
      assert x in left && left[x].parent.value !in left;
    }
  }

  lemma DeleteUserPlaced(rows: Rows, chats: Chats, user: Id)
    requires Sound(rows) && Placed(rows, chats)
    ensures Placed(RowsWithoutUser(rows, user), ChatsWithoutUser(chats, user)) <==>
      forall k :: k in chats && FiledIn(rows, chats[k], user) ==>
        chats[k].organization == user || IsPrivateOf(user, chats[k].user, chats[k].visibility)
  {
    var left := ChatsWithoutUser(chats, user);
    if k :| k in chats && FiledIn(rows, chats[k], user) && chats[k].organization != user
            && !IsPrivateOf(user, chats[k].user, chats[k].visibility) {
      assert k in left && !FiledRight(RowsWithoutUser(rows, user), left[k]);
    }
    forall k | k in left && !FiledIn(rows, chats[k], user) ensures FiledRight(RowsWithoutUser(rows, user), left[k]) {
      assert FiledRight(rows, chats[k]);
    }
  }

  // ---- Every reachable desk

  /** The folders and the chats together. */
  datatype Desk = Desk(rows: Rows, chats: Chats)

  /** No folder under a missing one, and every chat in no folder or in one that takes it. */
  ghost predicate Tidy(d: Desk) {
    Anchored(d.rows) && Placed(d.rows, d.chats)
  }

  /** One change the handlers make. */
  datatype Change =
    | Create(id: Id, folder: Folder)
    | Move(id: Id, target: Option<Id>)
    | DeleteTree(id: Id, user: Id, deleteChats: bool)
    | NewChat(chat: Id, filed: FiledChat)
    | FileChat(chat: Id, into: Option<Id>)
    | ShareChat(chat: Id, visibility: Visibility)
    | RemoveChat(chat: Id)
    | DropOrganization(organization: Id)
    | DropUser(user: Id, hasPersonal: bool)

  /** What the handlers check themselves, in the step that makes the change. */
  ghost predicate Accepted(d: Desk, c: Change) {
    match c
    case Create(id, folder) => id != "" && Unused(d.rows, id) && folder.parent == None
    case Move(id, target) => id in d.rows && (target.Some? && target.value != "" ==> MoveAllowed(d.rows, id, target.value))
    case DeleteTree(id, user, _) => id in d.rows && (d.rows[id].visibility.Private? ==> d.rows[id].user == user)
    case NewChat(k, _) => k !in d.chats
    case FileChat(k, _) => k in d.chats
    case ShareChat(k, _) => k in d.chats
    case RemoveChat(k) => k in d.chats
    case DropOrganization(_) => true
    case DropUser(_, _) => true
  }

  ghost function Changed(d: Desk, c: Change): Desk
    requires Accepted(d, c)
  {
    match c
    case Create(id, folder) => d.(rows := d.rows[id := folder])
    case Move(id, target) => d.(rows := Moved(d.rows, id, target))
    case DeleteTree(id, user, deleteChats) =>
      Desk(WithoutSubtree(d.rows, id),
           ChatsAfterDelete(d.chats, Subtree(d.rows, id), user, deleteChats && d.rows[id].visibility.Private?))
    case NewChat(k, filed) => d.(chats := d.chats[k := filed])
    case FileChat(k, folder) => d.(chats := d.chats[k := d.chats[k].(folder := folder)])
    case ShareChat(k, visibility) => d.(chats := d.chats[k := d.chats[k].(visibility := visibility, folder := None)])
    case RemoveChat(k) => d.(chats := d.chats - {k})
    case DropOrganization(o) => Desk(WithoutOrganization(d.rows, o), ChatsOutside(d.chats, o))
    case DropUser(u, hasPersonal) =>
      if hasPersonal then Desk(RowsWithoutUser(d.rows, u), ChatsWithoutUser(d.chats, u))
      else Desk(WithoutPrivateOf(d.rows, u), ChatsNotPrivateOf(d.chats, u))
  }

  /**
   What a change needs beyond that to leave the desk tidy.  An imported chat names any folder it
   likes.  The filing handler checks the folder, waits, and stores, so its check must still hold
   when it stores.  A deleted organization must hold no parent, and no filed chat, of another one.
   */
  ghost predicate Clear(d: Desk, c: Change)
    requires Accepted(d, c)
  {
    match c
    case NewChat(_, filed) => FiledRight(d.rows, filed)
    case FileChat(k, folder) => FiledRight(d.rows, d.chats[k].(folder := folder))
    case DropOrganization(o) =>
      && (forall x :: x in d.rows && HasParentIn(d.rows, x, o) ==> d.rows[x].organization == o)
      && (forall k :: k in d.chats && FiledIn(d.rows, d.chats[k], o) ==> d.chats[k].organization == o)
    case DropUser(u, hasPersonal) => hasPersonal ==>
      && (forall x :: x in d.rows && HasParentIn(d.rows, x, u) ==>
           d.rows[x].organization == u || IsPrivateOf(u, d.rows[x].user, d.rows[x].visibility))
      && (forall k :: k in d.chats && FiledIn(d.rows, d.chats[k], u) ==>
           d.chats[k].organization == u || IsPrivateOf(u, d.chats[k].user, d.chats[k].visibility))
    case _ => true
  }

  /** A change to one chat touches no folder and no other chat; a chat that is shared or made private is filed nowhere. */
  lemma ChatChangeTouchesOnly(d: Desk, c: Change)
    requires Accepted(d, c) && (c.NewChat? || c.FileChat? || c.ShareChat? || c.RemoveChat?)
    ensures var e := Changed(d, c);
      && e.rows == d.rows
      && (forall k :: k in d.chats && k != c.chat ==> k in e.chats && e.chats[k] == d.chats[k])
      && e.chats.Keys == (if c.RemoveChat? then d.chats.Keys - {c.chat} else d.chats.Keys + {c.chat})
      && (c.ShareChat? ==>
           && e.chats[c.chat].visibility == c.visibility && e.chats[c.chat].folder == None
           && e.chats[c.chat].user == d.chats[c.chat].user && e.chats[c.chat].organization == d.chats[c.chat].organization)
      && (c.FileChat? ==>
           e.chats[c.chat].folder == c.into && e.chats[c.chat].(folder := d.chats[c.chat].folder) == d.chats[c.chat])
  {
  }

  lemma ChangeKeepsSound(d: Desk, c: Change)
    requires Sound(d.rows) && Accepted(d, c)
    ensures Sound(Changed(d, c).rows)
  {
    match c
    case Create(id, folder) => CreateKeepsSound(d.rows, id, folder);
    case Move(id, target) => MoveKeepsSound(d.rows, id, target);
    case DeleteTree(id, _, _) => DeleteKeepsSound(d.rows, id);
    case DropOrganization(o) => WithoutOrganizationSound(d.rows, o);
    case DropUser(u, hasPersonal) =>
      WithoutPrivateSound(d.rows, u);
      WithoutOrganizationSound(d.rows, u);
      WithoutPrivateSound(WithoutOrganization(d.rows, u), u);
    case _ =>
  }

  /** Deleting a private folder as its owner, or any shared one, leaves every other chat where it was. */
  lemma DeleteTreeStaysTidy(d: Desk, c: Change)
    requires Sound(d.rows) && Tidy(d) && Accepted(d, c) && c.DeleteTree?
    ensures Tidy(Changed(d, c))
  {
    var gone := Subtree(d.rows, c.id);
    var e := Changed(d, c);
    DeleteKeepsSound(d.rows, c.id);
    forall k | k in e.chats ensures FiledRight(e.rows, e.chats[k]) {
      assert FiledRight(d.rows, d.chats[k]);
      if d.chats[k].folder.Some? && d.chats[k].folder.value in gone {
        SubtreeInScope(d.rows, c.id, d.chats[k].folder.value);
      }
    }
  }

  lemma SubtreeInScope(rows: Rows, id: Id, x: Id)
    requires Sound(rows) && id in rows && x in Subtree(rows, id)
    ensures SameScope(rows[id], rows[x])
  {
    if x != id {
      var n: nat :| n > 0 && Up(Links(rows), x, n) == Some(id);
      ScopeHoldsDescendants(rows, id, x, n);
    }
  }

  lemma RowChangeStaysTidy(d: Desk, c: Change)
    requires Sound(d.rows) && Tidy(d) && Accepted(d, c) && (c.Create? || c.Move?)
    ensures Tidy(Changed(d, c))
  {
    match c
    case Create(id, folder) => CreateKeepsSound(d.rows, id, folder);
    case Move(id, target) => MoveKeepsSound(d.rows, id, target);
    forall k | k in d.chats ensures FiledRight(Changed(d, c).rows, d.chats[k]) {
      assert FiledRight(d.rows, d.chats[k]);
    }
  }

  lemma ChatChangeStaysTidyExactly(d: Desk, c: Change)
    requires Tidy(d) && Accepted(d, c) && (c.NewChat? || c.FileChat? || c.ShareChat? || c.RemoveChat?)
    ensures Tidy(Changed(d, c)) <==> Clear(d, c)
  {
    var e := Changed(d, c);
    if c.NewChat? || c.FileChat? {
      assert FiledRight(e.rows, e.chats[c.chat]) <==> Clear(d, c);
    }
  }

  /** Of the accepted changes, exactly the clear ones leave a tidy desk tidy. */
  lemma ChangeStaysTidyExactly(d: Desk, c: Change)
    requires Sound(d.rows) && Tidy(d) && Accepted(d, c)
    ensures Tidy(Changed(d, c)) <==> Clear(d, c)
  {
    match c
    case Create(_, _) => RowChangeStaysTidy(d, c);
    case Move(_, _) => RowChangeStaysTidy(d, c);
    case DeleteTree(_, _, _) => DeleteTreeStaysTidy(d, c);
    case DropOrganization(o) =>
      DeleteOrganizationAnchored(d.rows, o);
      DeleteOrganizationPlaced(d.rows, d.chats, o);
    case DropUser(u, hasPersonal) =>
      if hasPersonal {
        DeleteUserAnchored(d.rows, u);
        DeleteUserPlaced(d.rows, d.chats, u);
      } else {
        DeletePrivateAnchored(d.rows, u);
        DeletePrivatePlaced(d.rows, d.chats, u);
      }
    case _ => ChatChangeStaysTidyExactly(d, c);
  }

  ghost predicate AllAccepted(d: Desk, cs: seq<Change>)
    decreases |cs|
  {
    cs != [] ==> Accepted(d, cs[0]) && AllAccepted(Changed(d, cs[0]), cs[1..])
  }

  ghost function AfterAll(d: Desk, cs: seq<Change>): Desk
    requires AllAccepted(d, cs)
    decreases |cs|
  {
    if cs == [] then d else AfterAll(Changed(d, cs[0]), cs[1..])
  }

  ghost predicate AllClear(d: Desk, cs: seq<Change>)
    requires AllAccepted(d, cs)
    decreases |cs|
  {
    cs != [] ==> Clear(d, cs[0]) && AllClear(Changed(d, cs[0]), cs[1..])
  }

  /** The desk is tidy at the start of the run and after every change. */
  ghost predicate AlwaysTidy(d: Desk, cs: seq<Change>)
    requires AllAccepted(d, cs)
    decreases |cs|
  {
    Tidy(d) && (cs != [] ==> AlwaysTidy(Changed(d, cs[0]), cs[1..]))
  }

  lemma {:induction false} ChangesKeepSound(d: Desk, cs: seq<Change>)
    requires Sound(d.rows) && AllAccepted(d, cs)
    ensures Sound(AfterAll(d, cs).rows)
    decreases |cs|
  {
    if cs != [] {
      ChangeKeepsSound(d, cs[0]);
      ChangesKeepSound(Changed(d, cs[0]), cs[1..]);
    }
  }

  /**
   Over any run of folder and chat handlers, deleted organizations and deleted users included: no
   folder ever has a missing parent and no chat is ever filed where it does not belong, exactly
   when every change is clear where it is made.
   */
  lemma {:induction false} ChangesStayTidyExactly(d: Desk, cs: seq<Change>)
    requires Sound(d.rows) && Tidy(d) && AllAccepted(d, cs)
    ensures AlwaysTidy(d, cs) <==> AllClear(d, cs)
    decreases |cs|
  {
    if cs != [] {
      var e := Changed(d, cs[0]);
      ChangeKeepsSound(d, cs[0]);
      ChangeStaysTidyExactly(d, cs[0]);
      if Tidy(e) {
        ChangesStayTidyExactly(e, cs[1..]);
      } else {
        assert !AlwaysTidy(e, cs[1..]);
      }
    }
  }

  /**
   After any run of accepted changes the table is a forest inside each scope, no folder is below
   itself, and the scoped search the move handler relies on sees every descendant.
   */
  lemma ScopedSearchSuffices(cs: seq<Change>, id: Id, x: Id)
    requires AllAccepted(Desk(map[], map[]), cs) && id in AfterAll(Desk(map[], map[]), cs).rows
    ensures var rows := AfterAll(Desk(map[], map[]), cs).rows;
      && Sound(rows)
      && !ScopedBelow(rows, rows[id], id, id)
      && (ScopedBelow(rows, rows[id], id, x) <==> Below(Links(rows), x, id))
  {
    ChangesKeepSound(Desk(map[], map[]), cs);
    NeverBelowItself(AfterAll(Desk(map[], map[]), cs).rows, id);
    DescendantsAreScoped(AfterAll(Desk(map[], map[]), cs).rows, id, x);
  }

  lemma RunStep(d: Desk, c: Change, cs: seq<Change>)
    requires Accepted(d, c) && AllAccepted(Changed(d, c), cs)
    ensures AllAccepted(d, [c] + cs) && AfterAll(d, [c] + cs) == AfterAll(Changed(d, c), cs)
  {
    assert ([c] + cs)[1..] == cs;
  }

  /** Requests of one user, each accepted, and one deleted organization, leave a folder and a chat under a folder that is gone. */
  lemma DroppedOrganizationCanOrphan() returns (cs: seq<Change>)
    ensures AllAccepted(Desk(map[], map[]), cs)
    ensures var d := AfterAll(Desk(map[], map[]), cs); !Anchored(d.rows) && !Filed(d.rows, d.chats)
  {
    var d0 := Desk(map[], map[]);
    var c1 := Create("f1", Folder(None, "ann", "north", Private, "Rain"));
    var c2 := Create("f2", Folder(None, "ann", "south", Private, "Rain 2024"));
    var c3 := NewChat("c", FiledChat("ann", "south", Private, None));
    var c4, c5, c6 := FileChat("c", Some("f1")), Move("f2", Some("f1")), DropOrganization("north");
    var d1 := Changed(d0, c1);
    var d2 := Changed(d1, c2);
    var d3 := Changed(d2, c3);
    var d4 := Changed(d3, c4);
    assert !Below(Links(d4.rows), "f1", "f2") by { BelowStep(Links(d4.rows), "f1", "f2"); }
    var d5 := Changed(d4, c5);
    var d6 := Changed(d5, c6);
    assert d6.rows["f2"].parent == Some("f1") && "f1" !in d6.rows;
    assert d6.chats["c"].folder == Some("f1");
    RunStep(d5, c6, []);
    RunStep(d4, c5, [c6] + []);
    RunStep(d3, c4, [c5] + ([c6] + []));
    RunStep(d2, c3, [c4] + ([c5] + ([c6] + [])));
    RunStep(d1, c2, [c3] + ([c4] + ([c5] + ([c6] + []))));
    RunStep(d0, c1, [c2] + ([c3] + ([c4] + ([c5] + ([c6] + [])))));
    cs := [c1] + ([c2] + ([c3] + ([c4] + ([c5] + ([c6] + [])))));
  }
}
