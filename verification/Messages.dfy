/**
 The message tree a chat stores, and what each writer of backend/open_webui/models/chats.py
 turns it into.  Functions here say what an edit yields; HistoryEdits.dfy makes the same edits step
 by step, and MessageForest.dfy proves what they keep.
 */
module Messages {
  import opened Basics
  import opened Forest

  /** One stored message.  A missing key reads as None, as [] or as the empty string. */
  datatype Message = Message(
    parent: Option<Id>,
    children: seq<Id>,
    content: string,
    files: seq<string>,
    role: Option<string>,
    extra: map<string, string>)

  const BLANK := Message(None, [], "", [], None, map[])

  /** Keys to overlay on a stored message: Python's {**stored, **patch}. */
  datatype Patch = Patch(
    parent: Option<Option<Id>>,
    children: Option<seq<Id>>,
    content: Option<string>,
    files: Option<seq<string>>,
    role: Option<Option<string>>,
    extra: map<string, string>)

  function Overlay(m: Message, p: Patch): Message {
    Message(Or(p.parent, m.parent), Or(p.children, m.children), Or(p.content, m.content),
            Or(p.files, m.files), Or(p.role, m.role), m.extra + p.extra)
  }

  /** A batch of streamed reply parts: files to append, and what it does to the other keys. */
  datatype Updates = Updates(files: seq<string>, onExtra: map<string, string> -> map<string, string>)

  /** Append the files not already listed. */
  function MergeFiles(listed: seq<string>, incoming: seq<string>): seq<string>
    decreases |incoming|
  {
    if incoming == [] then listed
    else MergeFiles(if incoming[0] in listed then listed else listed + [incoming[0]], incoming[1..])
  }

  /** The list grows at its end by the new files only, and merging the same batch again adds nothing. */
  lemma {:induction false} MergeFilesAppends(listed: seq<string>, incoming: seq<string>)
    ensures listed <= MergeFiles(listed, incoming)
    ensures forall f :: f in MergeFiles(listed, incoming) <==> f in listed || f in incoming
    ensures NoRepeats(listed) ==> NoRepeats(MergeFiles(listed, incoming))
    decreases |incoming|
  {
    if incoming != [] {
      var next := if incoming[0] in listed then listed else listed + [incoming[0]];
      MergeFilesAppends(next, incoming[1..]);
      assert incoming == [incoming[0]] + incoming[1..];
    }
  }

  lemma {:induction false} MergeFilesKnown(listed: seq<string>, incoming: seq<string>)
    requires forall f :: f in incoming ==> f in listed
    ensures MergeFiles(listed, incoming) == listed
    decreases |incoming|
  {
    if incoming != [] {
      assert forall f :: f in incoming[1..] ==> f in incoming;
      MergeFilesKnown(listed, incoming[1..]);
    }
  }

  lemma MergeFilesTwice(listed: seq<string>, incoming: seq<string>)
    ensures MergeFiles(MergeFiles(listed, incoming), incoming) == MergeFiles(listed, incoming)
  {
    MergeFilesAppends(listed, incoming);
    MergeFilesKnown(MergeFiles(listed, incoming), incoming);
  }

  function ApplyUpdates(m: Message, u: Updates): Message {
    m.(files := MergeFiles(m.files, u.files), extra := u.onExtra(m.extra))
  }

  type Bag = map<Id, Message>

  datatype History = History(messages: Bag, current: Option<Id>)

  /** What an apply closure hands back: it raised, it changed nothing, or a new value to store. */
  datatype Applied<T> = Raised | Same | Changed(value: T)

  function ParentsOf(ms: Bag): Parents {
    map x | x in ms :: ms[x].parent
  }

  // ---- append_turn

  /** The user and assistant messages of one turn, with the ids the client minted. */
  datatype Turn = Turn(userId: Option<Id>, user: Message, assistantId: Option<Id>, assistant: Message)

  function WithChild(m: Message, c: Id): Message {
    if c in m.children then m else m.(children := m.children + [c])
  }

  function WithOptionalChild(m: Message, c: Option<Id>): Message {
    if c.Some? then WithChild(m, c.value) else m
  }

  function WithRole(m: Message, role: string): Message {
    if m.role.None? then m.(role := Some(role)) else m
  }

  predicate ParentMissing(ms: Bag, t: Turn) {
    t.user.parent.Some? && t.user.parent.value !in ms
  }

  /** An existing user message takes the incoming text, files and reply. */
  function EditedUser(stored: Message, t: Turn): Message {
    var withText := if t.user.content != "" then stored.(content := t.user.content) else stored;
    var withFiles := if t.user.files != [] then withText.(files := t.user.files) else withText;
    WithOptionalChild(withFiles, t.assistantId)
  }

  predicate UserEdited(stored: Message, t: Turn) {
    || (t.user.content != "" && t.user.content != stored.content)
    || t.user.files != []
    || (t.assistantId.Some? && t.assistantId.value !in stored.children)
  }

  /** The messages once the user's half of the turn is in. */
  function UserStored(ms: Bag, t: Turn): Bag
    requires !ParentMissing(ms, t)
  {
    match t.userId
    case None => ms
    case Some(u) =>
      if u in ms then ms[u := EditedUser(ms[u], t)]
      else
        var added := ms[u := WithRole(WithOptionalChild(t.user, t.assistantId), "user")];
        if t.user.parent.Some? then added[t.user.parent.value := WithChild(ms[t.user.parent.value], u)]
        else added
  }

  predicate UserChanges(ms: Bag, t: Turn) {
    t.userId.Some? && (t.userId.value in ms ==> UserEdited(ms[t.userId.value], t))
  }

  predicate AddsReply(ms: Bag, t: Turn) {
    t.assistantId.Some? && t.assistantId.value !in ms && t.userId != t.assistantId
  }

  function ReplyStored(ms: Bag, t: Turn): Bag {
    if t.assistantId.Some? && t.assistantId.value !in ms then
      ms[t.assistantId.value := WithRole(t.assistant, "assistant").(parent := t.userId)]
    else ms
  }

  predicate MovesCurrent(h: History, t: Turn) {
    t.assistantId.Some? && h.current != t.assistantId
  }

  function TurnResult(h: History, t: Turn): History
    requires !ParentMissing(h.messages, t)
  {
    History(ReplyStored(UserStored(h.messages, t), t),
            if t.assistantId.Some? then t.assistantId else h.current)
  }

  function AppendTurn(h: History, t: Turn): Applied<History> {
    if ParentMissing(h.messages, t) then Raised
    else if UserChanges(h.messages, t) || AddsReply(h.messages, t) || MovesCurrent(h, t)
      then Changed(TurnResult(h, t))
    else Same
  }

  // ---- apply_history_patch

  /** The list without the members of gone, in the same order. */
  function Without(s: seq<Id>, gone: set<Id>): (r: seq<Id>)
    ensures forall x :: x in r <==> x in s && x !in gone
  {
    if s == [] then []
    else (if s[0] in gone then [] else [s[0]]) + Without(s[1..], gone)
  }

  /** Filtering goes piece by piece, so what is kept stays in order and as often as it was. */
  lemma {:induction false} WithoutInOrder(a: seq<Id>, b: seq<Id>, gone: set<Id>)
    ensures Without(a + b, gone) == Without(a, gone) + Without(b, gone)
    decreases |a|
  {
    if a == [] {
      assert a + b == b;
    } else {
      var first := if a[0] in gone then [] else [a[0]];
      assert (a + b)[1..] == a[1..] + b;
      WithoutInOrder(a[1..], b, gone);
      assert first + (Without(a[1..], gone) + Without(b, gone)) == (first + Without(a[1..], gone)) + Without(b, gone);
    }
  }

  lemma {:induction false} WithoutNone(s: seq<Id>, gone: set<Id>)
    requires forall x :: x in s ==> x !in gone
    ensures Without(s, gone) == s
    decreases |s|
  {
    if s != [] {
      WithoutNone(s[1..], gone);
    }
  }

  function Pruned(ms: Bag, gone: set<Id>): Bag {
    map x | x in ms && x !in gone :: ms[x].(children := Without(ms[x].children, gone))
  }

  /** The parent link a deletion remembers: null for an id that was not stored. */
  function RememberedParent(ms: Bag, x: Id): Option<Id> {
    if x in ms then ms[x].parent else None
  }

  /** Climb past deleted messages.  An id met twice ends the climb. */
  function Climb(ms: Bag, gone: set<Id>, cursor: Option<Id>, seen: set<Id>): Option<Id>
    decreases gone - seen
  {
    if cursor.Some? && cursor.value in gone && cursor.value !in seen
    then Climb(ms, gone, RememberedParent(ms, cursor.value), seen + {cursor.value})
    else cursor
  }

  function CurrentAfterDelete(h: History, gone: set<Id>): Option<Id> {
    if h.current.Some? && h.current.value in gone then
      var cursor := Climb(h.messages, gone, h.current, {});
      if cursor.Some? && cursor.value in Pruned(h.messages, gone) then cursor else None
    else h.current
  }

  function Deleted(h: History, gone: set<Id>): History {
    History(Pruned(h.messages, gone), CurrentAfterDelete(h, gone))
  }

  function Patched(ms: Bag, x: Id, p: Patch): Message {
    Overlay(if x in ms then ms[x] else BLANK, p)
  }

  function Upserted(ms: Bag, up: map<Id, Patch>): Bag {
    map x | x in ms.Keys + up.Keys :: if x in up then Patched(ms, x, up[x]) else ms[x]
  }

  function HistoryPatch(h: History, up: map<Id, Patch>, gone: set<Id>): History {
    var d := Deleted(h, gone);
    d.(messages := Upserted(d.messages, up))
  }

  // ---- the writers of single messages

  function UpsertMessage(h: History, x: Id, p: Patch): History {
    History(h.messages[x := Patched(h.messages, x, p)], Some(x))
  }

  function AppendContent(h: History, x: Id, text: string): Applied<History> {
    if x !in h.messages || text == "" then Same
    else Changed(h.(messages := h.messages[x := h.messages[x].(content := h.messages[x].content + text)]))
  }

  /** The final save of a reply: pending parts first, then the patch. */
  function SaveReply(h: History, x: Id, updates: Option<Updates>, p: Patch): History {
    var base := if x in h.messages then h.messages[x] else BLANK;
    var merged := if updates.Some? then ApplyUpdates(base, updates.value) else base;
    History(h.messages[x := Overlay(merged, p)], Some(x))
  }

  function MergeUpdates(h: History, x: Id, u: Updates): Applied<History> {
    if x !in h.messages then Same
    else Changed(h.(messages := h.messages[x := ApplyUpdates(h.messages[x], u)]))
  }
}
