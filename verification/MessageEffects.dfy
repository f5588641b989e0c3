/**
 What each edit of the message tree does to every key of every message, said without the edits'
 own functions: a key the caller names has the caller's value, and everything else is as it was.
 */
module MessageEffects {
  import opened Basics
  import opened Forest
  import opened Messages

  /** The value named by the patch, or the one before. */
  predicate Follows<T(==)>(after: T, named: Option<T>, before: T) {
    && (named.Some? ==> after == named.value)
    && (named.None? ==> after == before)
  }

  predicate ExtrasFollow(after: map<string, string>, named: map<string, string>, before: map<string, string>) {
    && after.Keys == before.Keys + named.Keys
    && (forall k :: k in named ==> k in after && after[k] == named[k])
    && (forall k :: k in before && k !in named ==> k in after && after[k] == before[k])
  }

  /** Every key the patch names has its value; every key it leaves out has the previous one. */
  predicate PatchedTo(before: Message, after: Message, p: Patch) {
    && Follows(after.parent, p.parent, before.parent)
    && Follows(after.children, p.children, before.children)
    && Follows(after.content, p.content, before.content)
    && Follows(after.files, p.files, before.files)
    && Follows(after.role, p.role, before.role)
    && ExtrasFollow(after.extra, p.extra, before.extra)
  }

  /** No message but x differs, and none is lost. */
  predicate OnlyAt(ms: Bag, r: Bag, x: Id) {
    && r.Keys == ms.Keys + {x}
    && forall y :: y in ms && y != x ==> r[y] == ms[y]
  }

  /** The stored message, or the blank one that stands for a missing one. */
  function StoredOrBlank(ms: Bag, x: Id): (m: Message)
    ensures x in ms ==> m == ms[x]
    ensures x !in ms ==> m.parent.None? && m.children == [] && m.content == "" && m.files == [] && m.role.None? && m.extra == map[]
  {
    if x in ms then ms[x] else BLANK
  }

  lemma UpsertStores(h: History, x: Id, p: Patch)
    ensures var r := UpsertMessage(h, x, p);
      && OnlyAt(h.messages, r.messages, x) && r.current == Some(x)
      && PatchedTo(StoredOrBlank(h.messages, x), r.messages[x], p)
  {
  }

  // ---- Streamed parts

  /** The files not yet listed go to the end, one after the other. */
  lemma {:induction false} MergeFilesInOrder(listed: seq<string>, first: seq<string>, rest: seq<string>)
    ensures MergeFiles(listed, first + rest) == MergeFiles(MergeFiles(listed, first), rest)
    decreases |first|
  {
    if first == [] {
      assert first + rest == rest;
    } else {
      assert (first + rest)[1..] == first[1..] + rest;
      MergeFilesInOrder(if first[0] in listed then listed else listed + [first[0]], first[1..], rest);
    }
  }

  lemma MergeOneFile(listed: seq<string>, file: string)
    ensures MergeFiles(listed, [file]) == if file in listed then listed else listed + [file]
  {
    assert [file][1..] == [];
  }

  /** The parts are in: files merged, other keys as the parts leave them, and nothing else touched. */
  predicate PartsIn(before: Message, after: Message, u: Updates) {
    && after.parent == before.parent && after.children == before.children
    && after.content == before.content && after.role == before.role
    && after.files == MergeFiles(before.files, u.files) && after.extra == u.onExtra(before.extra)
  }

  lemma PartsAreStored(h: History, x: Id, u: Updates)
    ensures MergeUpdates(h, x, u).Same? <==> x !in h.messages
    ensures !MergeUpdates(h, x, u).Raised?
    ensures MergeUpdates(h, x, u).Changed? ==>
      var r := MergeUpdates(h, x, u).value;
      && OnlyAt(h.messages, r.messages, x) && r.current == h.current
      && PartsIn(h.messages[x], r.messages[x], u)
  {
  }

  /** A final save: the pending parts first, if there are any, and the patch over them. */
  lemma SaveStores(h: History, x: Id, updates: Option<Updates>, p: Patch) returns (between: Message)
    ensures updates.Some? ==> PartsIn(StoredOrBlank(h.messages, x), between, updates.value)
    ensures updates.None? ==> between == StoredOrBlank(h.messages, x)
    ensures var r := SaveReply(h, x, updates, p);
      && OnlyAt(h.messages, r.messages, x) && r.current == Some(x)
      && PatchedTo(between, r.messages[x], p)
  {
    var stored := StoredOrBlank(h.messages, x);
    between := if updates.Some? then ApplyUpdates(stored, updates.value) else stored;
  }

  lemma TextIsAppended(h: History, x: Id, text: string)
    ensures AppendContent(h, x, text).Same? <==> x !in h.messages || text == ""
    ensures !AppendContent(h, x, text).Raised?
    ensures AppendContent(h, x, text).Changed? ==>
      var r := AppendContent(h, x, text).value;
      && OnlyAt(h.messages, r.messages, x) && r.current == h.current
      && r.messages[x].content == h.messages[x].content + text
      && r.messages[x].(content := h.messages[x].content) == h.messages[x]
  {
  }

  // ---- History patches

  /** What a message is after a deletion it survives: only deleted children leave it. */
  predicate OnlyChildrenGo(before: Message, after: Message, gone: set<Id>) {
    && after.(children := before.children) == before
    && after.children == Without(before.children, gone)
  }

  /** A history patch, message by message: deleted, patched, patched after deletion, or left alone. */
  lemma PatchStores(h: History, up: map<Id, Patch>, gone: set<Id>, x: Id) returns (between: Message)
    ensures x in h.messages && x !in gone ==> OnlyChildrenGo(h.messages[x], between, gone)
    ensures x !in h.messages || x in gone ==> between == BLANK
    ensures var r := HistoryPatch(h, up, gone).messages;
      && (x in r <==> (x in h.messages && x !in gone) || x in up)
      && (x in r && x in up ==> PatchedTo(between, r[x], up[x]))
      && (x in r && x !in up ==> r[x] == between)
  {
    between := StoredOrBlank(Deleted(h, gone).messages, x);
  }
}
