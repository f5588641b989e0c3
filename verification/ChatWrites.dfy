/**
 One write to one chat row, as _write_locked_chat and the tag and column writers of
 backend/open_webui/models/chats.py make it: what the row read under the lock decides, and what
 is stored.  Every event of a run is one of these, or a row added or removed.
 */
module ChatWrites {
  import opened Basics
  import opened Messages
  import HistoryEdits

  /** The revision kept in the row's meta: absent, a number, or something int() rejects. */
  datatype Revision = NoRevision | Number(n: int) | Unreadable

  datatype Meta = Meta(revision: Revision, tags: set<string>)

  /** The chat column: the message tree, an optional title, and the other top-level fields. */
  datatype Document = Document(history: History, title: Option<string>, fields: map<string, string>)

  datatype Row = Row(doc: Document, title: string, meta: Meta)

  type Rows = map<Id, Row>

  /** chat_revision: anything unreadable counts as 0. */
  function RevisionOf(row: Row): int {
    if row.meta.revision.Number? then row.meta.revision.n else 0
  }

  /** touch_revision: the next revision, or the exception int() raises. */
  function Touched(meta: Meta): Option<Meta> {
    match meta.revision
    case NoRevision => Some(meta.(revision := Number(1)))
    case Number(n) => Some(meta.(revision := Number(n + 1)))
    case Unreadable => None
  }

  /** The writers that take the chat's lock. */
  datatype Op =
    | PutTurn(turn: Turn)
    | PatchHistory(upsert: map<Id, Patch>, gone: set<Id>)
    | AppendText(message: Id, text: string)
    | Upsert(message: Id, patch: Patch, bump: bool)
    | SaveFinal(message: Id, updates: Option<Updates>, patch: Patch)
    | MergeParts(message: Id, batch: Updates)
    | SetFields(newTitle: Option<string>, newHistory: Option<History>, newFields: map<string, string>, bump: bool)
    | Replace(document: Document, bump: bool)
    | AddTag(tag: string)
    | DropTag(tag: string)
    | ClearTags
    | WriteColumns

  datatype Request = Request(chat: Id, op: Op, expected: Option<int>)

  predicate ChecksRevision(op: Op) {
    op.PutTurn? || op.PatchHistory?
  }

  predicate Bumps(op: Op) {
    match op
    case PutTurn(_) => true
    case PatchHistory(_, _) => true
    case SaveFinal(_, _, _) => true
    case WriteColumns => true
    case Upsert(_, _, bump) => bump
    case SetFields(_, _, _, bump) => bump
    case Replace(_, bump) => bump
    case _ => false
  }

  function InDocument(d: Document, r: Applied<History>): Applied<Document> {
    match r
    case Raised => Raised
    case Same => Same
    case Changed(h) => Changed(d.(history := h))
  }

  /** What the apply closure of a document writer makes of the stored document. */
  function Edit(op: Op, d: Document): Applied<Document> {
    match op
    case PutTurn(t) => InDocument(d, AppendTurn(d.history, t))
    case PatchHistory(up, gone) => Changed(d.(history := HistoryPatch(d.history, up, gone)))
    case AppendText(x, text) => InDocument(d, AppendContent(d.history, x, text))
    case Upsert(x, p, _) => Changed(d.(history := UpsertMessage(d.history, x, p)))
    case SaveFinal(x, updates, p) => Changed(d.(history := SaveReply(d.history, x, updates, p)))
    case MergeParts(x, u) => InDocument(d, MergeUpdates(d.history, x, u))
    case SetFields(title, history, fields, _) =>
      Changed(Document(Or(history, d.history), if title.Some? then title else d.title, d.fields + fields))
    case Replace(document, _) => Changed(document)
    case _ => Same
  }

  /** What a write does with the row it read. */
  datatype Verdict = Conflicts | Keeps | Refuses | Stores(next: Row)

  function Titled(row: Row, d: Document): Row {
    row.(doc := d, title := Or(d.title, row.title))
  }

  function Bumped(row: Row): Verdict {
    var meta := Touched(row.meta);
    if meta.Some? then Stores(row.(meta := meta.value)) else Refuses
  }

  /** The writers of the meta and side columns, which leave the document alone. */
  predicate IsRowWrite(op: Op) {
    op.AddTag? || op.DropTag? || op.ClearTags? || op.WriteColumns?
  }

  function TagsAfter(op: Op, tags: set<string>): set<string> {
    match op
    case AddTag(tag) => tags + {tag}
    case DropTag(tag) => tags - {tag}
    case ClearTags => {}
    case _ => tags
  }

  /** The caller saw another revision than the stored one. */
  predicate IsStale(req: Request, row: Row) {
    ChecksRevision(req.op) && req.expected.Some? && req.expected.value != RevisionOf(row)
  }

  function Decide(req: Request, row: Row): Verdict {
    if IsRowWrite(req.op) then
      var tagged := row.(meta := row.meta.(tags := TagsAfter(req.op, row.meta.tags)));
      if Bumps(req.op) then Bumped(tagged) else Stores(tagged)
    else if IsStale(req, row) then Conflicts
    else match Edit(req.op, row.doc)
      case Raised => Refuses
      case Same => Keeps
      case Changed(d) => if Bumps(req.op) then Bumped(Titled(row, d)) else Stores(Titled(row, d))
  }

  // ---- What a decision says of the row

  /** A revision that is no number counts as 0. */
  lemma RevisionCounts(row: Row)
    ensures row.meta.revision.Number? ==> RevisionOf(row) == row.meta.revision.n
    ensures !row.meta.revision.Number? ==> RevisionOf(row) == 0
  {
  }

  /**
   A write conflicts exactly when it is a turn or a history patch, its caller expects a revision,
   and that is not the stored one: a caller who saw the current revision is let through, and no
   other writer is ever turned away.
   */
  lemma ConflictExactly(req: Request, row: Row)
    ensures Decide(req, row).Conflicts? <==>
      (req.op.PutTurn? || req.op.PatchHistory?) && req.expected.Some? && req.expected.value != RevisionOf(row)
  {
  }

  /** Turns, patches, final saves and column writes move the revision; upserts and overwrites when asked to; pieces, parts and tags never. */
  lemma WhoMovesRevision(op: Op)
    ensures Bumps(op) <==>
      || op.PutTurn? || op.PatchHistory? || op.SaveFinal? || op.WriteColumns?
      || ((op.Upsert? || op.SetFields? || op.Replace?) && op.bump)
  {
  }

  /** A write is refused exactly when a turn names a missing parent, or it has something to store and the revision cannot be counted on. */
  lemma RefusedExactly(req: Request, row: Row)
    requires !Decide(req, row).Conflicts?
    ensures Decide(req, row).Refuses? <==>
      || (req.op.PutTurn? && req.op.turn.user.parent.Some? && req.op.turn.user.parent.value !in row.doc.history.messages)
      || (Bumps(req.op) && row.meta.revision.Unreadable? && (Edit(req.op, row.doc).Changed? || req.op.WriteColumns?))
  {
  }

  /** A write that is neither turned away nor refused keeps the row exactly when its closure reports no change. */
  lemma KeptExactly(req: Request, row: Row)
    requires !Decide(req, row).Conflicts? && !Decide(req, row).Refuses?
    ensures Decide(req, row).Keeps? <==>
      !(req.op.AddTag? || req.op.DropTag? || req.op.ClearTags? || req.op.WriteColumns?) && Edit(req.op, row.doc).Same?
  {
  }

  /** What is stored: the closure's document with its title in the title column, the tags, and the next revision. */
  lemma StoredRow(req: Request, row: Row)
    requires Decide(req, row).Stores?
    ensures var next := Decide(req, row).next;
      && next.meta.revision == (if Bumps(req.op) then Number(RevisionOf(row) + 1) else row.meta.revision)
      && (forall tag :: tag in next.meta.tags <==>
           if req.op.AddTag? then tag in row.meta.tags || tag == req.op.tag
           else if req.op.DropTag? then tag in row.meta.tags && tag != req.op.tag
           else tag in row.meta.tags && !req.op.ClearTags?)
      && (Edit(req.op, row.doc).Changed? ==>
           && next.doc == Edit(req.op, row.doc).value
           && next.title == (if next.doc.title.Some? then next.doc.title.value else row.title))
      && (!Edit(req.op, row.doc).Changed? ==> next.doc == row.doc && next.title == row.title)
  {
  }

  /** The writers of messages change the history alone; the others bring what they were given. */
  lemma EditedDocument(op: Op, d: Document)
    requires Edit(op, d).Changed?
    ensures var r := Edit(op, d).value;
      match op
      case SetFields(title, history, fields, _) =>
        && r.title == (if title.Some? then title else d.title)
        && r.history == (if history.Some? then history.value else d.history)
        && r.fields.Keys == d.fields.Keys + fields.Keys
        && (forall k :: k in r.fields ==> r.fields[k] == if k in fields then fields[k] else d.fields[k])
      case Replace(document, _) => r == document
      case _ => r.title == d.title && r.fields == d.fields
  {
  }

  /** And what they do to the history is what the edit of that name does. */
  lemma EditedHistory(op: Op, d: Document)
    ensures match op
      case PutTurn(t) => Edit(op, d) == InDocument(d, AppendTurn(d.history, t))
      case PatchHistory(up, gone) => Edit(op, d) == InDocument(d, Changed(HistoryPatch(d.history, up, gone)))
      case AppendText(x, text) => Edit(op, d) == InDocument(d, AppendContent(d.history, x, text))
      case Upsert(x, p, _) => Edit(op, d) == InDocument(d, Changed(UpsertMessage(d.history, x, p)))
      case SaveFinal(x, updates, p) => Edit(op, d) == InDocument(d, Changed(SaveReply(d.history, x, updates, p)))
      case MergeParts(x, u) => Edit(op, d) == InDocument(d, MergeUpdates(d.history, x, u))
      case _ => true
  {
  }

  // ---- Events

  /**
   How a write ended.  Busy: the lock was not obtained, or the database failed in operation.
   Lost: anything else failed.
   */
  datatype Outcome = Busy | Lost | Missing | Conflict | Unchanged | Refused | Stored

  /** The errors a failing database or a failing read-back can raise at almost any point. */
  predicate IsError(o: Outcome) {
    o.Busy? || o.Lost?
  }

  datatype Event =
    | Wrote(thread: nat, req: Request, outcome: Outcome)
    | Inserted(chat: Id, row: Row)
    | Removed(chat: Id)

  function OutcomeOf(v: Verdict): Outcome {
    match v
    case Conflicts => Conflict
    case Keeps => Unchanged
    case Refuses => Refused
    case Stores(_) => Stored
  }

  /** The outcome is the one the write gets when it runs alone on these rows. */
  predicate Honest(rows: Rows, e: Event) {
    e.Wrote? ==>
      match e.outcome
      case Busy => true
      case Lost => true
      case Missing => e.req.chat !in rows
      case o => e.req.chat in rows && o == OutcomeOf(Decide(e.req, rows[e.req.chat]))
  }

  /** The rows after one event.  Only a stored write touches a row, and only its own. */
  function After(rows: Rows, e: Event): Rows
    requires Honest(rows, e)
  {
    match e
    case Inserted(c, row) => rows[c := row]
    case Removed(c) => rows - {c}
    case Wrote(_, req, outcome) =>
      if outcome == Stored then rows[req.chat := Decide(req, rows[req.chat]).next] else rows
  }

  /** What each event leaves: its own chat inserted, gone, or rewritten as decided, and every other row as it was. */
  lemma AfterExactly(rows: Rows, e: Event)
    requires Honest(rows, e)
    ensures var c := if e.Wrote? then e.req.chat else e.chat;
      && (forall d :: d != c ==> (d in After(rows, e) <==> d in rows))
      && (forall d :: d in rows && d != c ==> After(rows, e)[d] == rows[d])
      && (e.Inserted? ==> c in After(rows, e) && After(rows, e)[c] == e.row)
      && (e.Removed? ==> c !in After(rows, e))
      && (e.Wrote? && e.outcome != Stored ==> After(rows, e) == rows)
      && (e.Wrote? && e.outcome == Stored ==>
           && c in rows && c in After(rows, e)
           && Decide(e.req, rows[c]) == Stores(After(rows, e)[c]))
  {
  }

  // ---- The write, step by step

  class ChatTable {
    var rows: Rows

    /**
     _write_locked_chat once the lock is held.  The database may fail to commit, and reading the row
     back may fail later, the commit being done; entry is the event that took place.
     */
    method WriteLockedChat(req: Request, commit: Option<Outcome>, readBack: Option<Outcome>)
        returns (outcome: Outcome, ghost entry: Outcome)
      requires (commit.Some? ==> IsError(commit.value)) && (readBack.Some? ==> IsError(readBack.value))
      modifies this
      ensures Honest(old(rows), Wrote(0, req, entry))
      ensures rows == After(old(rows), Wrote(0, req, entry))
      ensures outcome == entry || (readBack == Some(outcome) && (entry.Stored? || entry.Conflict? || entry.Unchanged?))
      ensures IsError(entry) ==> commit == Some(entry)
      ensures entry.Missing? <==> req.chat !in old(rows)
      ensures entry.Conflict? <==>
        && req.chat in old(rows) && (req.op.PutTurn? || req.op.PatchHistory?)
        && req.expected.Some? && req.expected.value != RevisionOf(old(rows)[req.chat])
      ensures entry.Stored? ==> rows.Keys == old(rows).Keys && forall c :: c in rows && c != req.chat ==> rows[c] == old(rows)[c]
      ensures !entry.Stored? ==> rows == old(rows)
    {
      if req.chat !in rows {
        return Missing, Missing;
      }
      var row := rows[req.chat];
      if IsRowWrite(req.op) {
        row := row.(meta := row.meta.(tags := TagsAfter(req.op, row.meta.tags)));
      } else {
        if IsStale(req, row) {
          return Or(readBack, Conflict), Conflict;
        }
        var applied := RunApply(req.op, row.doc);
        if applied.Raised? {
          return Refused, Refused;
        } else if applied.Same? {
          return Or(readBack, Unchanged), Unchanged;
        }
        row := row.(doc := applied.value);
        if applied.value.title.Some? {
          row := row.(title := applied.value.title.value);
        }
      }
      if Bumps(req.op) {
        var meta := Touched(row.meta);
        if meta.None? {
          return Refused, Refused;
        }
        row := row.(meta := meta.value);
      }
      if commit.Some? {
        return commit.value, commit.value;
      }
      rows := rows[req.chat := row];
      outcome, entry := Or(readBack, Stored), Stored;
    }

    /** Run the apply closure on a private copy of the document. */
    static method RunApply(op: Op, d: Document) returns (r: Applied<Document>)
      ensures r == Edit(op, d)
    {
      var copy := new HistoryEdits.HistoryCopy(d.history);
      match op {
        case PutTurn(t) =>
          var done := copy.AppendTurn(t);
          r := match done
               case Raised => Raised
               case Same => Same
               case Changed(_) => Changed(d.(history := copy.Value()));
        case PatchHistory(up, gone) =>
          copy.ApplyHistoryPatch(up, gone);
          r := Changed(d.(history := copy.Value()));
        case AppendText(x, text) =>
          var changed := copy.AppendText(x, text);
          r := if changed then Changed(d.(history := copy.Value())) else Same;
        case Upsert(x, p, _) =>
          copy.Upsert(x, p);
          r := Changed(d.(history := copy.Value()));
        case SaveFinal(x, updates, p) =>
          copy.SaveFinal(x, updates, p);
          r := Changed(d.(history := copy.Value()));
        case MergeParts(x, u) =>
          var changed := copy.MergeParts(x, u);
          r := if changed then Changed(d.(history := copy.Value())) else Same;
        case SetFields(title, history, fields, _) =>
          r := Changed(Document(Or(history, d.history), if title.Some? then title else d.title, d.fields + fields));
        case Replace(document, _) =>
          r := Changed(document);
        case _ =>
          r := Same;
      }
    }
  }

  // ---- Histories of events

  function Last<T>(s: seq<T>): T
    requires s != []
  {
    s[|s| - 1]
  }

  function Init<T>(s: seq<T>): seq<T>
    requires s != []
  {
    s[..|s| - 1]
  }

  /** Taking the last one off a log takes it off every tail of the log. */
  lemma InitOfTail<T>(s: seq<T>, n: nat)
    requires n < |s|
    ensures Init(s)[..n] == s[..n] && Init(s)[n..] == Init(s[n..]) && Last(s[n..]) == Last(s)
  {
    assert |Init(s)[n..]| == |Init(s[n..])|;
    assert forall i :: 0 <= i < |Init(s)[n..]| ==> Init(s)[n..][i] == s[n + i] == Init(s[n..])[i];
  }

  /** Every chat id that has ever had a row.  New rows take fresh ids. */
  function UsedIds(first: Rows, log: seq<Event>): set<Id>
    decreases |log|
  {
    if log == [] then first.Keys
    else UsedIds(first, Init(log)) + (if Last(log).Inserted? then {Last(log).chat} else {})
  }

  /** The rows after a log whose events took place one at a time, in order. */
  function Replay(first: Rows, log: seq<Event>): Rows
    requires Legal(first, log)
    decreases |log|, 1
  {
    if log == [] then first else After(Replay(first, Init(log)), Last(log))
  }

  /** Each event of the log had the outcome it would have had alone on the rows of that moment. */
  predicate Legal(first: Rows, log: seq<Event>)
    decreases |log|, 0
  {
    log == [] ||
    (&& Legal(first, Init(log))
     && Honest(Replay(first, Init(log)), Last(log))
     && (Last(log).Inserted? ==> Last(log).chat !in UsedIds(first, Init(log))))
  }

  lemma LegalExtend(first: Rows, log: seq<Event>, e: Event)
    requires Legal(first, log) && Honest(Replay(first, log), e)
    requires e.Inserted? ==> e.chat !in UsedIds(first, log)
    ensures Legal(first, log + [e])
    ensures Replay(first, log + [e]) == After(Replay(first, log), e)
    ensures UsedIds(first, log + [e]) == UsedIds(first, log) + (if e.Inserted? then {e.chat} else {})
  {
    assert Init(log + [e]) == log;
  }

  lemma {:induction false} LegalPrefix(first: Rows, log: seq<Event>, n: nat)
    requires Legal(first, log) && n <= |log|
    ensures Legal(first, log[..n])
    ensures n < |log| ==> Honest(Replay(first, log[..n]), log[n])
    decreases |log|
  {
    if n == |log| {
      assert log[..n] == log;
    } else if n == |log| - 1 {
      assert log[..n] == Init(log);
    } else {
      LegalPrefix(first, Init(log), n);
      assert Init(log)[..n] == log[..n];
    }
  }

  lemma {:induction false} RowsAreUsed(first: Rows, log: seq<Event>)
    requires Legal(first, log)
    ensures Replay(first, log).Keys <= UsedIds(first, log)
    decreases |log|
  {
    if log != [] {
      RowsAreUsed(first, Init(log));
    }
  }
}
