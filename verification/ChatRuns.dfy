/**
 What whole runs of chat writes keep.  Each result is about a legal log, and RunsAreAtomic of
 ChatProtocol makes the log of any interleaving legal.
 */
module ChatRuns {
  import opened Basics
  import opened MessageEffects
  import opened Messages
  import opened MessageForest
  import opened ChatWrites
  import opened ChatProtocol

  // ---- Writes that store nothing

  function Strike(log: seq<Event>, i: nat): seq<Event>
    requires i < |log|
  {
    log[..i] + log[i + 1..]
  }

  lemma StrikeStep(log: seq<Event>, i: nat)
    requires i < |log|
    ensures Strike(log, i) == if i == |log| - 1 then Init(log) else Strike(Init(log), i) + [Last(log)]
  {
  }

  /** Striking a timeout, conflict, refusal or failure from the log changes nothing that follows. */
  lemma {:induction false} UnstoredWriteLeavesNoTrace(first: Rows, log: seq<Event>, i: nat)
    requires Legal(first, log) && i < |log|
    requires log[i].Wrote? && log[i].outcome != Stored
    ensures Legal(first, Strike(log, i))
    ensures Replay(first, Strike(log, i)) == Replay(first, log)
    ensures UsedIds(first, Strike(log, i)) == UsedIds(first, log)
    decreases |log|
  {
    StrikeStep(log, i);
    if i < |log| - 1 {
      UnstoredWriteLeavesNoTrace(first, Init(log), i);
      LegalExtend(first, Strike(Init(log), i), Last(log));
    }
  }

  // ---- Revisions

  lemma StoreMovesRevision(req: Request, row: Row)
    requires Decide(req, row).Stores?
    ensures RevisionOf(Decide(req, row).next) == RevisionOf(row) + (if Bumps(req.op) then 1 else 0)
  {
  }

  ghost predicate HasRow(first: Rows, log: seq<Event>, c: Id) {
    Legal(first, log) && c in Replay(first, log)
  }

  function RowAt(first: Rows, log: seq<Event>, c: Id): Row
    requires HasRow(first, log, c)
  {
    Replay(first, log)[c]
  }

  /** A removed chat id never comes back, so a row present now and later is present in between. */
  lemma RowPresentBefore(first: Rows, log: seq<Event>, i: nat, c: Id)
    requires Legal(first, log) && i < |log| && log != []
    requires HasRow(first, log[..i], c) && HasRow(first, log, c)
    ensures HasRow(first, Init(log), c)
  {
    assert Init(log)[..i] == log[..i];
    RowsAreUsed(first, log[..i]);
    UsedIdsGrow(first, Init(log), i);
  }

  lemma {:induction false} UsedIdsGrow(first: Rows, log: seq<Event>, i: nat)
    requires i <= |log|
    ensures UsedIds(first, log[..i]) <= UsedIds(first, log)
    decreases |log|
  {
    if i == |log| {
      assert log[..i] == log;
    } else {
      UsedIdsGrow(first, Init(log), i);
      assert Init(log)[..i] == log[..i];
    }
  }

  /** As long as a chat exists its revision never decreases, whatever writers take its lock. */
  lemma {:induction false} RevisionsNeverDecrease(first: Rows, log: seq<Event>, i: nat, c: Id)
    requires Legal(first, log) && i <= |log|
    requires HasRow(first, log[..i], c) && HasRow(first, log, c)
    ensures RevisionOf(RowAt(first, log[..i], c)) <= RevisionOf(RowAt(first, log, c))
    decreases |log|
  {
    if i == |log| {
      assert log[..i] == log;
    } else {
      RowPresentBefore(first, log, i, c);
      RowsAreUsed(first, Init(log));
      assert Init(log)[..i] == log[..i];
      RevisionsNeverDecrease(first, Init(log), i, c);
      var e := Last(log);
      if e.Wrote? && e.outcome == Stored && e.req.chat == c {
        StoreMovesRevision(e.req, Replay(first, Init(log))[c]);
      }
    }
  }

  /** A stored write of a writer that checks the revision the caller last saw. */
  predicate CheckedStore(e: Event) {
    e.Wrote? && e.outcome == Stored && ChecksRevision(e.req.op) && e.req.expected.Some?
  }

  /** Of all writes to one chat that expect the same revision, at most one ever changes the row. */
  lemma OneStorePerRevision(first: Rows, log: seq<Event>, i: nat, j: nat)
    requires Legal(first, log) && i < j < |log|
    requires CheckedStore(log[i]) && CheckedStore(log[j])
    requires log[i].req.chat == log[j].req.chat
    ensures log[i].req.expected != log[j].req.expected
  {
    var c := log[i].req.chat;
    LegalPrefix(first, log, i);
    LegalPrefix(first, log, i + 1);
    LegalPrefix(first, log, j);
    var after := log[..i + 1];
    assert Init(after) == log[..i] && Last(after) == log[i];
    StoreMovesRevision(log[i].req, Replay(first, log[..i])[c]);
    assert log[..j][..i + 1] == after;
    RevisionsNeverDecrease(first, log[..j], i + 1, c);
  }

  /**
   In any interleaving an entry that saw its row is a conflict exactly when it is a turn or a patch
   that expected another revision than the one stored at that moment.
   */
  lemma RunsConflictExactly(stripe: Stripes, s0: State, steps: seq<Step>, n: nat)
    requires IsInitial(s0) && IsRun(stripe, s0, steps)
    requires var log := EndState(stripe, s0, steps).log;
      n < |log| && log[n].Wrote? && !IsError(log[n].outcome) && !log[n].outcome.Missing?
    ensures var log := EndState(stripe, s0, steps).log; var req := log[n].req;
      && HasRow(s0.rows, log[..n], req.chat)
      && (log[n].outcome.Conflict? <==>
           && (req.op.PutTurn? || req.op.PatchHistory?)
           && req.expected.Some? && req.expected.value != RevisionOf(RowAt(s0.rows, log[..n], req.chat)))
  {
    RunsAreAtomic(stripe, s0, steps);
    var log := EndState(stripe, s0, steps).log;
    LegalPrefix(s0.rows, log, n);
    ConflictExactly(log[n].req, RowAt(s0.rows, log[..n], log[n].req.chat));
  }

  // ---- What an error tells

  /**
   A call told of an error left the rows as they were exactly when its entry
   is not a stored write, for any writer that moves the revision; striking such an entry from the
   run changes nothing.
   */
  lemma ErrorLeavesNoTraceExactly(stripe: Stripes, s0: State, steps: seq<Step>, i: nat)
    requires IsInitial(s0) && IsRun(stripe, s0, steps)
    requires var s := EndState(stripe, s0, steps); i < |s.returned| && IsError(s.returned[i].outcome)
    ensures var s := EndState(stripe, s0, steps); var at, req := s.returned[i].at, s.returned[i].req;
      && at < |s.log| && s.log[at].Wrote? && s.log[at].req == req
      && Legal(s0.rows, s.log[..at]) && Legal(s0.rows, s.log[..at + 1])
      && (Bumps(req.op) ==>
           (Replay(s0.rows, s.log[..at + 1]) == Replay(s0.rows, s.log[..at]) <==> s.log[at].outcome != Stored))
      && (s.log[at].outcome != Stored ==>
           && Replay(s0.rows, s.log[..at + 1]) == Replay(s0.rows, s.log[..at])
           && Legal(s0.rows, Strike(s.log, at)) && Replay(s0.rows, Strike(s.log, at)) == s.rows)
  {
    RunsAreAtomic(stripe, s0, steps);
    var s := EndState(stripe, s0, steps);
    var at := s.returned[i].at;
    assert Told(s, at, s.returned[i].thread, s.returned[i].req, s.returned[i].outcome);
    LegalPrefix(s0.rows, s.log, at);
    LegalPrefix(s0.rows, s.log, at + 1);
    EntryMovesRows(s0.rows, s.log[..at + 1]);
    assert Init(s.log[..at + 1]) == s.log[..at] && Last(s.log[..at + 1]) == s.log[at];
    if s.log[at].outcome != Stored {
      UnstoredWriteLeavesNoTrace(s0.rows, s.log, at);
    }
  }

  /** The last entry changes the rows when it stores and moves the revision, and not when it stores nothing. */
  lemma EntryMovesRows(first: Rows, log: seq<Event>)
    requires log != [] && Legal(first, log) && Last(log).Wrote?
    ensures Last(log).outcome != Stored ==> Replay(first, log) == Replay(first, Init(log))
    ensures Last(log).outcome == Stored && Bumps(Last(log).req.op) ==> Replay(first, log) != Replay(first, Init(log))
  {
    var e := Last(log);
    if e.outcome == Stored {
      var row := Replay(first, Init(log))[e.req.chat];
      StoreMovesRevision(e.req, row);
      assert Replay(first, log)[e.req.chat] == Decide(e.req, row).next;
    }
  }

  // ---- The message tree

  /** The write suits the tree it meets: only these keep it a forest. */
  ghost predicate FitsTree(op: Op, h: History) {
    match op
    case PutTurn(t) => TurnFits(h.messages, t)
    case PatchHistory(up, gone) =>
      && DescendantClosed(h.messages, gone)
      && forall x :: x in up ==> KeepsLinks(Deleted(h, gone).messages, x, up[x])
    case Upsert(x, p, _) => KeepsLinks(h.messages, x, p)
    case SaveFinal(x, _, p) => KeepsLinks(h.messages, x, p)
    case SetFields(_, newHistory, _, _) => newHistory.Some? ==> SoundTree(newHistory.value)
    case Replace(document, _) => SoundTree(document.history)
    case _ => true
  }

  ghost predicate SoundTree(h: History) {
    IsForest(h.messages) && CurrentStored(h)
  }

  lemma EditKeepsTree(op: Op, d: Document)
    requires SoundTree(d.history) && FitsTree(op, d.history) && Edit(op, d).Changed?
    ensures SoundTree(Edit(op, d).value.history)
  {
    var h, r := d.history, Edit(op, d).value.history;
    match op
    case PutTurn(t) =>
      TurnKeepsForest(h, t);
      TurnKeepsCurrent(h, t);
    case PatchHistory(up, gone) =>
      PatchKeepsForest(h, up, gone);
      PatchKeepsCurrent(h, up, gone);
    case AppendText(_, _) => SameLinksKeepForest(h.messages, r.messages);
    case MergeParts(_, _) => SameLinksKeepForest(h.messages, r.messages);
    case Upsert(_, _, _) => SameLinksKeepForest(h.messages, r.messages);
    case SaveFinal(_, _, _) => SameLinksKeepForest(h.messages, r.messages);
    case _ =>
  }

  ghost predicate SoundRows(rows: Rows) {
    forall c :: c in rows ==> SoundTree(rows[c].doc.history)
  }

  /** Every stored write of the log suited the tree it met, and every new row came with a sound tree. */
  ghost predicate AllFit(first: Rows, log: seq<Event>)
    decreases |log|
  {
    log == [] ||
    (&& Legal(first, log)
     && AllFit(first, Init(log))
     && match Last(log)
        case Wrote(_, req, outcome) =>
          outcome == Stored ==> FitsTree(req.op, Replay(first, Init(log))[req.chat].doc.history)
        case Inserted(_, row) => SoundTree(row.doc.history)
        case Removed(_) => true)
  }

  lemma {:induction false} LogKeepsTrees(first: Rows, log: seq<Event>)
    requires Legal(first, log) && SoundRows(first) && AllFit(first, log)
    ensures SoundRows(Replay(first, log))
    decreases |log|
  {
    if log != [] {
      LogKeepsTrees(first, Init(log));
      var e := Last(log);
      if e.Wrote? && e.outcome == Stored {
        var row := Replay(first, Init(log))[e.req.chat];
        if !IsRowWrite(e.req.op) {
          EditKeepsTree(e.req.op, row.doc);
        }
      }
    }
  }

  /**
   In any interleaving of any number of threads whose stored writes suit the trees they meet,
   every chat's messages stay a forest and its currentId stays null or stored.
   */
  lemma RunsKeepTrees(stripe: Stripes, s0: State, steps: seq<Step>)
    requires IsInitial(s0) && IsRun(stripe, s0, steps) && SoundRows(s0.rows)
    requires AllFit(s0.rows, EndState(stripe, s0, steps).log)
    ensures SoundRows(EndState(stripe, s0, steps).rows)
  {
    RunsAreAtomic(stripe, s0, steps);
    LogKeepsTrees(s0.rows, EndState(stripe, s0, steps).log);
  }

  // ---- What the revision a client saw says of the tree

  /** The same messages with the same links, whatever their contents. */
  predicate SameTree(h: History, r: History) {
    && h.messages.Keys == r.messages.Keys
    && forall x :: x in h.messages ==>
         h.messages[x].parent == r.messages[x].parent && h.messages[x].children == r.messages[x].children
  }

  /** A write that does not move the revision leaves ids and links alone; the writers of pieces always do. */
  predicate IsQuiet(op: Op, h: History) {
    Bumps(op) ||
    match op
    case Upsert(x, p, _) => x in h.messages && KeepsLinks(h.messages, x, p)
    case SetFields(_, newHistory, _, _) => newHistory.Some? ==> SameTree(h, newHistory.value)
    case Replace(document, _) => SameTree(h, document.history)
    case _ => true
  }

  lemma QuietEdit(op: Op, d: Document)
    requires IsQuiet(op, d.history) && !Bumps(op) && Edit(op, d).Changed?
    ensures SameTree(d.history, Edit(op, d).value.history)
  {
  }

  ghost predicate QuietSince(first: Rows, log: seq<Event>, n: nat, c: Id)
    requires Legal(first, log)
    decreases |log|
  {
    n >= |log| ||
    (&& QuietSince(first, Init(log), n, c)
     && (Last(log).Wrote? && Last(log).outcome == Stored && Last(log).req.chat == c ==>
          IsQuiet(Last(log).req.op, Replay(first, Init(log))[c].doc.history)))
  }

  /** One quiet event that leaves the revision alone leaves the tree alone. */
  lemma QuietEvent(first: Rows, log: seq<Event>, c: Id)
    requires log != [] && HasRow(first, log, c) && HasRow(first, Init(log), c)
    requires QuietSince(first, log, |log| - 1, c)
    requires RevisionOf(RowAt(first, Init(log), c)) == RevisionOf(RowAt(first, log, c))
    ensures SameTree(RowAt(first, Init(log), c).doc.history, RowAt(first, log, c).doc.history)
  {
    var e := Last(log);
    RowsAreUsed(first, Init(log));
    if e.Wrote? && e.outcome == Stored && e.req.chat == c {
      var row := RowAt(first, Init(log), c);
      StoreMovesRevision(e.req, row);
      if !IsRowWrite(e.req.op) {
        QuietEdit(e.req.op, row.doc);
      }
    }
  }

  /** A chat with the same revision at two moments has the same tree at both, if the writes between that bump nothing are quiet. */
  lemma {:induction false} SameRevisionSameTree(first: Rows, log: seq<Event>, n: nat, c: Id)
    requires n <= |log| && HasRow(first, log[..n], c) && HasRow(first, log, c) && QuietSince(first, log, n, c)
    requires RevisionOf(RowAt(first, log[..n], c)) == RevisionOf(RowAt(first, log, c))
    ensures SameTree(RowAt(first, log[..n], c).doc.history, RowAt(first, log, c).doc.history)
    decreases |log|
  {
    if n == |log| {
      assert log[..n] == log;
    } else {
      var m := |log| - 1;
      RowPresentBefore(first, log, n, c);
      assert Init(log)[..n] == log[..n] && log[..m] == Init(log);
      RevisionsNeverDecrease(first, Init(log), n, c);
      RevisionsNeverDecrease(first, log, m, c);
      SameRevisionSameTree(first, Init(log), n, c);
      QuietEvent(first, log, c);
    }
  }

  /** Whether a checked write fits a tree is read off ids and links. */
  lemma FitsSameTree(op: Op, h: History, r: History)
    requires SameTree(h, r) && ChecksRevision(op) && FitsTree(op, h)
    ensures FitsTree(op, r)
  {
    if op.PatchHistory? {
      forall x | x in op.upsert ensures KeepsLinks(Deleted(r, op.gone).messages, x, op.upsert[x]) {
        assert KeepsLinks(Deleted(h, op.gone).messages, x, op.upsert[x]);
      }
    }
  }

  /** The client saw, at moment n, the revision its turn or patch expects and a tree it fits. */
  ghost predicate SeenToFit(first: Rows, log: seq<Event>, n: nat, req: Request)
    requires Legal(first, log)
  {
    && n <= |log| && ChecksRevision(req.op)
    && HasRow(first, log[..n], req.chat)
    && req.expected == Some(RevisionOf(RowAt(first, log[..n], req.chat)))
    && FitsTree(req.op, RowAt(first, log[..n], req.chat).doc.history)
    && QuietSince(first, log, n, req.chat)
  }

  /** A turn or a patch checked against the tree of revision r still fits when it is stored expecting r. */
  lemma SeenWriteStillFits(first: Rows, log: seq<Event>, n: nat, req: Request)
    requires Legal(first, log) && SeenToFit(first, log, n, req)
    requires HasRow(first, log, req.chat) && Decide(req, RowAt(first, log, req.chat)).Stores?
    ensures FitsTree(req.op, RowAt(first, log, req.chat).doc.history)
  {
    SameRevisionSameTree(first, log, n, req.chat);
    FitsSameTree(req.op, RowAt(first, log[..n], req.chat).doc.history, RowAt(first, log, req.chat).doc.history);
  }

  /** Every stored write fits the tree it meets, or is a turn or patch its client saw to fit under the revision it gave. */
  ghost predicate AllAimed(first: Rows, log: seq<Event>)
    decreases |log|
  {
    log == [] ||
    (&& Legal(first, log)
     && AllAimed(first, Init(log))
     && match Last(log)
        case Wrote(_, req, outcome) =>
          outcome == Stored ==>
            || FitsTree(req.op, Replay(first, Init(log))[req.chat].doc.history)
            || exists n :: SeenToFit(first, Init(log), n, req)
        case Inserted(_, row) => SoundTree(row.doc.history)
        case Removed(_) => true)
  }

  lemma {:induction false} AimedWritesFit(first: Rows, log: seq<Event>)
    requires Legal(first, log) && AllAimed(first, log)
    ensures AllFit(first, log)
    decreases |log|
  {
    if log != [] {
      AimedWritesFit(first, Init(log));
      var e := Last(log);
      if e.Wrote? && e.outcome == Stored && !FitsTree(e.req.op, Replay(first, Init(log))[e.req.chat].doc.history) {
        var n :| SeenToFit(first, Init(log), n, e.req);
        SeenWriteStillFits(first, Init(log), n, e.req);
      }
    }
  }

  /** The revision check at work: turns and patches need fit only the tree their client saw, and every tree stays sound. */
  lemma RunsKeepTreesClientsSaw(stripe: Stripes, s0: State, steps: seq<Step>)
    requires IsInitial(s0) && IsRun(stripe, s0, steps) && SoundRows(s0.rows)
    requires AllAimed(s0.rows, EndState(stripe, s0, steps).log)
    ensures SoundRows(EndState(stripe, s0, steps).rows)
  {
    RunsAreAtomic(stripe, s0, steps);
    AimedWritesFit(s0.rows, EndState(stripe, s0, steps).log);
    RunsKeepTrees(stripe, s0, steps);
  }

  /** A whole-document overwrite brings a history whose currentId is stored. */
  predicate BringsCurrent(op: Op) {
    match op
    case SetFields(_, newHistory, _, _) => newHistory.Some? ==> CurrentStored(newHistory.value)
    case Replace(document, _) => CurrentStored(document.history)
    case _ => true
  }

  lemma EditKeepsCurrent(op: Op, d: Document)
    requires CurrentStored(d.history) && BringsCurrent(op) && Edit(op, d).Changed?
    ensures CurrentStored(Edit(op, d).value.history)
  {
    match op
    case PutTurn(t) => TurnKeepsCurrent(d.history, t);
    case PatchHistory(up, gone) => PatchKeepsCurrent(d.history, up, gone);
    case _ =>
  }

  ghost predicate CurrentRows(rows: Rows) {
    forall c :: c in rows ==> CurrentStored(rows[c].doc.history)
  }

  /** Over all history writers, fitting or not, currentId stays null or stored. */
  lemma {:induction false} LogKeepsCurrent(first: Rows, log: seq<Event>)
    requires Legal(first, log) && CurrentRows(first)
    requires forall i :: 0 <= i < |log| ==>
      (log[i].Wrote? ==> BringsCurrent(log[i].req.op)) && (log[i].Inserted? ==> CurrentStored(log[i].row.doc.history))
    ensures CurrentRows(Replay(first, log))
    decreases |log|
  {
    if log != [] {
      assert forall i :: 0 <= i < |Init(log)| ==> Init(log)[i] == log[i];
      LogKeepsCurrent(first, Init(log));
      var e := Last(log);
      assert e == log[|log| - 1];
      if e.Wrote? && e.outcome == Stored && !IsRowWrite(e.req.op) {
        EditKeepsCurrent(e.req.op, Replay(first, Init(log))[e.req.chat].doc);
      }
    }
  }

  // ---- The text of one message

  /** The write neither rewrites the content of message x nor removes x. */
  predicate LeavesContent(op: Op, x: Id) {
    match op
    case PutTurn(t) => t.userId != Some(x) || t.user.content == ""
    case PatchHistory(up, gone) => x !in gone && (x in up ==> up[x].content.None?)
    case Upsert(y, p, _) => y == x ==> p.content.None?
    case SaveFinal(y, _, p) => y == x ==> p.content.None?
    case SetFields(_, newHistory, _, _) => newHistory.None?
    case Replace(_, _) => false
    case _ => true
  }

  ghost predicate HasMessage(first: Rows, log: seq<Event>, c: Id, x: Id) {
    HasRow(first, log, c) && x in RowAt(first, log, c).doc.history.messages
  }

  ghost function ContentAt(first: Rows, log: seq<Event>, c: Id, x: Id): string
    requires HasMessage(first, log, c, x)
  {
    RowAt(first, log, c).doc.history.messages[x].content
  }

  /** The text one event adds to message x of chat c. */
  function Piece(e: Event, c: Id, x: Id): string {
    if e.Wrote? && e.outcome == Stored && e.req.chat == c && e.req.op.AppendText? && e.req.op.message == x
    then e.req.op.text else ""
  }

  function Pieces(log: seq<Event>, c: Id, x: Id): string
    decreases |log|
  {
    if log == [] then "" else Pieces(Init(log), c, x) + Piece(Last(log), c, x)
  }

  predicate NeverRewritten(log: seq<Event>, c: Id, x: Id) {
    forall i :: 0 <= i < |log| ==>
      match log[i]
      case Wrote(_, req, outcome) => outcome == Stored && req.chat == c ==> LeavesContent(req.op, x)
      case Inserted(_, _) => true
      case Removed(d) => d != c
  }

  lemma EditKeepsContent(op: Op, d: Document, x: Id)
    requires x in d.history.messages && LeavesContent(op, x) && Edit(op, d).Changed?
    ensures x in Edit(op, d).value.history.messages
    ensures Edit(op, d).value.history.messages[x].content
         == d.history.messages[x].content + (if op.AppendText? && op.message == x then op.text else "")
  {
    var before := d.history.messages[x].content;
    assert before + "" == before;
  }

  /** One event: the message stays, and its text grows at its end by what the event adds. */
  lemma EventAppendsContent(first: Rows, log: seq<Event>, c: Id, x: Id)
    requires log != [] && Legal(first, log) && HasMessage(first, Init(log), c, x) && NeverRewritten([Last(log)], c, x)
    ensures HasMessage(first, log, c, x)
    ensures ContentAt(first, log, c, x) == ContentAt(first, Init(log), c, x) + Piece(Last(log), c, x)
  {
    var e := Last(log);
    assert [e][0] == e;
    RowsAreUsed(first, Init(log));
    var before := ContentAt(first, Init(log), c, x);
    if e.Wrote? && e.outcome == Stored && e.req.chat == c && !IsRowWrite(e.req.op) {
      EditKeepsContent(e.req.op, RowAt(first, Init(log), c).doc, x);
    } else {
      assert before + "" == before;
    }
  }

  /**
   From any moment n at which the message is stored: what it reads at the end is what it read then,
   followed by the pieces appended since, in commit order.
   */
  lemma {:induction false} LogAppendsContent(first: Rows, log: seq<Event>, n: nat, c: Id, x: Id)
    requires Legal(first, log) && n <= |log|
    requires HasMessage(first, log[..n], c, x) && NeverRewritten(log[n..], c, x)
    ensures HasMessage(first, log, c, x)
    ensures ContentAt(first, log, c, x) == ContentAt(first, log[..n], c, x) + Pieces(log[n..], c, x)
    decreases |log|
  {
    var start := ContentAt(first, log[..n], c, x);
    if n == |log| {
      assert log[..n] == log && log[n..] == [] && start + "" == start;
    } else {
      var since := log[n..];
      InitOfTail(log, n);
      assert forall i :: 0 <= i < |Init(since)| ==> Init(since)[i] == since[i];
      assert Last(since) == since[|since| - 1];
      LogAppendsContent(first, Init(log), n, c, x);
      EventAppendsContent(first, log, c, x);
      assert (start + Pieces(Init(since), c, x)) + Piece(Last(log), c, x)
          == start + (Pieces(Init(since), c, x) + Piece(Last(log), c, x));
    }
  }

  /**
   In any interleaving, from any moment of the run on, whether threads are in flight or not: a
   message that no stored write rewrites or deletes since then reads as it did at that moment,
   followed by the pieces appended since, in commit order.
   */
  lemma RunsAppendContent(stripe: Stripes, s0: State, steps: seq<Step>, n: nat, c: Id, x: Id)
    requires IsInitial(s0) && IsRun(stripe, s0, steps)
    requires var log := EndState(stripe, s0, steps).log;
      n <= |log| && HasMessage(s0.rows, log[..n], c, x) && NeverRewritten(log[n..], c, x)
    ensures var s := EndState(stripe, s0, steps);
      && c in s.rows && x in s.rows[c].doc.history.messages
      && s.rows[c].doc.history.messages[x].content
         == ContentAt(s0.rows, s.log[..n], c, x) + Pieces(s.log[n..], c, x)
  {
    RunsAreAtomic(stripe, s0, steps);
    LogAppendsContent(s0.rows, EndState(stripe, s0, steps).log, n, c, x);
  }

  /** The event stores a turn whose reply a was not stored before. */
  ghost predicate StartsReply(first: Rows, log: seq<Event>, n: nat, c: Id, t: Turn, a: Id) {
    && n < |log| && log[n].Wrote? && log[n].outcome == Stored && log[n].req.chat == c && log[n].req.op == PutTurn(t)
    && t.assistantId == Some(a) && t.userId != Some(a)
    && Legal(first, log[..n]) && !HasMessage(first, log[..n], c, a)
  }

  lemma TurnStartsReply(d: Document, t: Turn, a: Id)
    requires Edit(PutTurn(t), d).Changed? && t.assistantId == Some(a) && t.userId != Some(a) && a !in d.history.messages
    ensures var ms := Edit(PutTurn(t), d).value.history.messages;
      a in ms && ms[a].content == t.assistant.content
  {
  }

  lemma ReplyStarts(first: Rows, log: seq<Event>, n: nat, c: Id, t: Turn, a: Id)
    requires Legal(first, log) && StartsReply(first, log, n, c, t, a)
    ensures HasMessage(first, log[..n + 1], c, a)
    ensures ContentAt(first, log[..n + 1], c, a) == t.assistant.content
  {
    LegalPrefix(first, log, n);
    LegalPrefix(first, log, n + 1);
    assert Init(log[..n + 1]) == log[..n] && Last(log[..n + 1]) == log[n];
    TurnStartsReply(RowAt(first, log[..n], c).doc, t, a);
  }

  /**
   A streamed reply, in any interleaving and from the turn that created it in the middle of the
   run: it reads as it was sent, followed by the pieces appended since, in commit order.
   */
  lemma RunsStreamReply(stripe: Stripes, s0: State, steps: seq<Step>, n: nat, c: Id, t: Turn, a: Id)
    requires IsInitial(s0) && IsRun(stripe, s0, steps)
    requires var log := EndState(stripe, s0, steps).log;
      StartsReply(s0.rows, log, n, c, t, a) && NeverRewritten(log[n + 1..], c, a)
    ensures var s := EndState(stripe, s0, steps);
      && c in s.rows && a in s.rows[c].doc.history.messages
      && s.rows[c].doc.history.messages[a].content == t.assistant.content + Pieces(s.log[n + 1..], c, a)
  {
    RunsAreAtomic(stripe, s0, steps);
    ReplyStarts(s0.rows, EndState(stripe, s0, steps).log, n, c, t, a);
    RunsAppendContent(stripe, s0, steps, n + 1, c, a);
  }

  // ---- The text a save brings

  /** The patch a write overlays on message x, if that is what it does. */
  function PatchOf(op: Op, x: Id): Option<Patch> {
    match op
    case SaveFinal(y, _, p) => if x == y then Some(p) else None
    case Upsert(y, p, _) => if x == y then Some(p) else None
    case PatchHistory(up, _) => if x in up then Some(up[x]) else None
    case _ => None
  }

  lemma PatchSetsContent(op: Op, d: Document, x: Id)
    requires Edit(op, d).Changed? && PatchOf(op, x).Some? && PatchOf(op, x).value.content.Some?
    ensures var ms := Edit(op, d).value.history.messages;
      x in ms && ms[x].content == PatchOf(op, x).value.content.value
  {
    match op
    case SaveFinal(_, updates, p) => var between := SaveStores(d.history, x, updates, p);
    case Upsert(_, p, _) => UpsertStores(d.history, x, p);
    case PatchHistory(up, gone) => var between := PatchStores(d.history, up, gone, x);
  }

  lemma SavedTextStarts(first: Rows, log: seq<Event>, c: Id, x: Id)
    requires log != [] && Legal(first, log) && Last(log).Wrote? && Last(log).outcome == Stored && Last(log).req.chat == c
    requires PatchOf(Last(log).req.op, x).Some? && PatchOf(Last(log).req.op, x).value.content.Some?
    ensures HasMessage(first, log, c, x)
    ensures ContentAt(first, log, c, x) == PatchOf(Last(log).req.op, x).value.content.value
  {
    PatchSetsContent(Last(log).req.op, RowAt(first, Init(log), c).doc, x);
  }

  /**
   A final save, upsert or history patch stored with a text, in any interleaving: the message reads
   that text followed by the pieces appended since, in commit order.
   */
  lemma RunsSavedText(stripe: Stripes, s0: State, steps: seq<Step>, n: nat, c: Id, x: Id)
    requires IsInitial(s0) && IsRun(stripe, s0, steps)
    requires var log := EndState(stripe, s0, steps).log;
      && n < |log| && log[n].Wrote? && log[n].outcome == Stored && log[n].req.chat == c
      && PatchOf(log[n].req.op, x).Some? && PatchOf(log[n].req.op, x).value.content.Some?
      && NeverRewritten(log[n + 1..], c, x)
    ensures var s := EndState(stripe, s0, steps);
      && c in s.rows && x in s.rows[c].doc.history.messages
      && s.rows[c].doc.history.messages[x].content
         == PatchOf(s.log[n].req.op, x).value.content.value + Pieces(s.log[n + 1..], c, x)
  {
    RunsAreAtomic(stripe, s0, steps);
    var log := EndState(stripe, s0, steps).log;
    LegalPrefix(s0.rows, log, n);
    LegalPrefix(s0.rows, log, n + 1);
    assert Init(log[..n + 1]) == log[..n] && Last(log[..n + 1]) == log[n];
    SavedTextStarts(s0.rows, log[..n + 1], c, x);
    RunsAppendContent(stripe, s0, steps, n + 1, c, x);
  }

  // ---- Sending a turn again

  /** The write leaves a turn in place: its two messages, its text, its reply under it and current. */
  predicate LeavesTurn(op: Op, t: Turn)
    requires t.userId.Some? && t.assistantId.Some?
  {
    var u, a := t.userId.value, t.assistantId.value;
    match op
    case PutTurn(v) =>
      && (v.assistantId.None? || v.assistantId == t.assistantId)
      && (v.userId == t.userId ==> t.user.content == "" || v.user.content == "" || v.user.content == t.user.content)
    case PatchHistory(up, gone) =>
      && u !in gone && a !in gone && (t.user.parent.Some? ==> t.user.parent.value !in gone)
      && (u in up ==> (up[u].children.Some? ==> a in up[u].children.value)
                      && (t.user.content == "" || up[u].content == None || up[u].content == Some(t.user.content)))
    case AppendText(x, _) => x != u || t.user.content == ""
    case Upsert(x, _, _) => x == a
    case SaveFinal(x, _, _) => x == a
    case SetFields(_, newHistory, _, _) => newHistory.Some? ==> TurnInPlace(newHistory.value, t)
    case Replace(document, _) => TurnInPlace(document.history, t)
    case _ => true
  }

  lemma EditLeavesTurn(op: Op, d: Document, t: Turn)
    requires t.userId.Some? && t.assistantId.Some? && t.userId != t.assistantId
    requires TurnInPlace(d.history, t) && LeavesTurn(op, t) && Edit(op, d).Changed?
    ensures TurnInPlace(Edit(op, d).value.history, t)
  {
  }

  /** The chat is there and the turn in place. */
  ghost predicate HasTurn(first: Rows, log: seq<Event>, c: Id, t: Turn)
    requires t.userId.Some? && t.assistantId.Some?
  {
    HasRow(first, log, c) && TurnInPlace(RowAt(first, log, c).doc.history, t)
  }

  predicate NeverDisplaced(log: seq<Event>, c: Id, t: Turn)
    requires t.userId.Some? && t.assistantId.Some?
  {
    forall i :: 0 <= i < |log| ==>
      match log[i]
      case Wrote(_, req, outcome) => outcome == Stored && req.chat == c ==> LeavesTurn(req.op, t)
      case Inserted(_, _) => true
      case Removed(d) => d != c
  }

  lemma EventLeavesTurn(first: Rows, log: seq<Event>, c: Id, t: Turn)
    requires t.userId.Some? && t.assistantId.Some? && t.userId != t.assistantId
    requires log != [] && Legal(first, log) && HasTurn(first, Init(log), c, t) && NeverDisplaced([Last(log)], c, t)
    ensures HasTurn(first, log, c, t)
  {
    var e := Last(log);
    assert [e][0] == e;
    RowsAreUsed(first, Init(log));
    if e.Wrote? && e.outcome == Stored && e.req.chat == c && !IsRowWrite(e.req.op) {
      EditLeavesTurn(e.req.op, RowAt(first, Init(log), c).doc, t);
    }
  }

  lemma {:induction false} LogLeavesTurn(first: Rows, log: seq<Event>, n: nat, c: Id, t: Turn)
    requires t.userId.Some? && t.assistantId.Some? && t.userId != t.assistantId
    requires Legal(first, log) && n <= |log| && HasTurn(first, log[..n], c, t) && NeverDisplaced(log[n..], c, t)
    ensures HasTurn(first, log, c, t)
    decreases |log|
  {
    if n == |log| {
      assert log[..n] == log;
    } else {
      var since := log[n..];
      InitOfTail(log, n);
      assert forall i :: 0 <= i < |Init(since)| ==> Init(since)[i] == since[i];
      assert Last(since) == since[|since| - 1];
      LogLeavesTurn(first, Init(log), n, c, t);
      EventLeavesTurn(first, log, c, t);
    }
  }

  lemma TurnPutInPlace(first: Rows, log: seq<Event>, c: Id, t: Turn)
    requires t.userId.Some? && t.assistantId.Some? && t.userId != t.assistantId
    requires log != [] && Legal(first, log) && Last(log).Wrote? && Last(log).outcome == Stored
    requires Last(log).req.chat == c && Last(log).req.op == PutTurn(t)
    ensures HasTurn(first, log, c, t)
  {
    TurnTakesPlace(RowAt(first, Init(log), c).doc.history, t);
  }

  /** A turn in place, sent again without files, changes nothing: it is unchanged, or its revision is stale. */
  lemma ReplayDecided(t: Turn, req: Request, row: Row)
    requires t.userId.Some? && t.assistantId.Some? && t.userId != t.assistantId && t.user.files == []
    requires TurnInPlace(row.doc.history, t) && req.op == PutTurn(t)
    ensures Decide(req, row).Keeps? || Decide(req, row).Conflicts?
  {
  }

  /**
   A turn stored as entry n and sent again as entry m, in any interleaving, with any writes that
   leave it in place between: sent without files it stores nothing and raises nothing of its own.
   */
  lemma RunsReplayTurn(stripe: Stripes, s0: State, steps: seq<Step>, n: nat, m: nat, c: Id, t: Turn)
    requires IsInitial(s0) && IsRun(stripe, s0, steps)
    requires t.userId.Some? && t.assistantId.Some? && t.userId != t.assistantId && t.user.files == []
    requires var log := EndState(stripe, s0, steps).log;
      && n < m < |log| && NeverDisplaced(log[n + 1..m], c, t)
      && log[n].Wrote? && log[n].outcome == Stored && log[n].req.chat == c && log[n].req.op == PutTurn(t)
      && log[m].Wrote? && log[m].req.chat == c && log[m].req.op == PutTurn(t)
    ensures var outcome := EndState(stripe, s0, steps).log[m].outcome;
      outcome.Unchanged? || outcome.Conflict? || IsError(outcome)
  {
    RunsAreAtomic(stripe, s0, steps);
    var log := EndState(stripe, s0, steps).log;
    LegalPrefix(s0.rows, log, n + 1);
    LegalPrefix(s0.rows, log, m);
    assert Last(log[..n + 1]) == log[n];
    TurnPutInPlace(s0.rows, log[..n + 1], c, t);
    assert log[..m][..n + 1] == log[..n + 1] && log[..m][n + 1..] == log[n + 1..m];
    LogLeavesTurn(s0.rows, log[..m], n + 1, c, t);
    ReplayDecided(t, log[m].req, RowAt(s0.rows, log[..m], c));
  }

  // ---- Calls of a run

  /** In any interleaving, two calls that both stored a checked write to one chat expected different revisions. */
  lemma RunsStoreOncePerRevision(stripe: Stripes, s0: State, steps: seq<Step>, i: nat, j: nat)
    requires IsInitial(s0) && IsRun(stripe, s0, steps)
    requires var s := EndState(stripe, s0, steps);
      && i < |s.returned| && j < |s.returned| && i != j
      && s.returned[i].outcome == Stored && s.returned[j].outcome == Stored
      && s.returned[i].req.chat == s.returned[j].req.chat
      && ChecksRevision(s.returned[i].req.op) && ChecksRevision(s.returned[j].req.op)
      && s.returned[i].req.expected.Some? && s.returned[j].req.expected.Some?
    ensures var s := EndState(stripe, s0, steps);
      s.returned[i].req.expected != s.returned[j].req.expected
  {
    RunsAreAtomic(stripe, s0, steps);
    var s := EndState(stripe, s0, steps);
    var a, b := s.returned[i].at, s.returned[j].at;
    if a < b {
      OneStorePerRevision(s0.rows, s.log, a, b);
    } else {
      OneStorePerRevision(s0.rows, s.log, b, a);
    }
  }

  // ---- An error over a stored write

  /** From its prepared row a thread commits, the chat is deleted, and the read-back fails. */
  lemma CommitThenLost(stripe: Stripes, s: State, req: Request, next: Row) returns (steps: seq<Step>)
    requires PhaseOf(s, 0) == Ready(req, next) && req.chat in s.rows
    ensures IsRun(stripe, s, steps)
    ensures var e := EndState(stripe, s, steps);
      && e.log == s.log + [Wrote(0, req, Stored), Removed(req.chat)]
      && e.returned == s.returned + [Return(0, req, Lost, |s.log|, SinceOf(s, 0))]
  {
    var s1 := Take(stripe, s, Commit(0));
    var s2 := Take(stripe, s1, Remove(req.chat));
    var s3 := Take(stripe, s2, FailLate(0, Lost));
    OneMoreStep(stripe, s3, Release(0), []);
    OneMoreStep(stripe, s2, FailLate(0, Lost), [Release(0)] + []);
    OneMoreStep(stripe, s1, Remove(req.chat), [FailLate(0, Lost)] + ([Release(0)] + []));
    steps := [Remove(req.chat)] + ([FailLate(0, Lost)] + ([Release(0)] + []));
    OneMoreStep(stripe, s, Commit(0), steps);
    steps := [Commit(0)] + steps;
  }

  /** A chat deleted between a commit and its read-back: the write was stored, and its caller is told that it failed. */
  lemma StoredWriteToldLost(stripe: Stripes) returns (s0: State, steps: seq<Step>)
    ensures IsInitial(s0) && IsRun(stripe, s0, steps)
    ensures var s := EndState(stripe, s0, steps);
      |s.returned| == 1 && s.returned[0].outcome == Lost && s.returned[0].at < |s.log|
      && s.log[s.returned[0].at] == Wrote(0, s.returned[0].req, Stored)
  {
    var row := Row(Document(History(map[], None), None, map[]), "", Meta(NoRevision, {}));
    var req := Request("c", WriteColumns, None);
    s0 := State(map["c" := row], map[], map[], {"c"}, map[], [], []);
    var s1 := Take(stripe, s0, Start(0, req));
    var s2 := Take(stripe, s1, Acquire(0));
    var s3 := Take(stripe, s2, Load(0));
    var s4 := Take(stripe, s3, Apply(0));
    steps := CommitThenLost(stripe, s4, req, Decide(req, row).next);
    OneMoreStep(stripe, s3, Apply(0), steps);
    OneMoreStep(stripe, s2, Load(0), [Apply(0)] + steps);
    OneMoreStep(stripe, s1, Acquire(0), [Load(0)] + ([Apply(0)] + steps));
    steps := [Acquire(0)] + ([Load(0)] + ([Apply(0)] + steps));
    OneMoreStep(stripe, s0, Start(0, req), steps);
    steps := [Start(0, req)] + steps;
  }
}
