/**
 Invitations of backend/open_webui/models/invitations.py.  Tokens are minted fresh, and the hash
 is collision-free; only hashes are stored.
 */
module Invitations {
  import opened Basics

  type Token = string
  type Digest = string
  type Hash = Token -> Digest

  datatype Invitation = Invitation(
    email: string,
    kind: string,
    organization: Option<Id>,
    role: string,
    limit: Option<real>,
    tokenHash: Digest,
    createdBy: Id,
    accepted: bool)

  type Table = map<Id, Invitation>

  /** A token handed out for an invitation. */
  datatype Issued = Issued(token: Token, id: Id)

  /** The table, with the history of the tokens handed out for it. */
  datatype Desk = Desk(rows: Table, issued: seq<Issued>)

  /** What an invitation is for. */
  datatype Purpose = Purpose(email: string, kind: string, organization: Option<Id>)

  function PurposeOf(i: Invitation): Purpose {
    Purpose(i.email, i.kind, i.organization)
  }

  /** The organization the query of issue asks for: an empty id is looked up as null. */
  function AskedOrganization(organization: Option<Id>): Option<Id> {
    if organization == Some("") then None else organization
  }

  predicate Matches(i: Invitation, p: Purpose) {
    !i.accepted && PurposeOf(i) == Purpose(p.email, p.kind, AskedOrganization(p.organization))
  }

  function Candidates(rows: Table, p: Purpose): set<Id> {
    set x | x in rows && Matches(rows[x], p)
  }

  /** The row a query with .first() returns. */
  type Chooser = set<Id> -> Id

  ghost predicate Chooses(first: Chooser) {
    forall s: set<Id> :: s != {} ==> first(s) in s
  }

  /** The id issue writes to: the outstanding invitation it finds, or the fresh one. */
  function Target(rows: Table, p: Purpose, newId: Id, first: Chooser): Id {
    if Candidates(rows, p) == {} then newId else first(Candidates(rows, p))
  }

  /** A new row keeps the organization id it was given, even an empty one. */
  function IssuedRow(rows: Table, p: Purpose, role: string, limit: Option<real>, sender: Id, hashed: Digest, target: Id): Invitation {
    if Candidates(rows, p) != {} && target in rows
    then rows[target].(tokenHash := hashed, createdBy := sender, role := role, limit := limit)
    else Invitation(p.email, p.kind, p.organization, role, limit, hashed, sender, false)
  }

  function Issue(d: Desk, p: Purpose, role: string, limit: Option<real>, sender: Id,
                 token: Token, newId: Id, first: Chooser, hash: Hash): Desk {
    var target := Target(d.rows, p, newId, first);
    Desk(d.rows[target := IssuedRow(d.rows, p, role, limit, sender, hash(token), target)], d.issued + [Issued(token, target)])
  }

  predicate Outstanding(rows: Table, id: Id) {
    id in rows && !rows[id].accepted
  }

  /** resend: issue again for the same purpose, role and limit; None when there is nothing to resend. */
  function Resend(d: Desk, id: Id, sender: Id, token: Token, newId: Id, first: Chooser, hash: Hash): Option<Desk> {
    if !Outstanding(d.rows, id) then None
    else
      var i := d.rows[id];
      Some(Issue(d, PurposeOf(i), i.role, i.limit, sender, token, newId, first, hash))
  }

  function Cancel(d: Desk, id: Id): Desk {
    if Outstanding(d.rows, id) then d.(rows := d.rows - {id}) else d
  }

  function Accept(d: Desk, id: Id): Desk {
    if id in d.rows then d.(rows := d.rows[id := d.rows[id].(accepted := true)]) else d
  }

  // ---- What each operation does to the rows

  /** Every row but this one is as it was. */
  predicate SameRowsBut(before: Table, after: Table, id: Id) {
    && (forall x :: x in before && x != id ==> x in after && after[x] == before[x])
    && (forall x :: x in after && x != id ==> x in before)
  }

  /** The row stands outstanding for this purpose; an empty organization id is looked for as null. */
  predicate StandsFor(i: Invitation, p: Purpose) {
    && !i.accepted && i.email == p.email && i.kind == p.kind
    && i.organization == if p.organization == Some("") then None else p.organization
  }

  /**
   Issuing writes one row with the given role, limit, sender and token: a row found standing for the
   purpose, which keeps everything else, or a new one for the purpose as it was given.
   */
  lemma IssueExactly(d: Desk, p: Purpose, role: string, limit: Option<real>, sender: Id,
                     token: Token, newId: Id, first: Chooser, hash: Hash) returns (id: Id)
    requires Chooses(first)
    ensures var e := Issue(d, p, role, limit, sender, token, newId, first, hash);
      && e.issued == d.issued + [Issued(token, id)]
      && id in e.rows && SameRowsBut(d.rows, e.rows, id)
      && (if exists x :: x in d.rows && StandsFor(d.rows[x], p)
          then id in d.rows && StandsFor(d.rows[id], p)
               && e.rows[id] == d.rows[id].(role := role, limit := limit, createdBy := sender, tokenHash := hash(token))
          else id == newId
               && e.rows[id] == Invitation(p.email, p.kind, p.organization, role, limit, hash(token), sender, false))
  {
    id := Target(d.rows, p, newId, first);
    forall x | x in d.rows ensures x in Candidates(d.rows, p) <==> StandsFor(d.rows[x], p) {
    }
  }

  /** Resending issues again for the row's own purpose, with its own role and limit; there is nothing to resend unless it is outstanding. */
  lemma ResendExactly(d: Desk, id: Id, sender: Id, token: Token, newId: Id, first: Chooser, hash: Hash) returns (target: Id)
    requires Chooses(first)
    ensures Resend(d, id, sender, token, newId, first, hash).Some? <==> id in d.rows && !d.rows[id].accepted
    ensures id in d.rows && !d.rows[id].accepted ==>
      var e, row := Resend(d, id, sender, token, newId, first, hash).value, d.rows[id];
      && target in e.rows && SameRowsBut(d.rows, e.rows, target)
      && e.rows[target].email == row.email && e.rows[target].kind == row.kind && e.rows[target].role == row.role
      && e.rows[target].limit == row.limit && e.rows[target].createdBy == sender && !e.rows[target].accepted
      && e.rows[target].tokenHash == hash(token)
  {
    target := id;
    if id in d.rows && !d.rows[id].accepted {
      var i := d.rows[id];
      target := IssueExactly(d, PurposeOf(i), i.role, i.limit, sender, token, newId, first, hash);
    }
  }

  // ---- What is kept

  /** At most one outstanding invitation for each purpose. */
  ghost predicate OnePerPurpose(rows: Table) {
    forall a, b :: Outstanding(rows, a) && Outstanding(rows, b) && PurposeOf(rows[a]) == PurposeOf(rows[b]) ==> a == b
  }

  ghost predicate CollisionFree(hash: Hash) {
    forall a, b :: hash(a) == hash(b) ==> a == b
  }

  /** The place of the last token handed out for this invitation. */
  ghost predicate LastFor(issued: seq<Issued>, n: nat, id: Id) {
    n < |issued| && issued[n].id == id && forall m :: n < m < |issued| ==> issued[m].id != id
  }

  /** No token was handed out twice, and every row stores the hash of the last token handed out for it. */
  ghost predicate Tokened(d: Desk, hash: Hash) {
    && (forall m, n :: 0 <= m < n < |d.issued| ==> d.issued[m].token != d.issued[n].token)
    && (forall x :: x in d.rows ==> exists n: nat :: LastFor(d.issued, n, x) && d.rows[x].tokenHash == hash(d.issued[n].token))
  }

  predicate FreshToken(d: Desk, token: Token) {
    forall n :: 0 <= n < |d.issued| ==> d.issued[n].token != token
  }

  predicate FreshId(d: Desk, newId: Id) {
    newId !in d.rows && forall n :: 0 <= n < |d.issued| ==> d.issued[n].id != newId
  }

  /** The query finds the outstanding invitation for this purpose, if there is one. */
  predicate FindsIts(rows: Table, p: Purpose) {
    || p.organization != Some("")
    || Candidates(rows, p) != {}
    || forall x :: x in rows && !rows[x].accepted ==> PurposeOf(rows[x]) != p
  }

  /**
   Issuing keeps one outstanding invitation per purpose exactly when the organization id is not
   empty or nobody is invited under it yet: the query looks for null and never finds a row stored
   with an empty id.
   */
  lemma IssueKeepsOneExactly(d: Desk, p: Purpose, role: string, limit: Option<real>, sender: Id,
                             token: Token, newId: Id, first: Chooser, hash: Hash)
    requires OnePerPurpose(d.rows) && Chooses(first) && FreshId(d, newId)
    ensures OnePerPurpose(Issue(d, p, role, limit, sender, token, newId, first, hash).rows) <==> FindsIts(d.rows, p)
  {
    var r := Issue(d, p, role, limit, sender, token, newId, first, hash).rows;
    var target := Target(d.rows, p, newId, first);
    if Candidates(d.rows, p) != {} {
      assert target in Candidates(d.rows, p);
      assert forall x :: x in r ==> x in d.rows && PurposeOf(r[x]) == PurposeOf(d.rows[x]) && r[x].accepted == d.rows[x].accepted;
    } else {
      assert target == newId && PurposeOf(r[newId]) == p;
      if p.organization != Some("") {
        forall x | x in d.rows && !d.rows[x].accepted ensures PurposeOf(d.rows[x]) != p {
          assert x !in Candidates(d.rows, p);
        }
      }
      if x :| x in d.rows && !d.rows[x].accepted && PurposeOf(d.rows[x]) == p {
        assert r[x] == d.rows[x] && !r[x].accepted && !r[newId].accepted && x != newId;
      }
    }
  }

  /** Inviting one address twice under an empty organization id leaves two outstanding invitations. */
  lemma EmptyOrganizationDuplicates(first: Chooser, hash: Hash) returns (d: Desk)
    ensures d == Issue(Issue(Desk(map[], []), Purpose("a@b.org", "organization", Some("")), "user", None, "ann", "t1", "i1", first, hash),
                       Purpose("a@b.org", "organization", Some("")), "user", None, "ann", "t2", "i2", first, hash)
    ensures !OnePerPurpose(d.rows)
  {
    var p := Purpose("a@b.org", "organization", Some(""));
    var once := Issue(Desk(map[], []), p, "user", None, "ann", "t1", "i1", first, hash);
    assert Candidates(map[], p) == {};
    assert Candidates(once.rows, p) == {};
    d := Issue(once, p, "user", None, "ann", "t2", "i2", first, hash);
    assert Outstanding(d.rows, "i1") && Outstanding(d.rows, "i2");
  }

  lemma IssueKeepsTokens(d: Desk, p: Purpose, role: string, limit: Option<real>, sender: Id,
                         token: Token, newId: Id, first: Chooser, hash: Hash)
    requires Tokened(d, hash) && FreshToken(d, token) && FreshId(d, newId) && Chooses(first)
    ensures Tokened(Issue(d, p, role, limit, sender, token, newId, first, hash), hash)
  {
    var e := Issue(d, p, role, limit, sender, token, newId, first, hash);
    var target := Target(d.rows, p, newId, first);
    forall x | x in e.rows ensures exists n: nat :: LastFor(e.issued, n, x) && e.rows[x].tokenHash == hash(e.issued[n].token) {
      if x == target {
        assert LastFor(e.issued, |d.issued|, x);
      } else {
        var n: nat :| LastFor(d.issued, n, x) && d.rows[x].tokenHash == hash(d.issued[n].token);
        assert LastFor(e.issued, n, x);
      }
    }
  }

  // ---- Looking a token up

  function Holders(rows: Table, hashed: Digest): set<Id> {
    set x | x in rows && rows[x].tokenHash == hashed
  }

  /** get_by_token: the row found by hash, checked against the token once more. */
  function GetByToken(rows: Table, token: Token, first: Chooser, hash: Hash): Option<Id> {
    var found := Holders(rows, hash(token));
    if found == {} then None
    else if first(found) in rows && rows[first(found)].tokenHash == hash(token) then Some(first(found))
    else None
  }

  /** A token opens an invitation exactly when it is the last one handed out for it and the invitation still exists. */
  lemma OnlyLastTokenOpens(d: Desk, n: nat, first: Chooser, hash: Hash)
    requires Tokened(d, hash) && CollisionFree(hash) && Chooses(first) && n < |d.issued|
    ensures var i := d.issued[n];
      GetByToken(d.rows, i.token, first, hash) == if LastFor(d.issued, n, i.id) && i.id in d.rows then Some(i.id) else None
  {
    var i := d.issued[n];
    var found := Holders(d.rows, hash(i.token));
    forall x | x in found ensures x == i.id && LastFor(d.issued, n, x) {
      var m: nat :| LastFor(d.issued, m, x) && d.rows[x].tokenHash == hash(d.issued[m].token);
      assert d.issued[m].token == i.token;
      assert m == n;
    }
    if LastFor(d.issued, n, i.id) && i.id in d.rows {
      var m: nat :| LastFor(d.issued, m, i.id) && d.rows[i.id].tokenHash == hash(d.issued[m].token);
      assert m == n;
      assert i.id in found;
    }
  }

  /** A token never handed out opens nothing. */
  lemma UnknownTokenOpensNothing(d: Desk, token: Token, first: Chooser, hash: Hash)
    requires Tokened(d, hash) && CollisionFree(hash) && Chooses(first) && FreshToken(d, token)
    ensures GetByToken(d.rows, token, first, hash) == None
  {
    forall x | x in d.rows ensures d.rows[x].tokenHash != hash(token) {
      var m: nat :| LastFor(d.issued, m, x) && d.rows[x].tokenHash == hash(d.issued[m].token);
    }
  }

  /** Resending keeps the invitation's id, and so replaces its token, unless its organization id is empty. */
  lemma ResendKeepsId(d: Desk, id: Id, sender: Id, token: Token, newId: Id, first: Chooser, hash: Hash)
    requires OnePerPurpose(d.rows) && Chooses(first) && FreshId(d, newId) && Outstanding(d.rows, id)
    ensures var e := Resend(d, id, sender, token, newId, first, hash);
      && e.Some? && e.value.issued == d.issued + [Issued(token, e.value.issued[|d.issued|].id)]
      && (e.value.issued[|d.issued|].id == id <==> d.rows[id].organization != Some(""))
  {
    var p := PurposeOf(d.rows[id]);
    if d.rows[id].organization != Some("") {
      assert id in Candidates(d.rows, p);
      forall x | x in Candidates(d.rows, p) ensures x == id {
      }
      assert Candidates(d.rows, p) == {id};
    } else if Candidates(d.rows, p) != {} {
      assert first(Candidates(d.rows, p)) in Candidates(d.rows, p);
    }
  }

  // ---- Whole runs

  /** Each command carries the choice its own query makes. */
  datatype Command =
    | DoIssue(purpose: Purpose, role: string, limit: Option<real>, sender: Id, token: Token, newId: Id, first: Chooser)
    | DoResend(id: Id, sender: Id, token: Token, newId: Id, first: Chooser)
    | DoCancel(id: Id)
    | DoAccept(id: Id)

  function Execute(d: Desk, c: Command, hash: Hash): Desk {
    match c
    case DoIssue(p, role, limit, sender, token, newId, first) => Issue(d, p, role, limit, sender, token, newId, first, hash)
    case DoResend(id, sender, token, newId, first) => Or(Resend(d, id, sender, token, newId, first, hash), d)
    case DoCancel(id) => Cancel(d, id)
    case DoAccept(id) => Accept(d, id)
  }

  /** The tokens and ids a command mints are fresh, and its query picks one of the rows it finds. */
  ghost predicate Proper(d: Desk, c: Command) {
    match c
    case DoIssue(_, _, _, _, token, newId, first) => FreshToken(d, token) && FreshId(d, newId) && Chooses(first)
    case DoResend(_, _, token, newId, first) => FreshToken(d, token) && FreshId(d, newId) && Chooses(first)
    case _ => true
  }

  ghost predicate AllProper(d: Desk, cs: seq<Command>, hash: Hash)
    decreases |cs|
  {
    |cs| > 0 ==> Proper(d, cs[0]) && AllProper(Execute(d, cs[0], hash), cs[1..], hash)
  }

  function ExecuteAll(d: Desk, cs: seq<Command>, hash: Hash): Desk
    decreases |cs|
  {
    if |cs| == 0 then d else ExecuteAll(Execute(d, cs[0], hash), cs[1..], hash)
  }

  lemma CommandKeepsTokens(d: Desk, c: Command, hash: Hash)
    requires Tokened(d, hash) && Proper(d, c)
    ensures Tokened(Execute(d, c, hash), hash)
  {
    match c
    case DoIssue(p, role, limit, sender, token, newId, first) =>
      IssueKeepsTokens(d, p, role, limit, sender, token, newId, first, hash);
    case DoResend(id, sender, token, newId, first) =>
      if Outstanding(d.rows, id) {
        var i := d.rows[id];
        IssueKeepsTokens(d, PurposeOf(i), i.role, i.limit, sender, token, newId, first, hash);
      }
    case _ =>
  }

  lemma {:induction false} RunKeepsTokens(d: Desk, cs: seq<Command>, hash: Hash)
    requires Tokened(d, hash) && AllProper(d, cs, hash)
    ensures Tokened(ExecuteAll(d, cs, hash), hash)
    decreases |cs|
  {
    if |cs| > 0 {
      CommandKeepsTokens(d, cs[0], hash);
      RunKeepsTokens(Execute(d, cs[0], hash), cs[1..], hash);
    }
  }

  /** What the command issues, if anything, is found when it is outstanding already. */
  predicate FindsWhatItIssues(d: Desk, c: Command) {
    match c
    case DoIssue(p, _, _, _, _, _, _) => FindsIts(d.rows, p)
    case DoResend(id, _, _, _, _) => Outstanding(d.rows, id) ==> FindsIts(d.rows, PurposeOf(d.rows[id]))
    case _ => true
  }

  lemma CommandKeepsOneExactly(d: Desk, c: Command, hash: Hash)
    requires OnePerPurpose(d.rows) && Proper(d, c)
    ensures OnePerPurpose(Execute(d, c, hash).rows) <==> FindsWhatItIssues(d, c)
  {
    match c
    case DoIssue(p, role, limit, sender, token, newId, first) =>
      IssueKeepsOneExactly(d, p, role, limit, sender, token, newId, first, hash);
    case DoResend(id, sender, token, newId, first) =>
      if Outstanding(d.rows, id) {
        var i := d.rows[id];
        IssueKeepsOneExactly(d, PurposeOf(i), i.role, i.limit, sender, token, newId, first, hash);
      }
    case DoCancel(id) =>
    case DoAccept(id) =>
      forall a, b | Outstanding(Accept(d, id).rows, a) && Outstanding(Accept(d, id).rows, b)
        && PurposeOf(Accept(d, id).rows[a]) == PurposeOf(Accept(d, id).rows[b])
        ensures a == b
      {
        assert Outstanding(d.rows, a) && Outstanding(d.rows, b);
      }
  }

  predicate AllFind(d: Desk, cs: seq<Command>, hash: Hash)
    decreases |cs|
  {
    |cs| > 0 ==> FindsWhatItIssues(d, cs[0]) && AllFind(Execute(d, cs[0], hash), cs[1..], hash)
  }

  /** At most one invitation is outstanding per purpose, at the start of the run and after every command. */
  ghost predicate AlwaysOne(d: Desk, cs: seq<Command>, hash: Hash)
    decreases |cs|
  {
    OnePerPurpose(d.rows) && (|cs| > 0 ==> AlwaysOne(Execute(d, cs[0], hash), cs[1..], hash))
  }

  /** Over any run there is at most one outstanding invitation per purpose at every moment exactly when each command finds what it issues. */
  lemma {:induction false} RunKeepsOneExactly(d: Desk, cs: seq<Command>, hash: Hash)
    requires OnePerPurpose(d.rows) && AllProper(d, cs, hash)
    ensures AlwaysOne(d, cs, hash) <==> AllFind(d, cs, hash)
    decreases |cs|
  {
    if |cs| > 0 {
      var next := Execute(d, cs[0], hash);
      CommandKeepsOneExactly(d, cs[0], hash);
      if OnePerPurpose(next.rows) {
        RunKeepsOneExactly(next, cs[1..], hash);
      } else {
        assert !AlwaysOne(next, cs[1..], hash);
      }
    }
  }

  /** No command invites under an empty organization id. */
  predicate NoEmptyOrganization(cs: seq<Command>) {
    forall n :: 0 <= n < |cs| && cs[n].DoIssue? ==> cs[n].purpose.organization != Some("")
  }

  predicate NoneEmpty(rows: Table) {
    forall x :: x in rows ==> rows[x].organization != Some("")
  }

  /** Without empty organization ids every command finds what it issues. */
  lemma {:induction false} NonEmptyIdsAreFound(d: Desk, cs: seq<Command>, hash: Hash)
    requires NoneEmpty(d.rows) && NoEmptyOrganization(cs)
    ensures AllFind(d, cs, hash)
    decreases |cs|
  {
    if |cs| > 0 {
      assert cs[0].DoIssue? ==> cs[0].purpose.organization != Some("");
      assert forall n :: 0 <= n < |cs[1..]| ==> cs[1..][n] == cs[n + 1];
      NonEmptyIdsAreFound(Execute(d, cs[0], hash), cs[1..], hash);
    }
  }

  /**
   After any run a token handed out during it opens an invitation exactly when it was the last one
   for that invitation and the invitation is still there; and at most one invitation was ever
   outstanding per purpose exactly when each command found what it issued, as it does when no
   organization id was empty.
   */
  lemma RunTokens(cs: seq<Command>, n: nat, first: Chooser, hash: Hash)
    requires Chooses(first) && CollisionFree(hash) && AllProper(Desk(map[], []), cs, hash)
    requires n < |ExecuteAll(Desk(map[], []), cs, hash).issued|
    ensures var d := ExecuteAll(Desk(map[], []), cs, hash);
      && (AlwaysOne(Desk(map[], []), cs, hash) <==> AllFind(Desk(map[], []), cs, hash))
      && (NoEmptyOrganization(cs) ==> AllFind(Desk(map[], []), cs, hash))
      && (GetByToken(d.rows, d.issued[n].token, first, hash)
          == if LastFor(d.issued, n, d.issued[n].id) && d.issued[n].id in d.rows then Some(d.issued[n].id) else None)
  {
    RunKeepsOneExactly(Desk(map[], []), cs, hash);
    if NoEmptyOrganization(cs) {
      NonEmptyIdsAreFound(Desk(map[], []), cs, hash);
    }
    RunKeepsTokens(Desk(map[], []), cs, hash);
    OnlyLastTokenOpens(ExecuteAll(Desk(map[], []), cs, hash), n, first, hash);
  }

  // ---- The table, step by step

  class InvitationTable {
    var rows: Table
    ghost var issued: seq<Issued>

    ghost function Value(): Desk
      reads this
    {
      Desk(rows, issued)
    }

    method IssueInvitation(p: Purpose, role: string, limit: Option<real>, sender: Id, token: Token, newId: Id,
                           first: Chooser, hash: Hash) returns (id: Id)
      requires Chooses(first)
      modifies this
      ensures Value() == Issue(old(Value()), p, role, limit, sender, token, newId, first, hash)
      ensures issued == old(issued) + [Issued(token, id)]
      ensures id in rows && SameRowsBut(old(rows), rows, id)
      ensures rows[id].email == p.email && rows[id].kind == p.kind && rows[id].role == role && rows[id].limit == limit
      ensures rows[id].createdBy == sender && rows[id].tokenHash == hash(token) && !rows[id].accepted
    {
      var organization := if p.organization.Some? && p.organization.value != "" then p.organization else None;
      var found := set x | x in rows && !rows[x].accepted && rows[x].email == p.email
                           && rows[x].kind == p.kind && rows[x].organization == organization;
      assert found == Candidates(rows, p);
      if found != {} {
        id := first(found);
        var row := rows[id];
        row := row.(tokenHash := hash(token));
        row := row.(createdBy := sender);
        row := row.(role := role);
        row := row.(limit := limit);
        rows := rows[id := row];
      } else {
        id := newId;
        rows := rows[id := Invitation(p.email, p.kind, p.organization, role, limit, hash(token), sender, false)];
      }
      issued := issued + [Issued(token, id)];
    }

    method ResendInvitation(id: Id, sender: Id, token: Token, newId: Id, first: Chooser, hash: Hash) returns (sent: bool)
      requires Chooses(first)
      modifies this
      ensures sent <==> Outstanding(old(rows), id)
      ensures Value() == Execute(old(Value()), DoResend(id, sender, token, newId, first), hash)
    {
      if id !in rows || rows[id].accepted {
        return false;
      }
      var row := rows[id];
      var target := IssueInvitation(Purpose(row.email, row.kind, row.organization), row.role, row.limit, sender,
                                    token, newId, first, hash);
      sent := true;
    }

    method CancelInvitation(id: Id) returns (gone: bool)
      modifies this`rows
      ensures gone <==> Outstanding(old(rows), id)
      ensures Value() == Cancel(old(Value()), id)
      ensures gone ==> id !in rows && SameRowsBut(old(rows), rows, id)
      ensures !gone ==> rows == old(rows)
    {
      gone := id in rows && !rows[id].accepted;
      if gone {
        rows := rows - {id};
      }
    }

    method MarkAccepted(id: Id) returns (found: bool)
      modifies this`rows
      ensures found <==> id in old(rows)
      ensures Value() == Accept(old(Value()), id)
      ensures found ==> id in rows && rows[id] == old(rows)[id].(accepted := true) && !Outstanding(rows, id)
      ensures SameRowsBut(old(rows), rows, id) && (!found ==> rows == old(rows))
    {
      found := id in rows;
      if found {
        rows := rows[id := rows[id].(accepted := true)];
      }
    }
  }
}
