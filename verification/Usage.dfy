/**
 Usage accounting of backend/open_webui/models/usage.py: an event log, a running total for each
 user's month, and a total for the organization's month kept in the same table under the empty
 user id.
 */
module Usage {
  import opened Basics

  /** What a provider reports.  Opaque values are those int() and float() reject. */
  datatype Json =
    | Null
    | Num(n: int)
    | Opaque(truthy: bool)
    | Obj(fields: map<string, Json>)

  type Report = map<string, Json>

  datatype Tokens = Tokens(prompt: int, completion: int, total: int, cached: int, uncached: int, cost: real)

  const ZERO := Tokens(0, 0, 0, 0, 0, 0.0)

  function Plus(a: Tokens, b: Tokens): Tokens {
    Tokens(a.prompt + b.prompt, a.completion + b.completion, a.total + b.total,
           a.cached + b.cached, a.uncached + b.uncached, a.cost + b.cost)
  }

  // ---- parse_provider_usage

  function Max0(n: int): nat {
    if n < 0 then 0 else n
  }

  /** _as_int: null or unreadable gives the default; a number is cut off at 0. */
  function AsInt(value: Option<Json>, default: int): int {
    match value
    case Some(Num(n)) => Max0(n)
    case _ => default
  }

  /** dict.get with a chain of fallback keys: the first key present wins, even when it holds null. */
  function FirstOf(report: Report, keys: seq<string>): Option<Json>
    decreases |keys|
  {
    if keys == [] then None
    else if keys[0] in report then Some(report[keys[0]])
    else FirstOf(report, keys[1..])
  }

  predicate Truthy(value: Json) {
    match value
    case Null => false
    case Num(n) => n != 0
    case Opaque(truthy) => truthy
    case Obj(fields) => fields != map[]
  }

  /** The first truthy detail object; anything else counts as no details. */
  function DetailsOf(report: Report): Report {
    var first := FirstOf(report, ["prompt_tokens_details"]);
    var second := FirstOf(report, ["input_tokens_details"]);
    var chosen := if first.Some? && Truthy(first.value) then first else second;
    if chosen.Some? && chosen.value.Obj? then chosen.value.fields else map[]
  }

  function ParseTokens(report: Report, cost: real): Tokens {
    var prompt := AsInt(FirstOf(report, ["prompt_tokens", "input_tokens", "promptTokens"]), 0);
    var completion := AsInt(FirstOf(report, ["completion_tokens", "output_tokens", "completionTokens"]), 0);
    var total := AsInt(FirstOf(report, ["total_tokens", "totalTokens"]), prompt + completion);
    var cached := AsInt(FirstOf(DetailsOf(report), ["cached_tokens", "cachedTokens"]), 0);
    Tokens(prompt, completion, total, cached, Max0(prompt - cached), cost)
  }

  // ---- What a report says

  predicate FirstKey(report: Report, keys: seq<string>, i: nat) {
    i < |keys| && keys[i] in report && forall j :: 0 <= j < i ==> keys[j] !in report
  }

  /**
   n is what this group of keys says: the first key present decides, a number below 0 counting as
   0, and null or a value that is no number giving the default; so does a group without a key.
   */
  predicate Says(report: Report, keys: seq<string>, default: int, n: int) {
    && ((forall i :: 0 <= i < |keys| ==> keys[i] !in report) ==> n == default)
    && forall i :: 0 <= i < |keys| && FirstKey(report, keys, i) ==>
         && (report[keys[i]].Num? && report[keys[i]].n >= 0 ==> n == report[keys[i]].n)
         && (report[keys[i]].Num? && report[keys[i]].n < 0 ==> n == 0)
         && (!report[keys[i]].Num? ==> n == default)
  }

  lemma {:induction false} FirstOfIsFirst(report: Report, keys: seq<string>)
    ensures (forall i :: 0 <= i < |keys| ==> keys[i] !in report) ==> FirstOf(report, keys) == None
    ensures forall i :: 0 <= i < |keys| && FirstKey(report, keys, i) ==> FirstOf(report, keys) == Some(report[keys[i]])
    decreases |keys|
  {
    if keys != [] {
      var rest := keys[1..];
      assert forall i :: 0 <= i < |rest| ==> rest[i] == keys[i + 1];
      FirstOfIsFirst(report, rest);
      forall i | 0 <= i < |keys| && FirstKey(report, keys, i) ensures FirstOf(report, keys) == Some(report[keys[i]]) {
        assert i > 0 ==> FirstKey(report, rest, i - 1);
      }
    }
  }

  lemma GroupSays(report: Report, keys: seq<string>, default: int)
    ensures Says(report, keys, default, AsInt(FirstOf(report, keys), default))
  {
    FirstOfIsFirst(report, keys);
  }

  /** The report holds an object under this key that Python calls true. */
  predicate HasDetails(report: Report, key: string) {
    key in report && report[key].Obj? && report[key].fields != map[]
  }

  /** The key holds something true that is no object: the details then count as none. */
  predicate HidesDetails(report: Report, key: string) {
    key in report && ((report[key].Num? && report[key].n != 0) || (report[key].Opaque? && report[key].truthy))
  }

  /** The details of the prompt are those of the first spelling that holds something; anything but an object is no details. */
  lemma DetailsExactly(report: Report)
    ensures HasDetails(report, "prompt_tokens_details") ==> DetailsOf(report) == report["prompt_tokens_details"].fields
    ensures HidesDetails(report, "prompt_tokens_details") ==> DetailsOf(report) == map[]
    ensures !HasDetails(report, "prompt_tokens_details") && !HidesDetails(report, "prompt_tokens_details") ==>
      DetailsOf(report) == if HasDetails(report, "input_tokens_details") then report["input_tokens_details"].fields else map[]
  {
    assert ["prompt_tokens_details"][1..] == [] && ["input_tokens_details"][1..] == [];
  }

  /** Which reported number becomes which count. */
  lemma ParsedCounts(report: Report, cost: real)
    ensures var t := ParseTokens(report, cost);
      && Says(report, ["prompt_tokens", "input_tokens", "promptTokens"], 0, t.prompt)
      && Says(report, ["completion_tokens", "output_tokens", "completionTokens"], 0, t.completion)
      && Says(report, ["total_tokens", "totalTokens"], t.prompt + t.completion, t.total)
      && Says(DetailsOf(report), ["cached_tokens", "cachedTokens"], 0, t.cached)
      && t.uncached == (if t.cached <= t.prompt then t.prompt - t.cached else 0)
      && t.cost == cost
  {
    var t := ParseTokens(report, cost);
    GroupSays(report, ["prompt_tokens", "input_tokens", "promptTokens"], 0);
    GroupSays(report, ["completion_tokens", "output_tokens", "completionTokens"], 0);
    GroupSays(report, ["total_tokens", "totalTokens"], t.prompt + t.completion);
    GroupSays(DetailsOf(report), ["cached_tokens", "cachedTokens"], 0);
  }

  /** A report with the usual two numbers, and a total and cached part when it names them. */
  lemma UsualReport(report: Report, cost: real, prompt: nat, completion: nat)
    requires "prompt_tokens" in report && report["prompt_tokens"] == Num(prompt)
    requires "completion_tokens" in report && report["completion_tokens"] == Num(completion)
    ensures var t := ParseTokens(report, cost);
      && t.prompt == prompt && t.completion == completion
      && ("total_tokens" !in report && "totalTokens" !in report ==> t.total == prompt + completion)
      && ("total_tokens" in report && report["total_tokens"].Num? && report["total_tokens"].n >= 0 ==>
           t.total == report["total_tokens"].n)
      && ("prompt_tokens_details" !in report && "input_tokens_details" !in report ==> t.cached == 0 && t.uncached == prompt)
  {
    ParsedCounts(report, cost);
    DetailsExactly(report);
    assert FirstKey(report, ["prompt_tokens", "input_tokens", "promptTokens"], 0);
    assert FirstKey(report, ["completion_tokens", "output_tokens", "completionTokens"], 0);
    assert "total_tokens" in report ==> FirstKey(report, ["total_tokens", "totalTokens"], 0);
  }

  // ---- Events and months

  datatype Event = Event(organization: Id, user: Id, period: string, tokens: Tokens)

  datatype Key = Key(organization: Id, user: Id, period: string)

  const TOTAL_USER: Id := ""

  type Months = map<Key, Tokens>

  datatype Books = Books(events: seq<Event>, months: Months)

  /** _bump_month: a first event makes the row, later ones add to it. */
  function Bump(months: Months, key: Key, tokens: Tokens): Months {
    months[key := if key in months then Plus(months[key], tokens) else tokens]
  }

  /** The event belongs to the row: its user's month, or its organization's total. */
  predicate CountsIn(e: Event, key: Key) {
    e.organization == key.organization && e.period == key.period && (key.user == TOTAL_USER || e.user == key.user)
  }

  function Sum(events: seq<Event>, key: Key): Tokens
    decreases |events|
  {
    if events == [] then ZERO
    else
      var e := events[|events| - 1];
      var before := Sum(events[..|events| - 1], key);
      if CountsIn(e, key) then Plus(before, e.tokens) else before
  }

  predicate Active(events: seq<Event>, key: Key) {
    exists i :: 0 <= i < |events| && CountsIn(events[i], key)
  }

  // ---- What every reachable set of books keeps

  /** No event belongs to the empty user, and a row holds the sum of its events or does not exist. */
  ghost predicate Balanced(b: Books) {
    && (forall i :: 0 <= i < |b.events| ==> b.events[i].user != TOTAL_USER)
    && (forall key :: key in b.months <==> Active(b.events, key))
    && (forall key :: key in b.months ==> b.months[key] == Sum(b.events, key))
  }

  /** uncached <= prompt <= cached + uncached, with every count at least 0. */
  predicate Consistent(t: Tokens) {
    && 0 <= t.cached && 0 <= t.completion && 0 <= t.total
    && 0 <= t.uncached <= t.prompt <= t.cached + t.uncached
  }

  ghost predicate AllConsistent(b: Books) {
    forall i :: 0 <= i < |b.events| ==> Consistent(b.events[i].tokens)
  }

  function Record(b: Books, e: Event): Books {
    Books(b.events + [e],
          Bump(Bump(b.months, Key(e.organization, e.user, e.period), e.tokens),
               Key(e.organization, TOTAL_USER, e.period), e.tokens))
  }

  function Outside(events: seq<Event>, organization: Id): seq<Event>
    decreases |events|
  {
    if events == [] then []
    else
      var e := events[|events| - 1];
      Outside(events[..|events| - 1], organization) + (if e.organization == organization then [] else [e])
  }

  function DropOrganization(b: Books, organization: Id): Books {
    Books(Outside(b.events, organization), map key | key in b.months && key.organization != organization :: b.months[key])
  }

  /** Every count of the row is greater by the event's, a missing row counting as zeroes. */
  predicate RaisedBy(before: Months, after: Months, key: Key, t: Tokens) {
    && key in after
    && after[key].prompt == (if key in before then before[key].prompt else 0) + t.prompt
    && after[key].completion == (if key in before then before[key].completion else 0) + t.completion
    && after[key].total == (if key in before then before[key].total else 0) + t.total
    && after[key].cached == (if key in before then before[key].cached else 0) + t.cached
    && after[key].uncached == (if key in before then before[key].uncached else 0) + t.uncached
    && after[key].cost == (if key in before then before[key].cost else 0.0) + t.cost
  }

  predicate SameBut(before: Months, after: Months, keys: set<Key>) {
    after.Keys == before.Keys + keys && forall key :: key in before && key !in keys ==> after[key] == before[key]
  }

  /** Recording raises the user's month and the organization's total by the event's counts, and no other row. */
  lemma RecordRaises(b: Books, e: Event)
    requires e.user != TOTAL_USER
    ensures var r := Record(b, e); var mine, all := Key(e.organization, e.user, e.period), Key(e.organization, "", e.period);
      && r.events == b.events + [e]
      && RaisedBy(b.months, r.months, mine, e.tokens) && RaisedBy(b.months, r.months, all, e.tokens)
      && SameBut(b.months, r.months, {mine, all})
  {
  }

  lemma ParseIsConsistent(report: Report, cost: real)
    ensures Consistent(ParseTokens(report, cost))
  {
    assert AsInt(FirstOf(report, ["prompt_tokens", "input_tokens", "promptTokens"]), 0) >= 0;
  }

  lemma ActiveGrows(events: seq<Event>, e: Event, key: Key)
    ensures Active(events + [e], key) <==> Active(events, key) || CountsIn(e, key)
  {
    assert (events + [e])[|events|] == e;
    if Active(events, key) {
      var i :| 0 <= i < |events| && CountsIn(events[i], key);
      assert CountsIn((events + [e])[i], key);
    }
    if Active(events + [e], key) && !CountsIn(e, key) {
      var i :| 0 <= i < |events + [e]| && CountsIn((events + [e])[i], key);
      assert CountsIn(events[i], key);
    }
  }

  lemma {:induction false} InactiveSum(events: seq<Event>, key: Key)
    requires !Active(events, key)
    ensures Sum(events, key) == ZERO
    decreases |events|
  {
    if events != [] {
      var n := |events| - 1;
      assert events == events[..n] + [events[n]];
      ActiveGrows(events[..n], events[n], key);
      InactiveSum(events[..n], key);
    }
  }

  lemma RecordKeepsRow(b: Books, e: Event, key: Key)
    requires Balanced(b) && e.user != TOTAL_USER
    ensures var r := Record(b, e);
      && (key in r.months <==> Active(r.events, key))
      && (key in r.months ==> r.months[key] == Sum(r.events, key))
  {
    ActiveGrows(b.events, e, key);
    assert Record(b, e).events[..|b.events|] == b.events;
    if key !in b.months {
      InactiveSum(b.events, key);
    }
  }

  /** Recording an event of a real user keeps the books balanced, the user's row and the total alike. */
  lemma RecordKeepsBalance(b: Books, e: Event)
    requires Balanced(b) && e.user != TOTAL_USER
    ensures Balanced(Record(b, e))
  {
    var r := Record(b, e);
    forall key ensures (key in r.months <==> Active(r.events, key)) && (key in r.months ==> r.months[key] == Sum(r.events, key)) {
      RecordKeepsRow(b, e, key);
    }
  }

  lemma {:induction false} OutsideSum(events: seq<Event>, organization: Id, key: Key)
    ensures Sum(Outside(events, organization), key) == if key.organization == organization then ZERO else Sum(events, key)
    decreases |events|
  {
    if events != [] {
      var n := |events| - 1;
      var e, less := events[n], Outside(events[..n], organization);
      OutsideSum(events[..n], organization, key);
      assert (less + [e])[..|less|] == less;
      assert less + [] == less;
    }
  }

  lemma {:induction false} OutsideMembers(events: seq<Event>, organization: Id)
    ensures forall e :: e in Outside(events, organization) <==> e in events && e.organization != organization
    decreases |events|
  {
    if events != [] {
      OutsideMembers(events[..|events| - 1], organization);
      assert events == events[..|events| - 1] + [events[|events| - 1]];
    }
  }

  /** What stays of the log stays in order and as often as it was. */
  lemma {:induction false} OutsideInOrder(a: seq<Event>, b: seq<Event>, organization: Id)
    ensures Outside(a + b, organization) == Outside(a, organization) + Outside(b, organization)
    decreases |b|
  {
    if b == [] {
      assert a + b == a;
    } else {
      var n := |b| - 1;
      assert (a + b)[..|a| + n] == a + b[..n] && (a + b)[|a| + n] == b[n];
      OutsideInOrder(a, b[..n], organization);
    }
  }

  lemma ActiveOutside(events: seq<Event>, organization: Id, key: Key)
    ensures Active(Outside(events, organization), key) <==> key.organization != organization && Active(events, key)
  {
    OutsideMembers(events, organization);
    if Active(Outside(events, organization), key) {
      var i :| 0 <= i < |Outside(events, organization)| && CountsIn(Outside(events, organization)[i], key);
      assert Outside(events, organization)[i] in events;
    }
    if key.organization != organization && Active(events, key) {
      var i :| 0 <= i < |events| && CountsIn(events[i], key);
      assert events[i] in Outside(events, organization);
    }
  }

  lemma DropKeepsBalance(b: Books, organization: Id)
    requires Balanced(b)
    ensures Balanced(DropOrganization(b, organization))
  {
    var r := DropOrganization(b, organization);
    OutsideMembers(b.events, organization);
    assert forall i :: 0 <= i < |r.events| ==> r.events[i] in b.events;
    forall key ensures (key in r.months <==> Active(r.events, key)) && (key in r.months ==> r.months[key] == Sum(r.events, key)) {
      OutsideSum(b.events, organization, key);
      ActiveOutside(b.events, organization, key);
    }
  }

  // ---- The organization total is the sum of its users' rows

  function RowSum(months: Months, organization: Id, period: string, users: seq<Id>): Tokens
    decreases |users|
  {
    if users == [] then ZERO
    else
      var key := Key(organization, users[0], period);
      Plus(if key in months then months[key] else ZERO, RowSum(months, organization, period, users[1..]))
  }

  function EventSum(events: seq<Event>, organization: Id, period: string, users: seq<Id>): Tokens
    decreases |users|
  {
    if users == [] then ZERO
    else Plus(Sum(events, Key(organization, users[0], period)), EventSum(events, organization, period, users[1..]))
  }

  predicate InMonth(e: Event, organization: Id, period: string) {
    e.organization == organization && e.period == period
  }

  /** One more event adds to the sum of exactly one listed user, or of none. */
  lemma {:induction false} EventSumGrows(events: seq<Event>, organization: Id, period: string, users: seq<Id>)
    requires events != [] && TOTAL_USER !in users
    requires NoRepeats(users)
    ensures var e := events[|events| - 1];
      EventSum(events, organization, period, users)
      == if InMonth(e, organization, period) && e.user in users
         then Plus(EventSum(events[..|events| - 1], organization, period, users), e.tokens)
         else EventSum(events[..|events| - 1], organization, period, users)
    decreases |users|
  {
    if users != [] {
      EventSumGrows(events, organization, period, users[1..]);
      assert forall j :: 0 <= j < |users[1..]| ==> users[1..][j] == users[j + 1];
      assert users[0] !in users[1..];
    }
  }

  lemma {:induction false} EventsPartition(events: seq<Event>, organization: Id, period: string, users: seq<Id>)
    requires TOTAL_USER !in users
    requires NoRepeats(users)
    requires forall i :: 0 <= i < |events| && InMonth(events[i], organization, period) ==> events[i].user in users
    ensures EventSum(events, organization, period, users) == Sum(events, Key(organization, TOTAL_USER, period))
    decreases |events|
  {
    if events == [] {
      EmptyEventSum(organization, period, users);
    } else {
      EventSumGrows(events, organization, period, users);
      EventsPartition(events[..|events| - 1], organization, period, users);
    }
  }

  lemma {:induction false} EmptyEventSum(organization: Id, period: string, users: seq<Id>)
    ensures EventSum([], organization, period, users) == ZERO
    decreases |users|
  {
    if users != [] {
      EmptyEventSum(organization, period, users[1..]);
    }
  }

  lemma {:induction false} RowsAreEvents(b: Books, organization: Id, period: string, users: seq<Id>)
    requires Balanced(b)
    ensures RowSum(b.months, organization, period, users) == EventSum(b.events, organization, period, users)
    decreases |users|
  {
    if users != [] {
      RowsAreEvents(b, organization, period, users[1..]);
      var key := Key(organization, users[0], period);
      if key !in b.months {
        InactiveSum(b.events, key);
      }
    }
  }

  /**
   The organization's total for a month is the sum of the rows of its users, for every list that
   names each user with a row there once.
   */
  lemma TotalIsSumOfUsers(b: Books, organization: Id, period: string, users: seq<Id>)
    requires Balanced(b) && TOTAL_USER !in users
    requires NoRepeats(users)
    requires forall u :: u != TOTAL_USER && Key(organization, u, period) in b.months ==> u in users
    ensures var key := Key(organization, TOTAL_USER, period);
      (if key in b.months then b.months[key] else ZERO) == RowSum(b.months, organization, period, users)
  {
    forall i | 0 <= i < |b.events| && InMonth(b.events[i], organization, period)
      ensures b.events[i].user in users
    {
      assert CountsIn(b.events[i], Key(organization, b.events[i].user, period));
    }
    EventsPartition(b.events, organization, period, users);
    RowsAreEvents(b, organization, period, users);
    var key := Key(organization, TOTAL_USER, period);
    if key !in b.months {
      InactiveSum(b.events, key);
    }
  }

  lemma {:induction false} SumConsistent(events: seq<Event>, key: Key)
    requires forall i :: 0 <= i < |events| ==> Consistent(events[i].tokens)
    ensures Consistent(Sum(events, key))
    decreases |events|
  {
    if events != [] {
      SumConsistent(events[..|events| - 1], key);
    }
  }

  // ---- Whole runs

  datatype Command =
    | RecordUsage(organization: Id, user: Id, period: string, report: Report, cost: real)
    | Forget(organization: Id)

  /** record_event ignores an empty organization, an empty user and an empty report. */
  predicate Ignored(c: Command) {
    c.RecordUsage? && (c.organization == "" || c.user == TOTAL_USER || c.report == map[])
  }

  function Execute(b: Books, c: Command): Books {
    if Ignored(c) then b
    else match c
      case RecordUsage(organization, user, period, report, cost) =>
        Record(b, Event(organization, user, period, ParseTokens(report, cost)))
      case Forget(organization) => DropOrganization(b, organization)
  }

  function ExecuteAll(b: Books, cs: seq<Command>): Books
    decreases |cs|
  {
    if cs == [] then b else ExecuteAll(Execute(b, cs[0]), cs[1..])
  }

  lemma {:induction false} RunKeepsBalance(b: Books, cs: seq<Command>)
    requires Balanced(b) && AllConsistent(b)
    ensures Balanced(ExecuteAll(b, cs)) && AllConsistent(ExecuteAll(b, cs))
    decreases |cs|
  {
    if cs != [] {
      var c := cs[0];
      if !Ignored(c) {
        match c {
          case RecordUsage(organization, user, period, report, cost) =>
            ParseIsConsistent(report, cost);
            RecordKeepsBalance(b, Event(organization, user, period, ParseTokens(report, cost)));
          case Forget(organization) =>
            DropKeepsBalance(b, organization);
            OutsideMembers(b.events, organization);
            assert forall e :: e in Outside(b.events, organization) ==> e in b.events;
        }
      }
      RunKeepsBalance(Execute(b, c), cs[1..]);
    }
  }

  /**
   After any run of recorded reports and deleted organizations every row is the sum of its
   events and satisfies uncached <= prompt <= cached + uncached, totals included.
   */
  lemma ReachableRows(cs: seq<Command>, key: Key)
    ensures var b := ExecuteAll(Books([], map[]), cs);
      && (key in b.months <==> Active(b.events, key))
      && (key in b.months ==> b.months[key] == Sum(b.events, key) && Consistent(b.months[key]))
  {
    RunKeepsBalance(Books([], map[]), cs);
    SumConsistent(ExecuteAll(Books([], map[]), cs).events, key);
  }

  /**
   What the guard is for: the total row of an event's month still equals its events afterwards
   exactly when the event has a real user.  An empty user would be added to the total twice.
   */
  lemma GuardIsNeeded(b: Books, e: Event)
    requires Balanced(b) && e.tokens.prompt > 0
    ensures var key := Key(e.organization, TOTAL_USER, e.period);
      Record(b, e).months[key] == Sum(Record(b, e).events, key) <==> e.user != TOTAL_USER
  {
    var key := Key(e.organization, TOTAL_USER, e.period);
    assert Record(b, e).events[..|b.events|] == b.events;
    if key !in b.months {
      InactiveSum(b.events, key);
    }
  }

  // ---- The table, step by step

  class UsageTable {
    var events: seq<Event>
    var months: Months

    function Value(): Books
      reads this
    {
      Books(events, months)
    }

    method RecordEvent(organization: Id, user: Id, period: string, report: Report, cost: real)
        returns (month: Option<Tokens>)
      requires Balanced(Value())
      modifies this
      ensures Value() == Execute(old(Value()), RecordUsage(organization, user, period, report, cost))
      ensures Balanced(Value())
      ensures month.None? <==> organization == "" || user == "" || report == map[]
      ensures month.Some? ==> month.value == Sum(events, Key(organization, user, period))
      ensures month.None? ==> Value() == old(Value())
      ensures month.Some? ==>
        var t, mine, all := ParseTokens(report, cost), Key(organization, user, period), Key(organization, "", period);
        && events == old(events) + [Event(organization, user, period, t)]
        && RaisedBy(old(months), months, mine, t) && RaisedBy(old(months), months, all, t)
        && SameBut(old(months), months, {mine, all})
    {
      if organization == "" || user == "" || report == map[] {
        return None;
      }
      var parsed := ParseTokens(report, cost);
      ghost var e := Event(organization, user, period, parsed);
      RecordKeepsBalance(Value(), e);
      RecordRaises(Value(), e);
      events := events + [Event(organization, user, period, parsed)];
      BumpMonth(Key(organization, user, period), parsed);
      BumpMonth(Key(organization, TOTAL_USER, period), parsed);
      month := Some(months[Key(organization, user, period)]);
    }

    method BumpMonth(key: Key, parsed: Tokens)
      modifies this`months
      ensures months == Bump(old(months), key, parsed)
      ensures RaisedBy(old(months), months, key, parsed) && SameBut(old(months), months, {key})
    {
      if key !in months {
        months := months[key := parsed];
        return;
      }
      var row := months[key];
      row := row.(prompt := row.prompt + parsed.prompt);
      row := row.(completion := row.completion + parsed.completion);
      row := row.(total := row.total + parsed.total);
      row := row.(cached := row.cached + parsed.cached);
      row := row.(uncached := row.uncached + parsed.uncached);
      row := row.(cost := row.cost + parsed.cost);
      months := months[key := row];
    }

    method DeleteForOrganization(organization: Id)
      requires Balanced(Value())
      modifies this
      ensures Value() == Execute(old(Value()), Forget(organization))
      ensures Balanced(Value())
      ensures forall e :: e in events <==> e in old(events) && e.organization != organization
      ensures forall key :: key in months <==> key in old(months) && key.organization != organization
      ensures forall key :: key in months ==> months[key] == old(months)[key]
    {
      DropKeepsBalance(Value(), organization);
      OutsideMembers(events, organization);
      var kept: seq<Event> := [];
      for i := 0 to |events|
        invariant events == old(events) && months == old(months)
        invariant kept == Outside(events[..i], organization)
      {
        assert events[..i + 1][..i] == events[..i];
        if events[i].organization != organization {
          kept := kept + [events[i]];
        }
      }
      assert events[..|events|] == events;
      events := kept;
      months := map key | key in months && key.organization != organization :: months[key];
    }
  }
}
