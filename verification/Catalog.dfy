/**
 The model catalog of one organization: list_for_organization of
 backend/open_webui/models/models.py.  The database filters rows under three-valued logic, where
 only true keeps a row; the enabled flag of a listed row is computed afterwards in Python.
 */
module Catalog {
  import opened Basics

  /** SQL truth. */
  datatype Truth = Yes | No | Unknown

  function And(a: Truth, b: Truth): Truth {
    if a.No? || b.No? then No else if a.Yes? && b.Yes? then Yes else Unknown
  }

  function Either(a: Truth, b: Truth): Truth {
    if a.Yes? || b.Yes? then Yes else if a.No? && b.No? then No else Unknown
  }

  function Equals<T(==)>(column: Option<T>, value: T): Truth {
    if column.None? then Unknown else if column.value == value then Yes else No
  }

  function Differs<T(==)>(column: Option<T>, value: T): Truth {
    if column.None? then Unknown else if column.value == value then No else Yes
  }

  /** Python's bool() of a nullable column. */
  predicate Holds(column: Option<bool>) {
    column.Some? && column.value
  }

  /** IS TRUE and IS NULL never come out unknown. */
  function IsTrue(column: Option<bool>): Truth {
    if Holds(column) then Yes else No
  }

  function IsNull<T(0)>(column: Option<T>): Truth {
    if column.None? then Yes else No
  }

  /** A row of the model table; any column but the id may be null. */
  datatype Model = Model(
    id: Id,
    owner: Id,
    base: Option<Id>,
    visibility: Option<string>,
    organization: Option<Id>,
    active: Option<bool>,
    enabledByDefault: Option<bool>)

  datatype Override = Override(organization: Id, resourceType: string, resourceId: Id, enabled: bool)

  datatype User = User(id: Id, name: string)

  const PUBLIC := "public"
  const RESOURCE_MODEL := "model"
  const PLATFORM_ID: Id := "platform"

  /** One joined row: the model, its owner if stored, and the override's column, null without one. */
  datatype Joined = Joined(model: Model, user: Option<User>, override: Option<bool>)

  /** A listed model with its computed flag. */
  datatype Listed = Listed(model: Model, user: Option<User>, enabled: bool)

  // ---- The query's predicates

  function IsPublic(m: Model): Truth {
    Equals(m.visibility, PUBLIC)
  }

  function PrivateHere(m: Model, organization: Id): Truth {
    And(Differs(m.visibility, PUBLIC), Equals(m.organization, organization))
  }

  function IsActive(m: Model): Truth {
    Either(IsTrue(m.active), IsNull(m.active))
  }

  function IsVisible(m: Model, organization: Id): Truth {
    if organization == PLATFORM_ID then Either(IsPublic(m), PrivateHere(m, organization))
    else Either(And(IsPublic(m), IsActive(m)), PrivateHere(m, organization))
  }

  function IsEnabled(j: Joined, organization: Id): Truth {
    Either(PrivateHere(j.model, organization),
           And(IsPublic(j.model),
               Either(IsTrue(j.override), And(IsNull(j.override), IsTrue(j.model.enabledByDefault)))))
  }

  function HasBase(m: Model): Truth {
    if m.base.None? then No else Yes
  }

  predicate Selected(j: Joined, organization: Id, enabledOnly: bool) {
    && HasBase(j.model).Yes? && IsVisible(j.model, organization).Yes?
    && (enabledOnly ==> IsActive(j.model).Yes? && IsEnabled(j, organization).Yes?)
  }

  /** The flag as Python computes it from the joined row: bool(None) is false. */
  function Flag(j: Joined): bool {
    if j.model.visibility == Some(PUBLIC)
    then (if j.override.None? then Holds(j.model.enabledByDefault) else j.override.value)
    else true
  }

  // ---- What the predicates come to

  /** A null active flag counts as active. */
  predicate Active(m: Model) {
    m.active != Some(false)
  }

  /** Public as far as SQL can tell; a null visibility is neither public nor private. */
  predicate OwnModel(m: Model, organization: Id) {
    m.visibility.Some? && m.visibility.value != PUBLIC && m.organization == Some(organization)
  }

  /**
   A row is listed exactly when its model has a base and is the organization's own, or public and
   active; the platform also sees the public ones that are turned off.
   */
  lemma ListedExactly(j: Joined, organization: Id)
    ensures Selected(j, organization, false) <==>
      && j.model.base.Some?
      && (|| OwnModel(j.model, organization)
          || (j.model.visibility == Some(PUBLIC) && (Active(j.model) || organization == PLATFORM_ID)))
  {
  }

  /**
   And it is usable exactly when, besides, it is active, and a public one is switched on: by the
   organization's override, or by default when there is none.
   */
  lemma UsableExactly(j: Joined, organization: Id)
    ensures Selected(j, organization, true) <==>
      && j.model.base.Some? && Active(j.model)
      && (|| OwnModel(j.model, organization)
          || (j.model.visibility == Some(PUBLIC)
              && (j.override == Some(true) || (j.override.None? && j.model.enabledByDefault == Some(true)))))
  {
  }

  /** The flag of a public model is the override, or its default without one; any other model is on. */
  lemma FlagExactly(j: Joined)
    ensures j.model.visibility != Some(PUBLIC) ==> Flag(j)
    ensures j.model.visibility == Some(PUBLIC) && j.override.Some? ==> Flag(j) == j.override.value
    ensures j.model.visibility == Some(PUBLIC) && j.override.None? ==> (Flag(j) <==> j.model.enabledByDefault == Some(true))
  {
  }

  // ---- The outer joins

  /** At most one user row and one override row match a model: their keys are primary keys. */
  ghost predicate KeyedTables(models: seq<Model>, users: seq<User>, overrides: seq<Override>) {
    && (forall i, j :: 0 <= i < j < |models| ==> models[i].id != models[j].id)
    && (forall i, j :: 0 <= i < j < |users| ==> users[i].id != users[j].id)
    && (forall i, j :: 0 <= i < j < |overrides| ==>
         (overrides[i].organization, overrides[i].resourceType, overrides[i].resourceId)
         != (overrides[j].organization, overrides[j].resourceType, overrides[j].resourceId))
  }

  function UserMatches(users: seq<User>, m: Model): seq<User>
    decreases |users|
  {
    if users == [] then []
    else (if users[0].id == m.owner then [users[0]] else []) + UserMatches(users[1..], m)
  }

  predicate Applies(o: Override, organization: Id, m: Model) {
    o.organization == organization && o.resourceType == RESOURCE_MODEL && o.resourceId == m.id
  }

  function OverrideMatches(overrides: seq<Override>, organization: Id, m: Model): seq<Override>
    decreases |overrides|
  {
    if overrides == [] then []
    else (if Applies(overrides[0], organization, m) then [overrides[0]] else []) + OverrideMatches(overrides[1..], organization, m)
  }

  /** An outer join keeps the row once, with nulls, when nothing matches. */
  function OrNull<T>(matches: seq<T>): seq<Option<T>> {
    if matches == [] then [None] else seq(|matches|, i requires 0 <= i < |matches| => Some(matches[i]))
  }

  function JoinRow(m: Model, users: seq<Option<User>>, override: Option<bool>): seq<Joined> {
    seq(|users|, i requires 0 <= i < |users| => Joined(m, users[i], override))
  }

  function JoinOverrides(m: Model, users: seq<Option<User>>, overrides: seq<Option<Override>>): seq<Joined>
    decreases |overrides|
  {
    if overrides == [] then []
    else JoinRow(m, users, if overrides[0].Some? then Some(overrides[0].value.enabled) else None)
         + JoinOverrides(m, users, overrides[1..])
  }

  function Join(models: seq<Model>, users: seq<User>, overrides: seq<Override>, organization: Id): seq<Joined>
    decreases |models|
  {
    if models == [] then []
    else JoinOverrides(models[0], OrNull(UserMatches(users, models[0])),
                       OrNull(OverrideMatches(overrides, organization, models[0])))
         + Join(models[1..], users, overrides, organization)
  }

  // ---- The list

  function Annotated(j: Joined): Listed {
    Listed(j.model, j.user, Flag(j))
  }

  function Rows(joined: seq<Joined>, organization: Id, enabledOnly: bool): seq<Listed>
    decreases |joined|
  {
    if joined == [] then []
    else (if Selected(joined[0], organization, enabledOnly)
          then [Annotated(joined[0])] else [])
         + Rows(joined[1..], organization, enabledOnly)
  }

  lemma RowsFrom(joined: seq<Joined>, i: nat, organization: Id, enabledOnly: bool)
    requires i < |joined|
    ensures Rows(joined[i..], organization, enabledOnly) ==
      (if Selected(joined[i], organization, enabledOnly) then [Annotated(joined[i])] else [])
      + Rows(joined[i + 1..], organization, enabledOnly)
  {
    assert joined[i..][1..] == joined[i + 1..];
  }

  method Annotate(joined: seq<Joined>, organization: Id, enabledOnly: bool) returns (listed: seq<Listed>)
    ensures listed == Rows(joined, organization, enabledOnly)
  {
    listed := [];
    for i := 0 to |joined|
      invariant listed + Rows(joined[i..], organization, enabledOnly) == Rows(joined, organization, enabledOnly)
    {
      var j := joined[i];
      var rest := Rows(joined[i + 1..], organization, enabledOnly);
      RowsFrom(joined, i, organization, enabledOnly);
      if Selected(j, organization, enabledOnly) {
        var enabled := true;
        if j.model.visibility == Some(PUBLIC) {
          enabled := if j.override.None? then Holds(j.model.enabledByDefault) else j.override.value;
        }
        assert listed + ([Annotated(j)] + rest) == (listed + [Annotated(j)]) + rest;
        listed := listed + [Listed(j.model, j.user, enabled)];
      } else {
        assert [] + rest == rest;
      }
    }
  }

  /** list_for_organization: query, then annotate row after row. */
  method ListForOrganization(models: seq<Model>, users: seq<User>, overrides: seq<Override>,
                             organization: Id, enabledOnly: bool) returns (listed: seq<Listed>)
    ensures listed == Rows(Join(models, users, overrides, organization), organization, enabledOnly)
  {
    var joined := Join(models, users, overrides, organization);
    listed := Annotate(joined, organization, enabledOnly);
  }

  /** Listed rows that are active and whose computed flag is set. */
  function Usable(listed: seq<Listed>): seq<Listed>
    decreases |listed|
  {
    if listed == [] then []
    else (if (listed[0].model.active.None? || Holds(listed[0].model.active)) && listed[0].enabled then [listed[0]] else []) + Usable(listed[1..])
  }

  lemma {:induction false} UsableMembers(listed: seq<Listed>, l: Listed)
    ensures l in Usable(listed) <==> l in listed && Active(l.model) && l.enabled
    decreases |listed|
  {
    if listed != [] {
      UsableMembers(listed[1..], l);
      assert listed == [listed[0]] + listed[1..];
    }
  }

  /** Under three-valued logic the two filters keep just the active rows with a true flag. */
  lemma SelectedIsUsable(j: Joined, organization: Id)
    ensures Selected(j, organization, true) <==>
      Selected(j, organization, false) && (j.model.active.None? || Holds(j.model.active)) && Flag(j)
  {
    var m := j.model;
    if m.visibility == Some(PUBLIC) {
      assert PrivateHere(m, organization) == No;
      assert IsPublic(m) == Yes;
      assert IsEnabled(j, organization).Yes? <==> Flag(j);
    } else {
      assert IsVisible(m, organization).Yes? <==> PrivateHere(m, organization).Yes?;
      assert PrivateHere(m, organization).Yes? ==> IsEnabled(j, organization).Yes?;
    }
  }

  /** The database's filter and Python's flag agree: the enabled list is the full list cut down to usable rows. */
  lemma {:induction false} EnabledListIsFilteredList(joined: seq<Joined>, organization: Id)
    ensures Rows(joined, organization, true) == Usable(Rows(joined, organization, false))
    decreases |joined|
  {
    if joined != [] {
      EnabledListIsFilteredList(joined[1..], organization);
      SelectedIsUsable(joined[0], organization);
      var rest := Rows(joined[1..], organization, false);
      if Selected(joined[0], organization, false) {
        assert ([Annotated(joined[0])] + rest)[1..] == rest;
      } else {
        assert [] + rest == rest;
      }
    }
  }

  // ---- Each model once

  lemma {:induction false} OneUser(users: seq<User>, m: Model)
    requires forall i, j :: 0 <= i < j < |users| ==> users[i].id != users[j].id
    ensures |UserMatches(users, m)| <= 1
    ensures forall u :: u in UserMatches(users, m) ==> u in users && u.id == m.owner
    decreases |users|
  {
    if users != [] {
      assert forall j :: 0 <= j < |users[1..]| ==> users[1..][j] == users[j + 1];
      OneUser(users[1..], m);
      if UserMatches(users[1..], m) != [] {
        assert UserMatches(users[1..], m)[0] in users[1..];
      }
    }
  }

  lemma {:induction false} OneOverride(overrides: seq<Override>, organization: Id, m: Model)
    requires KeyedTables([], [], overrides)
    ensures |OverrideMatches(overrides, organization, m)| <= 1
    ensures forall o :: o in OverrideMatches(overrides, organization, m) ==> o in overrides && Applies(o, organization, m)
    decreases |overrides|
  {
    if overrides != [] {
      assert forall j :: 0 <= j < |overrides[1..]| ==> overrides[1..][j] == overrides[j + 1];
      OneOverride(overrides[1..], organization, m);
      if OverrideMatches(overrides[1..], organization, m) != [] {
        assert OverrideMatches(overrides[1..], organization, m)[0] in overrides[1..];
      }
    }
  }

  /** The joined row carries the owner's row and the organization's override, each exactly when it is stored. */
  predicate CarriesItsOwn(j: Joined, users: seq<User>, overrides: seq<Override>, organization: Id) {
    && (forall u :: u in users && u.id == j.model.owner ==> j.user == Some(u))
    && (j.user.Some? ==> j.user.value in users && j.user.value.id == j.model.owner)
    && (forall o :: o in overrides && Applies(o, organization, j.model) ==> j.override == Some(o.enabled))
    && (j.override.Some? ==> exists o :: o in overrides && Applies(o, organization, j.model) && j.override == Some(o.enabled))
  }

  lemma {:induction false} MatchesAll(users: seq<User>, overrides: seq<Override>, organization: Id, m: Model)
    ensures forall u :: u in users && u.id == m.owner ==> u in UserMatches(users, m)
    ensures forall o :: o in overrides && Applies(o, organization, m) ==> o in OverrideMatches(overrides, organization, m)
    decreases |users| + |overrides|
  {
    if users != [] {
      MatchesAll(users[1..], overrides, organization, m);
    } else if overrides != [] {
      MatchesAll(users, overrides[1..], organization, m);
    }
  }

  lemma OneJoined(m: Model, users: seq<User>, overrides: seq<Override>, organization: Id)
    requires KeyedTables([], users, overrides)
    ensures var us, os := UserMatches(users, m), OverrideMatches(overrides, organization, m);
      JoinOverrides(m, OrNull(us), OrNull(os))
      == [Joined(m, if us == [] then None else Some(us[0]), if os == [] then None else Some(os[0].enabled))]
  {
    OneUser(users, m);
    OneOverride(overrides, organization, m);
    var us, os := OrNull(UserMatches(users, m)), OrNull(OverrideMatches(overrides, organization, m));
    assert |us| == 1 && |os| == 1;
    assert JoinOverrides(m, us, os[1..]) == [];
  }

  lemma UserCarried(m: Model, users: seq<User>)
    requires forall i, j :: 0 <= i < j < |users| ==> users[i].id != users[j].id
    ensures var us := UserMatches(users, m);
      && (forall u :: u in users && u.id == m.owner ==> us == [u])
      && (us != [] ==> us[0] in users && us[0].id == m.owner)
  {
    OneUser(users, m);
    MatchesAll(users, [], "", m);
  }

  lemma OverrideCarried(m: Model, overrides: seq<Override>, organization: Id)
    requires KeyedTables([], [], overrides)
    ensures var os := OverrideMatches(overrides, organization, m);
      && (forall o :: o in overrides && Applies(o, organization, m) ==> os == [o])
      && (os != [] ==> os[0] in overrides && Applies(os[0], organization, m))
  {
    OneOverride(overrides, organization, m);
    MatchesAll([], overrides, organization, m);
  }

  lemma JoinedCarries(m: Model, users: seq<User>, overrides: seq<Override>, organization: Id)
    requires KeyedTables([], users, overrides)
    ensures var rows := JoinOverrides(m, OrNull(UserMatches(users, m)), OrNull(OverrideMatches(overrides, organization, m)));
      |rows| == 1 && rows[0].model == m && CarriesItsOwn(rows[0], users, overrides, organization)
  {
    OneJoined(m, users, overrides, organization);
    UserCarried(m, users);
    OverrideCarried(m, overrides, organization);
  }

  /** Every model comes out of the joins exactly once, in table order. */
  lemma {:induction false} JoinKeepsEachOnce(models: seq<Model>, users: seq<User>, overrides: seq<Override>, organization: Id)
    requires KeyedTables(models, users, overrides)
    ensures |Join(models, users, overrides, organization)| == |models|
    ensures forall i :: 0 <= i < |models| ==> Join(models, users, overrides, organization)[i].model == models[i]
    ensures forall i :: 0 <= i < |models| ==>
      CarriesItsOwn(Join(models, users, overrides, organization)[i], users, overrides, organization)
    decreases |models|
  {
    if models != [] {
      var m := models[0];
      assert forall j :: 0 <= j < |models[1..]| ==> models[1..][j] == models[j + 1];
      JoinKeepsEachOnce(models[1..], users, overrides, organization);
      JoinedCarries(m, users, overrides, organization);
      var joined, rest := Join(models, users, overrides, organization), Join(models[1..], users, overrides, organization);
      forall i | 0 <= i < |models|
        ensures joined[i].model == models[i] && CarriesItsOwn(joined[i], users, overrides, organization)
      {
        assert i > 0 ==> joined[i] == rest[i - 1] && models[i] == models[1..][i - 1];
      }
    }
  }

  lemma {:induction false} RowsFromJoined(joined: seq<Joined>, organization: Id, enabledOnly: bool)
    requires forall i, j :: 0 <= i < j < |joined| ==> joined[i].model.id != joined[j].model.id
    ensures forall l :: l in Rows(joined, organization, enabledOnly) ==> exists i :: 0 <= i < |joined| && joined[i].model == l.model
    ensures forall i, j :: 0 <= i < j < |Rows(joined, organization, enabledOnly)| ==>
      Rows(joined, organization, enabledOnly)[i].model.id != Rows(joined, organization, enabledOnly)[j].model.id
    decreases |joined|
  {
    if joined != [] {
      assert forall j :: 0 <= j < |joined[1..]| ==> joined[1..][j] == joined[j + 1];
      RowsFromJoined(joined[1..], organization, enabledOnly);
      var rest := Rows(joined[1..], organization, enabledOnly);
      forall l | l in rest ensures l.model.id != joined[0].model.id && exists i :: 0 <= i < |joined| && joined[i].model == l.model {
        var i :| 0 <= i < |joined[1..]| && joined[1..][i].model == l.model;
        assert joined[i + 1].model == l.model;
      }
      forall j | 0 <= j < |rest| ensures rest[j].model.id != joined[0].model.id {
        assert rest[j] in rest;
      }
    }
  }

  lemma {:induction false} RowsExactly(joined: seq<Joined>, organization: Id, enabledOnly: bool, l: Listed)
    ensures l in Rows(joined, organization, enabledOnly) <==>
      exists i :: 0 <= i < |joined| && Selected(joined[i], organization, enabledOnly) && l == Annotated(joined[i])
    decreases |joined|
  {
    if joined != [] {
      var rest := joined[1..];
      RowsExactly(rest, organization, enabledOnly, l);
      assert forall j :: 0 <= j < |rest| ==> rest[j] == joined[j + 1];
      if i :| 0 <= i < |joined| && Selected(joined[i], organization, enabledOnly) && l == Annotated(joined[i]) {
        assert i > 0 ==> rest[i - 1] == joined[i];
      }
    }
  }

  /** The owner and the override of a model are determined by the tables. */
  lemma CarriedOnce(a: Joined, b: Joined, users: seq<User>, overrides: seq<Override>, organization: Id)
    requires KeyedTables([], users, overrides) && a.model == b.model
    requires CarriesItsOwn(a, users, overrides, organization) && CarriesItsOwn(b, users, overrides, organization)
    ensures a == b
  {
  }

  /**
   The full list of an organization, model by model: a stored model is on it exactly when it has a
   base and is the organization's own, or public and active, or the platform asks for a public one;
   and with it stands its owner, if stored, and the flag of its override or default.
   */
  lemma CatalogExactly(models: seq<Model>, users: seq<User>, overrides: seq<Override>, organization: Id, l: Listed)
    requires KeyedTables(models, users, overrides)
    ensures var list := Rows(Join(models, users, overrides, organization), organization, false);
      l in list <==>
        && l.model in models && l.model.base.Some?
        && (OwnModel(l.model, organization)
            || (l.model.visibility == Some(PUBLIC) && (Active(l.model) || organization == PLATFORM_ID)))
        && exists override ::
             CarriesItsOwn(Joined(l.model, l.user, override), users, overrides, organization)
             && l.enabled == Flag(Joined(l.model, l.user, override))
  {
    var joined := Join(models, users, overrides, organization);
    JoinKeepsEachOnce(models, users, overrides, organization);
    RowsExactly(joined, organization, false, l);
    if i :| 0 <= i < |joined| && Selected(joined[i], organization, false) && l == Annotated(joined[i]) {
      ListedExactly(joined[i], organization);
      assert joined[i].model == models[i];
      assert CarriesItsOwn(Joined(l.model, l.user, joined[i].override), users, overrides, organization);
    }
    if override :| l.model in models && CarriesItsOwn(Joined(l.model, l.user, override), users, overrides, organization)
                   && l.enabled == Flag(Joined(l.model, l.user, override)) {
      var i :| 0 <= i < |models| && models[i] == l.model;
      CarriedOnce(joined[i], Joined(l.model, l.user, override), users, overrides, organization);
      ListedExactly(joined[i], organization);
    }
  }

  /**
   For all tables and every organization, the enabled list is the full list restricted to active
   models whose computed flag is true, and neither list names a model twice.
   */
  lemma CatalogAgrees(models: seq<Model>, users: seq<User>, overrides: seq<Override>, organization: Id)
    requires KeyedTables(models, users, overrides)
    ensures var joined := Join(models, users, overrides, organization);
      && Rows(joined, organization, true) == Usable(Rows(joined, organization, false))
      && forall enabledOnly, i, j :: 0 <= i < j < |Rows(joined, organization, enabledOnly)| ==>
           Rows(joined, organization, enabledOnly)[i].model.id != Rows(joined, organization, enabledOnly)[j].model.id
  {
    var joined := Join(models, users, overrides, organization);
    EnabledListIsFilteredList(joined, organization);
    JoinKeepsEachOnce(models, users, overrides, organization);
    RowsFromJoined(joined, organization, true);
    RowsFromJoined(joined, organization, false);
  }
}
