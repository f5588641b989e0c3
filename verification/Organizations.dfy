/**
 Organization membership of backend/open_webui/models/organizations.py: who belongs to which
 organization in which role, through every operation that adds, changes or removes a member,
 user deletion included.
 */
module Organizations {
  import opened Basics

  datatype Kind = Personal | Workspace | Platform

  datatype Role = User | Admin | Owner

  const PLATFORM_ID: Id := "platform"

  /** A member row is keyed by organization and user. */
  type Members = map<(Id, Id), Role>

  datatype Registry = Registry(organizations: map<Id, Kind>, members: Members)

  function MembersOf(members: Members, o: Id): set<Id> {
    set m | m in members && m.0 == o :: m.1
  }

  function OwnersOf(members: Members, o: Id): set<Id> {
    set m | m in members && m.0 == o && members[m] == Owner :: m.1
  }

  // ---- What the operations are to keep

  /** The organization has an owner, or no members at all. */
  predicate Owned(members: Members, o: Id) {
    OwnersOf(members, o) != {} || MembersOf(members, o) == {}
  }

  /** Members belong to stored organizations; a personal one holds only its own user, as owner; the platform holds no plain user. */
  ghost predicate WellRoled(r: Registry) {
    forall m :: m in r.members ==>
      && m.0 in r.organizations
      && (r.organizations[m.0].Personal? ==> m.1 == m.0 && r.members[m] == Owner)
      && (r.organizations[m.0].Platform? ==> r.members[m] != User)
  }

  ghost predicate AllOwned(r: Registry) {
    forall o :: o in r.organizations ==> Owned(r.members, o)
  }

  ghost predicate Sound(r: Registry) {
    WellRoled(r) && AllOwned(r)
  }

  // ---- The operations, as functions of the registry

  /** add_member raises for this organization, user and role. */
  predicate AddRefused(r: Registry, o: Id, u: Id, role: Role) {
    || o !in r.organizations
    || (r.organizations[o].Personal? && !(u == o && role == Owner))
    || (r.organizations[o].Platform? && role == User)
  }

  function Add(r: Registry, o: Id, u: Id, role: Role): Registry {
    if AddRefused(r, o, u, role) || (o, u) in r.members then r
    else r.(members := r.members[(o, u) := role])
  }

  /** The last owner may be neither demoted nor removed. */
  predicate IsLastOwner(members: Members, o: Id, u: Id) {
    (o, u) in members && members[(o, u)] == Owner && |OwnersOf(members, o)| <= 1
  }

  predicate RoleRefused(r: Registry, o: Id, u: Id, role: Role) {
    || (o in r.organizations && r.organizations[o].Personal?)
    || (o in r.organizations && r.organizations[o].Platform? && role == User)
    || (role != Owner && IsLastOwner(r.members, o, u))
  }

  function SetRole(r: Registry, o: Id, u: Id, role: Role): Registry {
    if RoleRefused(r, o, u, role) || (o, u) !in r.members then r
    else r.(members := r.members[(o, u) := role])
  }

  predicate RemoveRefused(r: Registry, o: Id, u: Id) {
    (o in r.organizations && r.organizations[o].Personal?) || IsLastOwner(r.members, o, u)
  }

  function Remove(r: Registry, o: Id, u: Id): Registry {
    if RemoveRefused(r, o, u) then r else r.(members := r.members - {(o, u)})
  }

  function WithoutMembersOf(members: Members, o: Id): Members {
    map m | m in members && m.0 != o :: members[m]
  }

  function DropOrganization(r: Registry, o: Id): Registry {
    Registry(r.organizations - {o}, WithoutMembersOf(r.members, o))
  }

  /** delete_organization: only workspaces may go. */
  function Delete(r: Registry, o: Id): Registry {
    if o in r.organizations && r.organizations[o].Workspace? then DropOrganization(r, o) else r
  }

  function Insert(r: Registry, o: Id, kind: Kind, owner: Option<Id>): Registry {
    Registry(r.organizations[o := kind],
             if owner.Some? then r.members[(o, owner.value) := Owner] else r.members)
  }

  /** ensure_personal: the user's own organization exists and holds its user. */
  function EnsurePersonal(r: Registry, u: Id): Registry {
    if u in r.organizations then Add(r, u, u, Owner) else Insert(r, u, Personal, Some(u))
  }

  /** adopt_legacy_admins: each global admin joins the platform as an admin. */
  function AdoptAdmins(r: Registry, admins: seq<Id>): Registry
    decreases |admins|
  {
    if admins == [] then r else AdoptAdmins(Add(r, PLATFORM_ID, admins[0], Admin), admins[1..])
  }

  /** The platform, there and with the given owner, before admins are adopted. */
  function PlacePlatform(r: Registry, owner: Option<Id>): Registry {
    if PLATFORM_ID !in r.organizations then Insert(r, PLATFORM_ID, Platform, owner)
    else if owner.Some? then Add(r, PLATFORM_ID, owner.value, Owner)
    else r
  }

  function EnsurePlatform(r: Registry, owner: Option<Id>, admins: seq<Id>): Registry {
    AdoptAdmins(PlacePlatform(r, owner), admins)
  }

  // ---- Removing a user everywhere

  /** The member a query with .first() returns: some member of a non-empty set. */
  type Chooser = (Id, set<Id>) -> Id

  ghost predicate Chooses(first: Chooser) {
    forall o, s: set<Id> :: s != {} ==> first(o, s) in s
  }

  function OthersIn(members: Members, o: Id, u: Id): set<Id> {
    MembersOf(members, o) - {u}
  }

  /** The user is the only owner of this shared organization and somebody else is left. */
  predicate NeedsSuccessor(r: Registry, o: Id, u: Id) {
    && o in r.organizations && !r.organizations[o].Personal?
    && IsLastOwner(r.members, o, u) && OthersIn(r.members, o, u) != {}
  }

  predicate IsSuccessor(r: Registry, m: (Id, Id), u: Id, first: Chooser) {
    NeedsSuccessor(r, m.0, u) && m.1 == first(m.0, OthersIn(r.members, m.0, u))
  }

  /** Promote a successor where one is needed, then drop the user's rows, except in the own organization. */
  function RemoveEverywhere(r: Registry, u: Id, first: Chooser): Registry {
    r.(members := map m | m in r.members && !(m.1 == u && m.0 != u) ::
      if IsSuccessor(r, m, u, first) then Owner else r.members[m])
  }

  /** delete_user_by_id: the personal organization goes first. */
  function DeleteUser(r: Registry, u: Id, first: Chooser): Registry {
    RemoveEverywhere(if u in r.organizations then DropOrganization(r, u) else r, u, first)
  }

  // ---- What each operation keeps

  /** Only the rows of organization o differ. */
  ghost predicate SameElsewhere(a: Members, b: Members, o: Id) {
    forall m: (Id, Id) :: m.0 != o ==> (m in a <==> m in b) && (m in a ==> a[m] == b[m])
  }

  lemma OwnedElsewhere(a: Members, b: Members, o: Id, p: Id)
    requires SameElsewhere(a, b, o) && p != o
    ensures MembersOf(a, p) == MembersOf(b, p) && OwnersOf(a, p) == OwnersOf(b, p)
  {
    forall u ensures (u in MembersOf(a, p) <==> u in MembersOf(b, p)) && (u in OwnersOf(a, p) <==> u in OwnersOf(b, p)) {
      assert (p, u).0 != o;
    }
  }

  lemma AllOwnedButOne(r: Registry, members: Members, o: Id)
    requires AllOwned(r) && SameElsewhere(r.members, members, o) && Owned(members, o)
    ensures AllOwned(r.(members := members))
  {
    forall p | p in r.organizations ensures Owned(members, p) {
      if p != o {
        OwnedElsewhere(r.members, members, o, p);
      }
    }
  }

  lemma MemberIn(members: Members, o: Id, u: Id)
    ensures (o, u) in members <==> u in MembersOf(members, o)
    ensures (o, u) in members && members[(o, u)] == Owner <==> u in OwnersOf(members, o)
  {
    if (o, u) in members {
      assert (o, u).0 == o && (o, u).1 == u;
    }
  }

  /**
   add_member keeps an organization owned exactly when the newcomer is an owner, or somebody is
   there already: the last member may have left by being deleted.
   */
  lemma AddKeepsOwnedExactly(r: Registry, o: Id, u: Id, role: Role)
    requires Sound(r) && !AddRefused(r, o, u, role)
    ensures WellRoled(Add(r, o, u, role))
    ensures Sound(Add(r, o, u, role)) <==> role == Owner || MembersOf(r.members, o) != {}
  {
    var a := Add(r, o, u, role);
    MemberIn(r.members, o, u);
    MemberIn(a.members, o, u);
    if role == Owner || MembersOf(r.members, o) != {} {
      assert Owned(r.members, o);
      if x :| x in OwnersOf(r.members, o) {
        MemberIn(r.members, o, x);
        MemberIn(a.members, o, x);
      }
      AllOwnedButOne(r, a.members, o);
    } else {
      forall x ensures x !in OwnersOf(a.members, o) {
        MemberIn(r.members, o, x);
        MemberIn(a.members, o, x);
      }
      assert !Owned(a.members, o);
    }
  }

  /** With more than one owner, another owner is left when one steps down or leaves. */
  lemma AnotherOwner(members: Members, o: Id, u: Id) returns (v: Id)
    requires u in OwnersOf(members, o) && |OwnersOf(members, o)| > 1
    ensures v != u && (o, v) in members && members[(o, v)] == Owner
  {
    var rest := OwnersOf(members, o) - {u};
    assert |rest| == |OwnersOf(members, o)| - 1;
    v :| v in rest;
    MemberIn(members, o, v);
  }

  /** An owner other than u is untouched by a change to u's row. */
  lemma StillOwned(members: Members, changed: Members, o: Id, u: Id)
    requires Owned(members, o) && (o, u) in members
    requires forall m :: m in members && m != (o, u) ==> m in changed && changed[m] == members[m]
    requires !IsLastOwner(members, o, u) || ((o, u) in changed && changed[(o, u)] == Owner)
    ensures Owned(changed, o)
  {
    MemberIn(members, o, u);
    MemberIn(changed, o, u);
    if !IsLastOwner(members, o, u) {
      var v;
      if members[(o, u)] == Owner {
        v := AnotherOwner(members, o, u);
      } else {
        v :| v in OwnersOf(members, o);
        MemberIn(members, o, v);
      }
      MemberIn(changed, o, v);
    }
  }

  lemma SetRoleKeepsSound(r: Registry, o: Id, u: Id, role: Role)
    requires Sound(r)
    ensures Sound(SetRole(r, o, u, role))
  {
    if !RoleRefused(r, o, u, role) && (o, u) in r.members {
      StillOwned(r.members, SetRole(r, o, u, role).members, o, u);
      AllOwnedButOne(r, SetRole(r, o, u, role).members, o);
    }
  }

  lemma RemoveKeepsSound(r: Registry, o: Id, u: Id)
    requires Sound(r)
    ensures Sound(Remove(r, o, u))
  {
    if !RemoveRefused(r, o, u) && (o, u) in r.members {
      StillOwned(r.members, Remove(r, o, u).members, o, u);
      AllOwnedButOne(r, Remove(r, o, u).members, o);
    }
  }

  lemma DropKeepsSound(r: Registry, o: Id)
    requires Sound(r)
    ensures Sound(DropOrganization(r, o))
  {
    forall p | p in r.organizations && p != o ensures Owned(WithoutMembersOf(r.members, o), p) {
      OwnedElsewhere(r.members, WithoutMembersOf(r.members, o), o, p);
    }
  }

  /** A new organization under an unused id: with its owner, or empty. */
  lemma InsertKeepsSound(r: Registry, o: Id, kind: Kind, owner: Option<Id>)
    requires Sound(r) && o !in r.organizations
    requires kind.Personal? ==> owner == Some(o)
    ensures Sound(Insert(r, o, kind, owner))
  {
    var i := Insert(r, o, kind, owner);
    assert SameElsewhere(r.members, i.members, o);
    forall p | p in i.organizations ensures Owned(i.members, p) {
      if p != o {
        OwnedElsewhere(r.members, i.members, o, p);
      } else if owner.Some? {
        MemberIn(i.members, o, owner.value);
      } else {
        assert MembersOf(i.members, o) == {};
      }
    }
  }

  /** Removing a deleted user everywhere leaves every organization with an owner or empty. */
  lemma RemoveEverywhereKeepsSound(r: Registry, u: Id, first: Chooser)
    requires Sound(r) && Chooses(first)
    ensures Sound(RemoveEverywhere(r, u, first))
  {
    var e := RemoveEverywhere(r, u, first);
    forall o | o in r.organizations ensures Owned(e.members, o) {
      RemoveEverywhereOwned(r, u, first, o);
    }
  }

  lemma RemoveEverywhereOwned(r: Registry, u: Id, first: Chooser, o: Id)
    requires Sound(r) && Chooses(first) && o in r.organizations
    ensures Owned(RemoveEverywhere(r, u, first).members, o)
  {
    var e := RemoveEverywhere(r, u, first).members;
    if MembersOf(e, o) != {} {
      var x :| x in MembersOf(e, o);
      MemberIn(e, o, x);
      MemberIn(r.members, o, x);
      assert Owned(r.members, o);
      var v;
      if NeedsSuccessor(r, o, u) {
        v := first(o, OthersIn(r.members, o, u));
        MemberIn(r.members, o, v);
        if o == u {
          v := u;
        }
      } else if u in OwnersOf(r.members, o) && o != u {
        MemberIn(r.members, o, u);
        assert x in OthersIn(r.members, o, u);
        v := AnotherOwner(r.members, o, u);
      } else {
        v :| v in OwnersOf(r.members, o);
        MemberIn(r.members, o, v);
      }
      MemberIn(e, o, v);
    }
  }

  // ---- Who is refused, and who is promoted

  lemma LastOwnerExactly(members: Members, o: Id, u: Id)
    ensures IsLastOwner(members, o, u) <==> OwnersOf(members, o) == {u}
  {
    MemberIn(members, o, u);
    if IsLastOwner(members, o, u) {
      assert |OwnersOf(members, o) - {u}| == |OwnersOf(members, o)| - 1;
      assert OwnersOf(members, o) - {u} == {};
    }
  }

  /** add_member refuses exactly the rows that would break the rules on who holds which role where. */
  lemma AddRefusedExactly(r: Registry, o: Id, u: Id, role: Role)
    requires WellRoled(r)
    ensures AddRefused(r, o, u, role) <==> !WellRoled(r.(members := r.members[(o, u) := role]))
  {
    var added := r.(members := r.members[(o, u) := role]);
    assert (o, u) in added.members;
  }

  /**
   Outside personal organizations, a role change is refused exactly when it would break a rule or
   leave members without an owner; with a second owner, anybody may step down.
   */
  lemma RoleRefusedExactly(r: Registry, o: Id, u: Id, role: Role)
    requires Sound(r) && (o, u) in r.members && !r.organizations[o].Personal?
    ensures RoleRefused(r, o, u, role) <==> !Sound(r.(members := r.members[(o, u) := role]))
    ensures RoleRefused(r, o, u, role) <==>
      (r.organizations[o].Platform? && role == User) || (role != Owner && OwnersOf(r.members, o) == {u})
  {
    var changed := r.(members := r.members[(o, u) := role]);
    LastOwnerExactly(r.members, o, u);
    SetRoleKeepsSound(r, o, u, role);
    if r.organizations[o].Platform? && role == User {
      assert changed.members[(o, u)] == User;
      assert !WellRoled(changed);
    } else if role != Owner && OwnersOf(r.members, o) == {u} {
      MemberIn(changed.members, o, u);
      forall x ensures x !in OwnersOf(changed.members, o) {
        MemberIn(changed.members, o, x);
        MemberIn(r.members, o, x);
      }
      assert !Owned(changed.members, o);
    }
  }

  /** A member may be removed unless the organization is personal or the member its only owner. */
  lemma RemoveRefusedExactly(r: Registry, o: Id, u: Id)
    ensures RemoveRefused(r, o, u) <==> (o in r.organizations && r.organizations[o].Personal?) || OwnersOf(r.members, o) == {u}
  {
    LastOwnerExactly(r.members, o, u);
  }

  /** The organizations in which somebody must take over from this user. */
  predicate LosesItsOwner(r: Registry, o: Id, u: Id) {
    && o in r.organizations && !r.organizations[o].Personal?
    && OwnersOf(r.members, o) == {u} && MembersOf(r.members, o) != {u}
  }

  /**
   Removing a user everywhere takes exactly the user's rows, but the one in the own organization;
   promotes one of the others, the one chosen, where the only owner goes, and changes no other role:
   nobody is promoted when another owner is left.
   */
  lemma RemoveEverywhereExactly(r: Registry, u: Id, first: Chooser)
    requires Chooses(first)
    ensures var e := RemoveEverywhere(r, u, first);
      && e.organizations == r.organizations
      && (forall m :: m in e.members <==> m in r.members && (m.1 != u || m.0 == u))
      && (forall m :: m in e.members && e.members[m] != r.members[m] ==>
           LosesItsOwner(r, m.0, u) && m.1 == first(m.0, MembersOf(r.members, m.0) - {u}) && e.members[m] == Owner)
      && (forall o :: LosesItsOwner(r, o, u) ==>
           (o, first(o, MembersOf(r.members, o) - {u})) in e.members
           && e.members[(o, first(o, MembersOf(r.members, o) - {u}))] == Owner)
  {
    var e := RemoveEverywhere(r, u, first);
    forall o ensures NeedsSuccessor(r, o, u) <==> LosesItsOwner(r, o, u) {
      LastOwnerExactly(r.members, o, u);
      MemberIn(r.members, o, u);
      assert OthersIn(r.members, o, u) == MembersOf(r.members, o) - {u};
      if LosesItsOwner(r, o, u) {
        OwnerIsMember(r.members, o, u);
      }
    }
    forall o | LosesItsOwner(r, o, u)
      ensures (o, first(o, MembersOf(r.members, o) - {u})) in e.members
      ensures e.members[(o, first(o, MembersOf(r.members, o) - {u}))] == Owner
    {
      OwnerIsMember(r.members, o, u);
      var v := first(o, OthersIn(r.members, o, u));
      MemberIn(r.members, o, v);
    }
  }

  /** With u an owner and not the only member, somebody else is a member. */
  lemma OwnerIsMember(members: Members, o: Id, u: Id)
    requires u in OwnersOf(members, o) && MembersOf(members, o) != {u}
    ensures MembersOf(members, o) - {u} != {}
  {
    MemberIn(members, o, u);
    assert (MembersOf(members, o) - {u}) + {u} == MembersOf(members, o);
  }

  /** A deleted user's own organization goes with all its members, and no row of the user is left anywhere. */
  lemma DeleteUserExactly(r: Registry, u: Id, first: Chooser)
    requires Chooses(first) && WellRoled(r)
    ensures var e := DeleteUser(r, u, first);
      && e.organizations == r.organizations - {u}
      && forall m :: m in e.members <==> m in r.members && m.0 != u && m.1 != u
  {
    RemoveEverywhereExactly(if u in r.organizations then DropOrganization(r, u) else r, u, first);
  }

  /** Every admin joins, as an admin, who was not there before; no other row changes. */
  lemma {:induction false} AdoptExactly(r: Registry, admins: seq<Id>)
    requires PLATFORM_ID in r.organizations && r.organizations[PLATFORM_ID].Platform?
    ensures var e := AdoptAdmins(r, admins);
      && e.organizations == r.organizations
      && (forall m :: m in e.members <==> m in r.members || (m.0 == PLATFORM_ID && m.1 in admins))
      && (forall m :: m in e.members ==> e.members[m] == if m in r.members then r.members[m] else Admin)
    decreases |admins|
  {
    if admins != [] {
      AdoptExactly(Add(r, PLATFORM_ID, admins[0], Admin), admins[1..]);
      assert admins == [admins[0]] + admins[1..];
    }
  }

  /** The platform, and no other organization, carries the platform's id. */
  ghost predicate PlatformPlaced(r: Registry) {
    forall o :: o in r.organizations ==> (r.organizations[o].Platform? <==> o == PLATFORM_ID)
  }

  /** ensure_platform: the platform is there, a given owner and every admin belong to it, and nobody's row changes. */
  lemma EnsurePlatformExactly(r: Registry, owner: Option<Id>, admins: seq<Id>)
    requires PlatformPlaced(r) && WellRoled(r)
    ensures var e := EnsurePlatform(r, owner, admins);
      && e.organizations == r.organizations[PLATFORM_ID := Platform]
      && (forall m :: m in e.members <==>
           m in r.members || (m.0 == PLATFORM_ID && (owner == Some(m.1) || m.1 in admins)))
      && (forall m :: m in e.members ==>
           e.members[m] == if m in r.members then r.members[m] else if owner == Some(m.1) then Owner else Admin)
  {
    AdoptExactly(PlacePlatform(r, owner), admins);
  }

  /** ensure_personal: the organization is there, its user belongs to it, as owner when new, and nothing else changes. */
  lemma EnsurePersonalExactly(r: Registry, u: Id)
    requires WellRoled(r)
    ensures var e := EnsurePersonal(r, u);
      && e.organizations == (if u in r.organizations then r.organizations else r.organizations[u := Personal])
      && (u, u) in e.members
      && ((u, u) !in r.members ==> e.members == r.members[(u, u) := Owner])
      && ((u, u) in r.members ==> e.members == r.members)
  {
  }

  // ---- Whole runs

  datatype Command =
    | AddMember(organization: Id, user: Id, role: Role)
    | UpdateRole(organization: Id, user: Id, role: Role)
    | RemoveMember(organization: Id, user: Id)
    | NewWorkspace(organization: Id, user: Id)
    | DeleteOrganization(organization: Id)
    | VisitPersonal(user: Id)
    | BootPlatform(owner: Option<Id>, admins: seq<Id>)
    | UserDeleted(user: Id, first: Chooser)

  function Execute(r: Registry, c: Command): Registry {
    match c
    case AddMember(o, u, role) => Add(r, o, u, role)
    case UpdateRole(o, u, role) => SetRole(r, o, u, role)
    case RemoveMember(o, u) => Remove(r, o, u)
    case NewWorkspace(o, u) => Insert(r, o, Workspace, Some(u))
    case DeleteOrganization(o) => Delete(r, o)
    case VisitPersonal(u) => EnsurePersonal(r, u)
    case BootPlatform(owner, admins) => EnsurePlatform(r, owner, admins)
    case UserDeleted(u, first) => DeleteUser(r, u, first)
  }

  /** New ids are fresh, no user or workspace takes the platform's id, and each deletion picks its successors among the others. */
  ghost predicate Proper(r: Registry, c: Command) {
    match c
    case NewWorkspace(o, u) => o != PLATFORM_ID && o !in r.organizations
    case VisitPersonal(u) => u != PLATFORM_ID
    case UserDeleted(_, first) => Chooses(first)
    case _ => true
  }

  /** Nobody but an owner joins an organization without members, the platform included. */
  predicate Welcome(r: Registry, c: Command) {
    match c
    case AddMember(o, u, role) => AddRefused(r, o, u, role) || role == Owner || MembersOf(r.members, o) != {}
    case BootPlatform(owner, admins) => owner.Some? || admins == [] || MembersOf(r.members, PLATFORM_ID) != {}
    case _ => true
  }

  lemma AddWelcome(r: Registry, o: Id, u: Id, role: Role)
    requires Sound(r) && (role == Owner || MembersOf(r.members, o) != {})
    ensures Sound(Add(r, o, u, role))
    ensures MembersOf(r.members, o) <= MembersOf(Add(r, o, u, role).members, o)
    ensures !AddRefused(r, o, u, role) ==> u in MembersOf(Add(r, o, u, role).members, o)
  {
    if !AddRefused(r, o, u, role) {
      AddKeepsOwnedExactly(r, o, u, role);
      MemberIn(Add(r, o, u, role).members, o, u);
    }
  }

  lemma {:induction false} AdoptKeepsSound(r: Registry, admins: seq<Id>)
    requires Sound(r) && (admins == [] || MembersOf(r.members, PLATFORM_ID) != {})
    ensures Sound(AdoptAdmins(r, admins))
    decreases |admins|
  {
    if admins != [] {
      AddWelcome(r, PLATFORM_ID, admins[0], Admin);
      AdoptKeepsSound(Add(r, PLATFORM_ID, admins[0], Admin), admins[1..]);
    }
  }

  lemma {:induction false} AdoptKeepsOrganizations(r: Registry, admins: seq<Id>)
    ensures AdoptAdmins(r, admins).organizations == r.organizations
    decreases |admins|
  {
    if admins != [] {
      AdoptKeepsOrganizations(Add(r, PLATFORM_ID, admins[0], Admin), admins[1..]);
    }
  }

  /** Adopting admins keeps the members and makes nobody an owner. */
  lemma {:induction false} AdoptAddsNoOwner(r: Registry, admins: seq<Id>)
    ensures forall m :: m in r.members ==> m in AdoptAdmins(r, admins).members
    ensures forall m :: m in AdoptAdmins(r, admins).members && AdoptAdmins(r, admins).members[m] == Owner ==>
      m in r.members && r.members[m] == Owner
    decreases |admins|
  {
    if admins != [] {
      AdoptAddsNoOwner(Add(r, PLATFORM_ID, admins[0], Admin), admins[1..]);
    }
  }

  lemma PlaceKeepsSound(r: Registry, owner: Option<Id>)
    requires Sound(r) && PlatformPlaced(r)
    ensures Sound(PlacePlatform(r, owner)) && PlatformPlaced(PlacePlatform(r, owner))
    ensures PLATFORM_ID in PlacePlatform(r, owner).organizations
    ensures MembersOf(PlacePlatform(r, owner).members, PLATFORM_ID) != {} <==>
      owner.Some? || MembersOf(r.members, PLATFORM_ID) != {}
  {
    var placed := PlacePlatform(r, owner);
    if PLATFORM_ID !in r.organizations {
      InsertKeepsSound(r, PLATFORM_ID, Platform, owner);
    } else if owner.Some? {
      AddWelcome(r, PLATFORM_ID, owner.value, Owner);
    }
    if owner.Some? {
      MemberIn(placed.members, PLATFORM_ID, owner.value);
    } else {
      assert placed.members == r.members;
    }
  }

  /** The first admin adopted into a platform without members is no owner. */
  lemma AdoptedWithoutOwner(r: Registry, admins: seq<Id>)
    requires PLATFORM_ID in r.organizations && r.organizations[PLATFORM_ID].Platform?
    requires MembersOf(r.members, PLATFORM_ID) == {} && admins != []
    ensures !Owned(AdoptAdmins(r, admins).members, PLATFORM_ID)
  {
    var joined, e := Add(r, PLATFORM_ID, admins[0], Admin), AdoptAdmins(r, admins);
    AdoptAddsNoOwner(r, admins);
    AdoptAddsNoOwner(joined, admins[1..]);
    MemberIn(r.members, PLATFORM_ID, admins[0]);
    MemberIn(e.members, PLATFORM_ID, admins[0]);
    forall u ensures u !in OwnersOf(e.members, PLATFORM_ID) {
      MemberIn(e.members, PLATFORM_ID, u);
      MemberIn(r.members, PLATFORM_ID, u);
    }
  }

  /**
   ensure_platform keeps every organization owned exactly when an owner is given, or there is no
   admin to adopt, or the platform has members already.
   */
  lemma BootKeepsSoundExactly(r: Registry, owner: Option<Id>, admins: seq<Id>)
    requires Sound(r) && PlatformPlaced(r)
    ensures Sound(EnsurePlatform(r, owner, admins)) <==> Welcome(r, BootPlatform(owner, admins))
  {
    PlaceKeepsSound(r, owner);
    var placed := PlacePlatform(r, owner);
    if Welcome(r, BootPlatform(owner, admins)) {
      AdoptKeepsSound(placed, admins);
    } else {
      AdoptedWithoutOwner(placed, admins);
      AdoptKeepsOrganizations(placed, admins);
    }
  }

  /** Of the proper commands, exactly the welcome ones keep every organization owned or empty. */
  lemma CommandKeepsSoundExactly(r: Registry, c: Command)
    requires Sound(r) && PlatformPlaced(r) && Proper(r, c)
    ensures Sound(Execute(r, c)) <==> Welcome(r, c)
    ensures PlatformPlaced(Execute(r, c))
  {
    match c
    case AddMember(o, u, role) =>
      if !AddRefused(r, o, u, role) {
        AddKeepsOwnedExactly(r, o, u, role);
      }
    case UpdateRole(o, u, role) => SetRoleKeepsSound(r, o, u, role);
    case RemoveMember(o, u) => RemoveKeepsSound(r, o, u);
    case NewWorkspace(o, u) => InsertKeepsSound(r, o, Workspace, Some(u));
    case DeleteOrganization(o) => DropKeepsSound(r, o);
    case VisitPersonal(u) =>
      if u in r.organizations {
        AddWelcome(r, u, u, Owner);
      } else {
        InsertKeepsSound(r, u, Personal, Some(u));
      }
    case BootPlatform(owner, admins) =>
      BootKeepsSoundExactly(r, owner, admins);
      PlaceKeepsSound(r, owner);
      AdoptKeepsOrganizations(PlacePlatform(r, owner), admins);
    case UserDeleted(u, first) =>
      DropKeepsSound(r, u);
      RemoveEverywhereKeepsSound(if u in r.organizations then DropOrganization(r, u) else r, u, first);
  }

  function ExecuteAll(r: Registry, cs: seq<Command>): Registry
    decreases |cs|
  {
    if |cs| == 0 then r else ExecuteAll(Execute(r, cs[0]), cs[1..])
  }

  ghost predicate AllProper(r: Registry, cs: seq<Command>)
    decreases |cs|
  {
    |cs| > 0 ==> Proper(r, cs[0]) && AllProper(Execute(r, cs[0]), cs[1..])
  }

  predicate AllWelcome(r: Registry, cs: seq<Command>)
    decreases |cs|
  {
    |cs| > 0 ==> Welcome(r, cs[0]) && AllWelcome(Execute(r, cs[0]), cs[1..])
  }

  /** The registry is sound at the start of the run and after every command. */
  ghost predicate AlwaysSound(r: Registry, cs: seq<Command>)
    decreases |cs|
  {
    Sound(r) && (|cs| > 0 ==> AlwaysSound(Execute(r, cs[0]), cs[1..]))
  }

  /**
   Over any run of membership operations, user deletion included, every organization has an owner
   or no members at all, at every moment, exactly when each command is welcome where it is taken.
   */
  lemma {:induction false} RunKeepsOwners(r: Registry, cs: seq<Command>)
    requires Sound(r) && PlatformPlaced(r) && AllProper(r, cs)
    ensures AlwaysSound(r, cs) <==> AllWelcome(r, cs)
    ensures AllWelcome(r, cs) ==> Sound(ExecuteAll(r, cs))
    decreases |cs|
  {
    if |cs| > 0 {
      var next := Execute(r, cs[0]);
      CommandKeepsSoundExactly(r, cs[0]);
      if Welcome(r, cs[0]) {
        RunKeepsOwners(next, cs[1..]);
      } else {
        assert !Sound(next);
      }
    }
  }

  lemma {:induction false} AdoptKeepsRoles(r: Registry, admins: seq<Id>)
    requires WellRoled(r)
    ensures WellRoled(AdoptAdmins(r, admins))
    decreases |admins|
  {
    if admins != [] {
      AdoptKeepsRoles(Add(r, PLATFORM_ID, admins[0], Admin), admins[1..]);
    }
  }

  lemma CommandKeepsRoles(r: Registry, c: Command)
    requires WellRoled(r) && PlatformPlaced(r) && Proper(r, c)
    ensures WellRoled(Execute(r, c)) && PlatformPlaced(Execute(r, c))
  {
    match c
    case BootPlatform(owner, admins) =>
      AdoptKeepsRoles(PlacePlatform(r, owner), admins);
      AdoptKeepsOrganizations(PlacePlatform(r, owner), admins);
    case _ =>
  }

  /**
   Over any run a personal organization holds nobody but its own user, as owner, and the
   platform never holds a plain user.  Nothing is asked of who joins.
   */
  lemma {:induction false} RunKeepsRoles(r: Registry, cs: seq<Command>)
    requires WellRoled(r) && PlatformPlaced(r) && AllProper(r, cs)
    ensures WellRoled(ExecuteAll(r, cs))
    decreases |cs|
  {
    if |cs| > 0 {
      CommandKeepsRoles(r, cs[0]);
      RunKeepsRoles(Execute(r, cs[0]), cs[1..]);
    }
  }

  /** A workspace whose one member was deleted, and then given a plain user, has members but no owner. */
  lemma EmptiedWorkspaceLosesOwner(first: Chooser) returns (cs: seq<Command>)
    requires Chooses(first)
    ensures AllProper(Registry(map[], map[]), cs)
    ensures !AllOwned(ExecuteAll(Registry(map[], map[]), cs))
  {
    var join := [AddMember("w", "bob", User)];
    var leave := [UserDeleted("ann", first)] + join;
    cs := [NewWorkspace("w", "ann")] + leave;
    assert join[1..] == [] && leave[1..] == join && cs[1..] == leave;
    var r0 := Registry(map[], map[]);
    var r1 := Insert(r0, "w", Workspace, Some("ann"));
    var r2 := DeleteUser(r1, "ann", first);
    assert r2.members == map[];
    assert r2.organizations == map["w" := Workspace];
    var r3 := Add(r2, "w", "bob", User);
    assert r3.members == map[("w", "bob") := User];
    assert ExecuteAll(r3, []) == r3;
    assert ExecuteAll(r2, join) == r3;
    assert ExecuteAll(r1, leave) == r3;
    MemberIn(r3.members, "w", "bob");
    assert OwnersOf(r3.members, "w") == {};
    assert !Owned(r3.members, "w");
  }

  /** A platform placed without an owner, by a request of a global admin, has that admin and no owner. */
  lemma PlatformWithoutOwner() returns (cs: seq<Command>)
    ensures AllProper(Registry(map[], map[]), cs)
    ensures !AllOwned(ExecuteAll(Registry(map[], map[]), cs))
  {
    cs := [BootPlatform(None, ["root"])];
    var r0 := Registry(map[], map[]);
    var r1 := PlacePlatform(r0, None);
    assert cs[1..] == [];
    AdoptedWithoutOwner(r1, ["root"]);
    AdoptKeepsOrganizations(r1, ["root"]);
    assert ExecuteAll(r0, cs) == ExecuteAll(AdoptAdmins(r1, ["root"]), []) == AdoptAdmins(r1, ["root"]);
  }

  // ---- Bookkeeping of the promotion loop

  /** The member rows once the memberships in done have been visited. */
  function PromotedIn(r: Registry, done: set<Id>, u: Id, first: Chooser): Members {
    map m | m in r.members :: if m.0 in done && IsSuccessor(r, m, u, first) then Owner else r.members[m]
  }

  lemma Untouched(r: Registry, done: set<Id>, u: Id, first: Chooser, o: Id)
    requires o !in done
    ensures forall v :: (o, v) in r.members ==> PromotedIn(r, done, u, first)[(o, v)] == r.members[(o, v)]
    ensures MembersOf(PromotedIn(r, done, u, first), o) == MembersOf(r.members, o)
    ensures OwnersOf(PromotedIn(r, done, u, first), o) == OwnersOf(r.members, o)
  {
    var p := PromotedIn(r, done, u, first);
    forall v ensures v in MembersOf(p, o) <==> v in MembersOf(r.members, o) {
      MemberIn(p, o, v);
      MemberIn(r.members, o, v);
    }
    forall v ensures v in OwnersOf(p, o) <==> v in OwnersOf(r.members, o) {
      MemberIn(p, o, v);
      MemberIn(r.members, o, v);
    }
  }

  function JoinedBy(members: Members, u: Id): set<Id> {
    set m | m in members && m.1 == u :: m.0
  }

  lemma MemberJoins(members: Members, u: Id, o: Id)
    ensures o in JoinedBy(members, u) <==> (o, u) in members
  {
    if (o, u) in members {
      assert (o, u).1 == u && (o, u).0 == o;
    }
  }

  /** The rows after one visit of the promotion loop. */
  function Visited(r: Registry, o: Id, u: Id, first: Chooser): Members {
    if NeedsSuccessor(r, o, u) then r.members[(o, first(o, OthersIn(r.members, o, u))) := Owner] else r.members
  }

  lemma VisitPromotes(r: Registry, done: set<Id>, u: Id, first: Chooser, o: Id)
    requires Chooses(first) && o !in done && (o, u) in r.members
    ensures Visited(Registry(r.organizations, PromotedIn(r, done, u, first)), o, u, first) == PromotedIn(r, done + {o}, u, first)
  {
    SameNeed(r, done, u, first, o);
    Promote(r, done, u, first, o);
  }

  lemma SameNeed(r: Registry, done: set<Id>, u: Id, first: Chooser, o: Id)
    requires o !in done && (o, u) in r.members
    ensures var now := Registry(r.organizations, PromotedIn(r, done, u, first));
      && (NeedsSuccessor(now, o, u) <==> NeedsSuccessor(r, o, u))
      && OthersIn(now.members, o, u) == OthersIn(r.members, o, u)
  {
    Untouched(r, done, u, first, o);
  }

  lemma Promote(r: Registry, done: set<Id>, u: Id, first: Chooser, o: Id)
    requires Chooses(first) && o !in done && (o, u) in r.members
    ensures PromotedIn(r, done + {o}, u, first) ==
      if NeedsSuccessor(r, o, u)
      then PromotedIn(r, done, u, first)[(o, first(o, OthersIn(r.members, o, u))) := Owner]
      else PromotedIn(r, done, u, first)
  {
    if NeedsSuccessor(r, o, u) {
      MemberIn(r.members, o, first(o, OthersIn(r.members, o, u)));
    }
  }

  lemma AllPromoted(r: Registry, all: set<Id>, u: Id, first: Chooser)
    requires all == JoinedBy(r.members, u)
    ensures forall m :: m in r.members && IsSuccessor(r, m, u, first) ==> m.0 in all
  {
    forall m | m in r.members && IsSuccessor(r, m, u, first) ensures m.0 in all {
      MemberJoins(r.members, u, m.0);
    }
  }

  // ---- The table, step by step

  /** How a call ended: it raised, it found nothing to do, or it took effect. */
  datatype Outcome = Raised | Nothing | Done

  class OrganizationTable {
    var organizations: map<Id, Kind>
    var members: Members

    function Value(): Registry
      reads this
    {
      Registry(organizations, members)
    }

    method AddMember(o: Id, u: Id, role: Role) returns (outcome: Outcome)
      modifies this`members
      ensures Value() == Add(old(Value()), o, u, role)
      ensures outcome.Raised? <==> AddRefused(old(Value()), o, u, role)
      ensures outcome.Done? <==> !AddRefused(old(Value()), o, u, role) && (o, u) !in old(members)
      ensures members == if outcome.Done? then old(members)[(o, u) := role] else old(members)
    {
      if o !in organizations {
        return Raised;
      }
      if organizations[o].Personal? && !(u == o && role == Owner) {
        return Raised;
      }
      if organizations[o].Platform? && role == User {
        return Raised;
      }
      if (o, u) in members {
        return Nothing;
      }
      members := members[(o, u) := role];
      outcome := Done;
    }

    method CountOwners(o: Id) returns (n: nat)
      ensures n == |OwnersOf(members, o)|
    {
      n := |set m | m in members && m.0 == o && members[m] == Owner :: m.1|;
    }

    method UpdateMemberRole(o: Id, u: Id, role: Role) returns (outcome: Outcome)
      modifies this`members
      ensures Value() == SetRole(old(Value()), o, u, role)
      ensures outcome.Done? <==> (o, u) in old(members) && !RoleRefused(old(Value()), o, u, role)
      ensures members == if outcome.Done? then old(members)[(o, u) := role] else old(members)
    {
      if o in organizations && organizations[o].Personal? {
        return Raised;
      }
      if o in organizations && organizations[o].Platform? && role == User {
        return Raised;
      }
      if (o, u) !in members {
        return Nothing;
      }
      var owners := CountOwners(o);
      if members[(o, u)] == Owner && role != Owner && owners <= 1 {
        return Raised;
      }
      members := members[(o, u) := role];
      outcome := Done;
    }

    method RemoveMember(o: Id, u: Id) returns (outcome: Outcome)
      modifies this`members
      ensures Value() == Remove(old(Value()), o, u)
      ensures outcome.Done? <==> (o, u) in old(members) && !RemoveRefused(old(Value()), o, u)
      ensures members == if outcome.Done? then old(members) - {(o, u)} else old(members)
    {
      if o in organizations && organizations[o].Personal? {
        return Raised;
      }
      if (o, u) !in members {
        assert members - {(o, u)} == members;
        return Nothing;
      }
      var owners := CountOwners(o);
      if members[(o, u)] == Owner && owners <= 1 {
        return Raised;
      }
      members := members - {(o, u)};
      outcome := Done;
    }

    /** insert_new_organization: under a fresh id, a workspace whose one member, and owner, is its creator. */
    method InsertNewOrganization(o: Id, u: Id)
      requires Sound(Value()) && o !in organizations
      modifies this
      ensures Sound(Value())
      ensures organizations == old(organizations)[o := Workspace]
      ensures MembersOf(members, o) == {u} && OwnersOf(members, o) == {u}
      ensures SameElsewhere(old(members), members, o)
    {
      InsertKeepsSound(Value(), o, Workspace, Some(u));
      organizations := organizations[o := Workspace];
      members := members[(o, u) := Owner];
      forall v ensures (v in MembersOf(members, o) <==> v == u) && (v in OwnersOf(members, o) <==> v == u) {
        MemberIn(members, o, v);
        assert (o, v) !in old(members);
      }
    }

    method EnsureOwnOrganization(u: Id)
      modifies this
      ensures Value() == EnsurePersonal(old(Value()), u)
    {
      if u in organizations {
        var outcome := Nothing;
        if (u, u) !in members {
          outcome := AddMember(u, u, Owner);
        }
      } else {
        organizations := organizations[u := Personal];
        members := members[(u, u) := Owner];
      }
    }

    method EnsurePlatformOrganization(owner: Option<Id>, admins: seq<Id>)
      modifies this
      ensures Value() == EnsurePlatform(old(Value()), owner, admins)
    {
      if PLATFORM_ID !in organizations {
        organizations := organizations[PLATFORM_ID := Platform];
        if owner.Some? {
          members := members[(PLATFORM_ID, owner.value) := Owner];
        }
      } else if owner.Some? && (PLATFORM_ID, owner.value) !in members {
        var outcome := AddMember(PLATFORM_ID, owner.value, Owner);
      }
      AdoptLegacyAdmins(admins);
    }

    /** A refused addition is skipped, and the loop goes on. */
    method AdoptLegacyAdmins(admins: seq<Id>)
      modifies this`members
      ensures Value() == AdoptAdmins(old(Value()), admins)
    {
      for i := 0 to |admins|
        invariant organizations == old(organizations)
        invariant AdoptAdmins(Value(), admins[i..]) == AdoptAdmins(old(Value()), admins)
      {
        assert admins[i..][1..] == admins[i + 1..];
        if (PLATFORM_ID, admins[i]) !in members {
          var outcome := AddMember(PLATFORM_ID, admins[i], Admin);
        }
      }
    }

    method DeleteOrganizationById(o: Id) returns (outcome: Outcome)
      modifies this
      ensures Value() == Delete(old(Value()), o)
      ensures outcome.Done? <==> o in old(organizations) && old(organizations)[o].Workspace?
      ensures organizations == if outcome.Done? then old(organizations) - {o} else old(organizations)
      ensures forall m :: m in members <==> m in old(members) && (outcome.Done? ==> m.0 != o)
      ensures forall m :: m in members ==> members[m] == old(members)[m]
    {
      if o !in organizations {
        return Nothing;
      }
      if organizations[o].Personal? || organizations[o].Platform? {
        return Raised;
      }
      members := map m | m in members && m.0 != o :: members[m];
      organizations := organizations - {o};
      outcome := Done;
    }

    /** delete_user_by_id, as far as memberships go. */
    method DeleteUserById(u: Id, first: Chooser)
      requires Chooses(first)
      modifies this
      ensures Value() == DeleteUser(old(Value()), u, first)
    {
      if u in organizations {
        members := map m | m in members && m.0 != u :: members[m];
        organizations := organizations - {u};
      }
      RemoveUserFromAll(u, first);
    }

    /** One membership of the user to be removed: promote somebody if the user is the last owner. */
    method VisitMembership(o: Id, u: Id, first: Chooser)
      requires (o, u) in members
      modifies this`members
      ensures members == Visited(old(Value()), o, u, first)
    {
      if o !in organizations || organizations[o].Personal? {
        return;
      }
      if members[(o, u)] == Owner {
        var owners := CountOwners(o);
        if owners <= 1 {
          var others := (set m | m in members && m.0 == o :: m.1) - {u};
          if others != {} {
            members := members[(o, first(o, others)) := Owner];
          }
        }
      }
    }

    /** remove_user_from_all_organizations: promote successors one membership at a time, then delete. */
    method RemoveUserFromAll(u: Id, first: Chooser)
      requires Chooses(first)
      modifies this`members
      ensures Value() == RemoveEverywhere(old(Value()), u, first)
    {
      ghost var r := Value();
      var todo := JoinedBy(members, u);
      ghost var done: set<Id> := {};
      assert members == PromotedIn(r, {}, u, first);
      while todo != {}
        invariant todo !! done && todo + done == JoinedBy(r.members, u)
        invariant organizations == r.organizations
        invariant members == PromotedIn(r, done, u, first)
        decreases todo
      {
        var o :| o in todo;
        MemberJoins(r.members, u, o);
        VisitMembership(o, u, first);
        VisitPromotes(r, done, u, first, o);
        todo, done := todo - {o}, done + {o};
      }
      AllPromoted(r, done, u, first);
      members := map m | m in members && !(m.1 == u && m.0 != u) :: members[m];
    }
  }
}
