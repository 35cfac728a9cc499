/**
 * The data migration from the `is_admin` flag to roles. `up` creates one role
 * per enum case, gives every user the role its flag implies, and replaces the
 * invitations' flag by a role column; `down` goes back. Each table is a
 * sequence of one column's values, in row order.
 */
module RoleMigration {
  import opened Wrappers
  import opened RoleEnum
  import opened Sorting

  /** The role names the enum's cases give. */
  const RoleNames: set<string> := {"admin", "user", "viewer"}

  predicate NoDuplicates(xs: seq<string>) {
    forall i, j :: 0 <= i < j < |xs| ==> xs[i] != xs[j]
  }

  /** A name is a role name exactly when some case has it as backing value. */
  lemma RoleNamesAreValues(x: string)
    ensures x in RoleNames <==> exists k :: 0 <= k < |Cases| && Value(Cases[k]) == x
  {
    if x in RoleNames {
      if x == "admin" { assert Value(Cases[0]) == x; }
      else if x == "user" { assert Value(Cases[1]) == x; }
      else { assert Value(Cases[2]) == x; }
    }
  }

  /**
   * up, first step: `Role::firstOrCreate` for each case in turn. Existing rows
   * stay as they are; the rows added are role names not there before; afterwards
   * every case has a role, and a table without duplicate names still has none.
   */
  method CreateRoles(existing: seq<string>) returns (roles: seq<string>)
    ensures |existing| <= |roles| <= |existing| + |Cases|
    ensures roles[..|existing|] == existing
    ensures forall r: Role :: Value(r) in roles
    ensures forall k :: |existing| <= k < |roles| ==> roles[k] in RoleNames && roles[k] !in existing
    ensures NoDuplicates(existing) ==> NoDuplicates(roles)
  {
    roles := existing;
    var n := 0;
    while n < |Cases|
      invariant 0 <= n <= |Cases|
      invariant |existing| <= |roles| <= |existing| + n
      invariant roles[..|existing|] == existing
      invariant forall k :: 0 <= k < n ==> Value(Cases[k]) in roles
      invariant forall k :: |existing| <= k < |roles| ==> roles[k] in RoleNames && roles[k] !in existing
      invariant NoDuplicates(existing) ==> NoDuplicates(roles)
    {
      var name := Value(Cases[n]);
      if name !in roles {
        assert name !in existing by {
          assert existing == roles[..|existing|];
        }
        roles := roles + [name];
      }
      n := n + 1;
    }
    forall r: Role ensures Value(r) in roles {
      match r
      case Admin => assert Value(Cases[0]) in roles;
      case User => assert Value(Cases[1]) in roles;
      case Viewer => assert Value(Cases[2]) in roles;
    }
  }

  /** The role a user's or an invitation's `is_admin` flag becomes. */
  function UpRole(isAdmin: bool): (r: Role)
    ensures IsAdmin(r) == isAdmin
    ensures r != Viewer
  {
    if isAdmin then Admin else User
  }

  /** up, second step: `assignRole` for every user, from its flag. */
  method UpUsers(isAdmin: seq<bool>) returns (roles: seq<Role>)
    ensures |roles| == |isAdmin|
    ensures forall k :: 0 <= k < |roles| ==> roles[k] == UpRole(isAdmin[k])
  {
    roles := [];
    var n := 0;
    while n < |isAdmin|
      invariant 0 <= n <= |isAdmin|
      invariant |roles| == n
      invariant forall k :: 0 <= k < n ==> roles[k] == UpRole(isAdmin[k])
    {
      var role := if isAdmin[n] then Admin else User;
      roles := roles + [role];
      n := n + 1;
    }
  }

  /**
   * up, invitations: the new column starts at its default 'user', then two
   * bulk updates set it from the flag.
   */
  method UpInvitations(isAdmin: seq<bool>) returns (roles: seq<string>)
    ensures |roles| == |isAdmin|
    ensures forall k :: 0 <= k < |roles| ==> roles[k] == Value(UpRole(isAdmin[k]))
  {
    roles := seq(|isAdmin|, _ => Value(User));
    roles := seq(|roles|, k requires 0 <= k < |roles| => if isAdmin[k] then Value(Admin) else roles[k]);
    roles := seq(|roles|, k requires 0 <= k < |roles| => if !isAdmin[k] then Value(User) else roles[k]);
  }

  /** down, users: the restored flag is whether the user has the admin role. */
  function DownIsAdmin(r: Role): (isAdmin: bool)
    ensures isAdmin <==> r == Admin
  {
    match r
    case Admin => true
    case User => false
    case Viewer => false
  }

  method DownUsers(roles: seq<Role>) returns (isAdmin: seq<bool>)
    ensures |isAdmin| == |roles|
    ensures forall k :: 0 <= k < |roles| ==> isAdmin[k] == DownIsAdmin(roles[k])
  {
    isAdmin := [];
    var n := 0;
    while n < |roles|
      invariant 0 <= n <= |roles|
      invariant |isAdmin| == n
      invariant forall k :: 0 <= k < n ==> isAdmin[k] == DownIsAdmin(roles[k])
    {
      isAdmin := isAdmin + [roles[n] == Admin];
      n := n + 1;
    }
  }

  /** down, invitations: 'admin' becomes true and every other value false. */
  function DownInvitationIsAdmin(role: string): (isAdmin: bool)
    ensures isAdmin <==> TryFrom(role) == Some(Admin)
  {
    role == Value(Admin)
  }

  /**
   * down, invitations: the new flag starts at its default false, then two bulk
   * updates set it from the role column.
   */
  method DownInvitations(roles: seq<string>) returns (isAdmin: seq<bool>)
    ensures |isAdmin| == |roles|
    ensures forall k :: 0 <= k < |roles| ==> isAdmin[k] == DownInvitationIsAdmin(roles[k])
  {
    isAdmin := seq(|roles|, _ => false);
    isAdmin := seq(|isAdmin|, k requires 0 <= k < |isAdmin| => if roles[k] == Value(Admin) then true else isAdmin[k]);
    isAdmin := seq(|isAdmin|, k requires 0 <= k < |isAdmin| => if roles[k] != Value(Admin) then false else isAdmin[k]);
  }

  /** `x` is the role name of one of the first `n` cases. */
  predicate NamedByFirst(n: nat, x: string) {
    exists k :: 0 <= k < n && k < |Cases| && Value(Cases[k]) == x
  }

  /** down, last step: the roles named after the cases are deleted, one case at a time. */
  method DropRoles(roles: seq<string>) returns (kept: seq<string>)
    ensures forall x :: multiset(kept)[x] == if x in RoleNames then 0 else multiset(roles)[x]
  {
    kept := roles;
    var n := 0;
    while n < |Cases|
      invariant 0 <= n <= |Cases|
      invariant forall x :: multiset(kept)[x] == if NamedByFirst(n, x) then 0 else multiset(roles)[x]
    {
      var name := Value(Cases[n]);
      kept := Filter(kept, (s: string) => s != name);
      n := n + 1;
    }
    forall x ensures multiset(kept)[x] == if x in RoleNames then 0 else multiset(roles)[x] {
      RoleNamesAreValues(x);
    }
  }

  /** down undoes up on every flag: admin and non-admin rows get their flag back. */
  lemma FlagsRoundTrip(isAdmin: seq<bool>, roles: seq<Role>, back: seq<bool>)
    requires |roles| == |isAdmin| && forall k :: 0 <= k < |roles| ==> roles[k] == UpRole(isAdmin[k])
    requires |back| == |roles| && forall k :: 0 <= k < |back| ==> back[k] == DownIsAdmin(roles[k])
    ensures back == isAdmin
  {
  }

  /** down undoes up on the invitations' flag too. */
  lemma InvitationFlagsRoundTrip(b: bool)
    ensures DownInvitationIsAdmin(Value(UpRole(b))) == b
  {
  }

  /** up after down keeps Admin and User but turns Viewer into User: the migration is lossy. */
  lemma RolesAfterDownAndUp(r: Role)
    ensures UpRole(DownIsAdmin(r)) == if r == Viewer then User else r
    ensures UpRole(DownIsAdmin(Viewer)) != Viewer
  {
  }

  /** down undoes up on the roles table, when it held no role named after a case before. */
  lemma RolesTableRoundTrip(existing: seq<string>, created: seq<string>, dropped: seq<string>)
    requires forall x :: x in existing ==> x !in RoleNames
    requires |existing| <= |created| && created[..|existing|] == existing
    requires forall k :: |existing| <= k < |created| ==> created[k] in RoleNames
    requires forall x :: multiset(dropped)[x] == if x in RoleNames then 0 else multiset(created)[x]
    ensures multiset(dropped) == multiset(existing)
  {
    var added := created[|existing|..];
    assert created == existing + added;
    forall x ensures multiset(dropped)[x] == multiset(existing)[x] {
      if x in RoleNames {
        assert x !in existing;
      } else {
        assert x !in added;
      }
    }
  }
}
