/** Access control on applications. */
module Auth {
  import opened Common

  datatype Role = AdminRole | ManagerRole | ReaderRole

  datatype User = Authenticated(userId: string, roles: seq<string>) | Anonymous

  datatype Permission = OwnerPermission | AdminPermission | WritePermission | ReadPermission

  datatype Decision = Allow | Deny

  predicate IsAdmin(u: User) {
    u.Authenticated? && "drogue-admin" in u.roles
  }

  function UserId(u: User): Option<string> {
    if u.Authenticated? then Some(u.userId) else None
  }

  /** The decision for a resource with this owner and these members. */
  function Authorize(owner: Option<string>, members: map<string, Role>, u: User, p: Permission): Decision {
    if IsAdmin(u) then Allow
    else if owner.None? then Allow
    else if UserId(u) == owner then Allow
    else if p == OwnerPermission then Deny
    else
      var name := if u.Authenticated? then u.userId else "";
      if name !in members then Deny
      else
        match p
        case OwnerPermission => Deny
        case AdminPermission => if members[name] == AdminRole then Allow else Deny
        case WritePermission => if members[name] == AdminRole || members[name] == ManagerRole then Allow else Deny
        case ReadPermission => Allow
  }

  // ----- who may do what -----

  /** Admins may do everything, and everybody may do everything with what has no owner. Otherwise it takes the owner, or a
      member with one of the roles; the member with the empty name stands for the anonymous user. */
  predicate May(owner: Option<string>, members: map<string, Role>, u: User, roles: set<Role>) {
    || (u.Authenticated? && "drogue-admin" in u.roles)
    || owner == None
    || (u.Authenticated? && owner == Some(u.userId))
    || (u.Authenticated? && u.userId in members && members[u.userId] in roles)
    || (u.Anonymous? && "" in members && members[""] in roles)
  }

  /** The roles that carry each permission. */
  lemma PermissionsAreRoles(owner: Option<string>, members: map<string, Role>, u: User)
    ensures Authorize(owner, members, u, OwnerPermission) == Allow <==> May(owner, members, u, {})
    ensures Authorize(owner, members, u, AdminPermission) == Allow <==> May(owner, members, u, {AdminRole})
    ensures Authorize(owner, members, u, WritePermission) == Allow <==> May(owner, members, u, {AdminRole, ManagerRole})
    ensures Authorize(owner, members, u, ReadPermission) == Allow <==>
      May(owner, members, u, {AdminRole, ManagerRole, ReaderRole})
  {
  }

  /** Permissions are ordered: whoever may do more may also do less. */
  lemma PermissionsAreNested(owner: Option<string>, members: map<string, Role>, u: User)
    ensures Authorize(owner, members, u, OwnerPermission).Allow? ==> Authorize(owner, members, u, AdminPermission).Allow?
    ensures Authorize(owner, members, u, AdminPermission).Allow? ==> Authorize(owner, members, u, WritePermission).Allow?
    ensures Authorize(owner, members, u, WritePermission).Allow? ==> Authorize(owner, members, u, ReadPermission).Allow?
  {
  }
}
