/** The role gate placed in front of the admin routes
    (src/middlewares/verifyrol.ts). Given the user id carried by the already
    verified token and the required role's name, it looks the user up, then the
    staff role of that name, and either passes the request on or answers. It
    reads the store and writes nothing, so it is a function of the two tables. */
module RoleGate {
  import opened Common
  import opened Records

  /** What the gate does with a request: pass it on (`next()`) or answer. */
  datatype Outcome = NotFoundUser | NotFoundRol | Admit | Reject

  /** Which of the gate's two lookups throws, if either does. */
  datatype Lookup = Completes | UserLookupThrows | RoleLookupThrows

  /** The status the gate answers with; an admitted request gets none from it. */
  function StatusOf(o: Outcome): (code: Option<int>)
    ensures code.None? <==> o == Admit
    ensures code == Some(NotFound) <==> o == NotFoundUser || o == NotFoundRol
    ensures code == Some(Unauthorized) <==> o == Reject
  {
    match o
    case NotFoundUser => Some(NotFound)
    case NotFoundRol => Some(NotFound)
    case Admit => None
    case Reject => Some(Unauthorized)
  }

  /** `verifyRol(rol)` as written. The final comparison ADMITS when the user's
      role id DIFFERS from the required role's id, so a holder of the required
      role is turned away and everyone else is let through: the inverse of the
      evident intent. (In the running code the comparison is `!==` between two
      ObjectId objects, which compares identities and is true even for equal
      ids; the model keeps the comparison of id values.) */
  function VerifyRol(users: map<Id, User>, roles: map<Id, Role>, payloadId: Id, rol: string, lookup: Lookup): (o: Outcome)
    // a lookup that throws ends in 401, unless the user was already missing
    ensures lookup.UserLookupThrows? ==> o == Reject
    ensures lookup.RoleLookupThrows? && payloadId in users ==> o == Reject
    // no user with the token's id: 404, before the role is even looked up
    ensures o == NotFoundUser <==> !lookup.UserLookupThrows? && payloadId !in users
    // the role is searched by name AND type_user = 1
    ensures o == NotFoundRol <==>
      lookup.Completes? && payloadId in users && FindStaffRole(roles, rol).None?
    // with both found, admit exactly when the ids differ
    ensures o == Admit <==>
      && lookup.Completes? && payloadId in users && FindStaffRole(roles, rol).Some?
      && users[payloadId].rolId != FindStaffRole(roles, rol).value
  {
    if lookup.UserLookupThrows? then Reject
    else if payloadId !in users then NotFoundUser
    else if lookup.RoleLookupThrows? then Reject
    else
      match FindStaffRole(roles, rol)
      case None => NotFoundRol
      case Some(rid) => if users[payloadId].rolId != rid then Admit else Reject
  }

  /** The gate as intended: admit exactly the holders of the required role. */
  function VerifyRolIntended(users: map<Id, User>, roles: map<Id, Role>, payloadId: Id, rol: string, lookup: Lookup): (o: Outcome)
    // admitted: the user's role is the first staff role of that name
    ensures o == Admit <==>
      && lookup.Completes? && payloadId in users
      && var rid := users[payloadId].rolId;
         rid in roles && roles[rid].typeUser == 1 && roles[rid].name == rol
         && FindStaffRole(roles, rol) == Some(rid)
    // the not-found answers are those of the gate as written
    ensures o == NotFoundUser <==> VerifyRol(users, roles, payloadId, rol, lookup) == NotFoundUser
    ensures o == NotFoundRol <==> VerifyRol(users, roles, payloadId, rol, lookup) == NotFoundRol
  {
    if lookup.UserLookupThrows? then Reject
    else if payloadId !in users then NotFoundUser
    else if lookup.RoleLookupThrows? then Reject
    else
      match FindStaffRole(roles, rol)
      case None => NotFoundRol
      case Some(rid) => if users[payloadId].rolId == rid then Admit else Reject
  }

  /** As written, holding the required role is exactly what gets a user
      rejected, while the intended gate admits that user; on every other found
      user the two gates disagree the other way round. */
  lemma RoleHolderRejected(users: map<Id, User>, roles: map<Id, Role>, payloadId: Id, rol: string)
    requires payloadId in users
    requires FindStaffRole(roles, rol).Some?
    ensures VerifyRol(users, roles, payloadId, rol, Completes) == Admit
        <==> VerifyRolIntended(users, roles, payloadId, rol, Completes) == Reject
    ensures users[payloadId].rolId == FindStaffRole(roles, rol).value ==>
      VerifyRol(users, roles, payloadId, rol, Completes) == Reject
  {
  }

  /** A concrete instance: user 0 holds role 7, the only staff role "admin". */
  lemma AdminRejectedExample()
    ensures VerifyRol(map[0 := User("001", "a@x.com", "Ana", 7)], map[7 := Role("admin", 1)], 0, "admin", Completes) == Reject
    ensures VerifyRolIntended(map[0 := User("001", "a@x.com", "Ana", 7)], map[7 := Role("admin", 1)], 0, "admin", Completes) == Admit
  {
    var roles := map[7 := Role("admin", 1)];
    assert roles.Keys == {7} && roles[7].typeUser == 1 && roles[7].name == "admin";
    assert FindStaffRole(roles, "admin") == Some(7);
  }
}
