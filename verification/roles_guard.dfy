/** `RolesGuard.canActivate`: the role requirement of a route, read from
    handler metadata before class metadata, decides allow or deny for an
    optional principal. */
module RolesGuard {
  import opened Wrappers
  import opened Roles
  import opened AuthTypes

  /** `reflector.getAllAndOverride(ROLES_KEY, [handler, class]) ?? []`:
      the first metadata value that is defined, else no requirement. */
  function RequiredRoles(handlerRoles: Option<seq<Role>>, classRoles: Option<seq<Role>>): (required: seq<Role>)
    ensures handlerRoles.Some? ==> required == handlerRoles.value
    ensures handlerRoles.None? ==> required == classRoles.GetOr([])
  {
    match handlerRoles
    case Some(rs) => rs
    case None => classRoles.GetOr([])
  }

  /** `requiredRoles.some(role => user.roles.includes(role))`, scanned in order. */
  function SomeHeld(required: seq<Role>, held: seq<Role>): (b: bool)
    ensures b <==> exists r :: r in required && r in held
    decreases |required|
  {
    if |required| == 0 then false
    else if required[0] in held then true
    else
      assert forall r :: r in required[1..] ==> r in required;
      assert forall r :: r in required && r != required[0] ==> r in required[1..];
      SomeHeld(required[1..], held)
  }

  /** The decision once the requirement is known. */
  function Decide(required: seq<Role>, user: Option<Principal>): bool {
    if |required| == 0 then true
    else if user.None? then false
    else SomeHeld(required, user.value.roles)
  }

  /** `canActivate`: allowed iff the effective requirement is empty, or a
      principal is present holding one of its roles. */
  function CanActivate(handlerRoles: Option<seq<Role>>, classRoles: Option<seq<Role>>, user: Option<Principal>)
    : (allowed: bool)
    ensures var required := if handlerRoles.Some? then handlerRoles.value else classRoles.GetOr([]);
      allowed <==> required == [] || (user.Some? && exists r :: r in required && r in user.value.roles)
  {
    Decide(RequiredRoles(handlerRoles, classRoles), user)
  }

  /** Access is granted exactly when nothing is required, or a principal is
      present and holds at least one of the required roles (OR, not AND). */
  lemma DecideMeaning(required: seq<Role>, user: Option<Principal>)
    ensures Decide(required, user) <==>
              required == [] || (user.Some? && exists r :: r in required && r in user.value.roles)
  {
  }

  /** Handler metadata, even an empty list, overrides class metadata; class
      metadata applies only when the handler declares none. */
  lemma MetadataOverride(handlerRoles: Option<seq<Role>>, classRoles: Option<seq<Role>>, user: Option<Principal>)
    ensures handlerRoles.Some? ==> CanActivate(handlerRoles, classRoles, user) == Decide(handlerRoles.value, user)
    ensures handlerRoles.None? && classRoles.None? ==> CanActivate(handlerRoles, classRoles, user)
    ensures handlerRoles == Some([]) ==> CanActivate(handlerRoles, classRoles, user)
  {
  }

  /** Requiring any role denies an anonymous request. */
  lemma AnonymousDenied(required: seq<Role>)
    requires required != []
    ensures !Decide(required, None)
  {
  }

  /** Monotone: giving the principal more roles, or listing more
      alternatives in a non-empty requirement, never turns allow into deny. */
  lemma DecideMonotone(required: seq<Role>, required': seq<Role>, p: Principal, p': Principal)
    requires required != []
    requires forall r :: r in required ==> r in required'
    requires forall r :: r in p.roles ==> r in p'.roles
    requires Decide(required, Some(p))
    ensures Decide(required', Some(p'))
  {
    var r :| r in required && r in p.roles;
    assert r in required' && r in p'.roles;
  }
}
