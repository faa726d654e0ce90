/**
 * The role matcher `hasRequiredClaims`: the user's roles are loaded into a
 * set (Go's `map[string]struct{}`), then each required role is looked up,
 * stopping at the first one that is missing.
 */
module RoleMatcher {

  /** Every required role is one of the user's roles. */
  predicate Covers(userRoles: seq<string>, required: seq<string>)
  {
    forall i :: 0 <= i < |required| ==> required[i] in userRoles
  }

  /** The roles of a sequence, with order and repetition forgotten. */
  function Elems(roles: seq<string>): (e: set<string>)
    ensures forall r :: r in e <==> r in roles
  {
    set r | r in roles
  }

  method HasRequiredClaims(userRoles: seq<string>, requiredClaims: seq<string>) returns (ok: bool)
    ensures ok <==> Covers(userRoles, requiredClaims)
  {
    var m: set<string> := {};
    for i := 0 to |userRoles|
      invariant forall r :: r in m <==> r in userRoles[..i]
    {
      assert userRoles[..i + 1] == userRoles[..i] + [userRoles[i]];
      m := m + {userRoles[i]};
    }
    assert userRoles[..|userRoles|] == userRoles;
    for j := 0 to |requiredClaims|
      invariant forall k :: 0 <= k < j ==> requiredClaims[k] in userRoles
    {
      if requiredClaims[j] !in m {
        return false;
      }
    }
    return true;
  }

  /** The matcher is exactly set containment of the required roles in the user's. */
  lemma CoversIsSubset(userRoles: seq<string>, required: seq<string>)
    ensures Covers(userRoles, required) <==> Elems(required) <= Elems(userRoles)
  {
    if Covers(userRoles, required) {
      forall r | r in Elems(required)
        ensures r in Elems(userRoles)
      {
        var i :| 0 <= i < |required| && required[i] == r;
      }
    }
  }

  /** No required roles: any user passes, even one without roles. */
  lemma EmptyRequiredPasses(userRoles: seq<string>)
    ensures Covers(userRoles, [])
  {
  }

  /** A user without roles fails any non-empty requirement. */
  lemma NoRolesFailsNonEmpty(required: seq<string>)
    requires |required| > 0
    ensures !Covers([], required)
  {
    assert required[0] !in [];
  }

  /**
   * Only the sets of roles matter: reordering or repeating entries in
   * either argument does not change the verdict.
   */
  lemma OnlyElementsMatter(u: seq<string>, u': seq<string>, r: seq<string>, r': seq<string>)
    requires Elems(u) == Elems(u') && Elems(r) == Elems(r')
    ensures Covers(u, r) == Covers(u', r')
  {
    CoversIsSubset(u, r);
    CoversIsSubset(u', r');
  }
}
