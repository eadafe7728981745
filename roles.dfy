/** The two role predicates every protected handler consults. */
module Roles {
  import opened Models

  const AdminGroup: string := "Administrateurs"
  const RedacteurGroup: string := "Rédacteurs"

  /** `user.groups.filter(name=name).exists()`: some group of the user bears that name. */
  function InGroup(groups: seq<string>, name: string): (r: bool)
    ensures r <==> exists i :: 0 <= i < |groups| && groups[i] == name
  {
    if groups == [] then false
    else if groups[0] == name then true
    else
      var r := InGroup(groups[1..], name);
      assert r ==> exists i :: 0 <= i < |groups| && groups[i] == name by {
        if r {
          var i :| 0 <= i < |groups[1..]| && groups[1..][i] == name;
          assert groups[i + 1] == name;
        }
      }
      assert (exists i :: 0 <= i < |groups| && groups[i] == name) ==> r by {
        if exists i :: 0 <= i < |groups| && groups[i] == name {
          var i :| 0 <= i < |groups| && groups[i] == name;
          assert groups[1..][i - 1] == name;
        }
      }
      r
  }

  /** `is_admin`: a superuser, or a member of the administrators' group. */
  predicate IsAdmin(u: User)
    ensures IsAdmin(u) <==> u.isSuperuser || AdminGroup in u.groups
  {
    u.isSuperuser || InGroup(u.groups, AdminGroup)
  }

  /** `is_redacteur`: a member of the redactors' group; the superuser flag plays no part. */
  predicate IsRedacteur(u: User)
    ensures IsRedacteur(u) <==> RedacteurGroup in u.groups
  {
    InGroup(u.groups, RedacteurGroup)
  }

  /**
   * What the two checks accept: administrators are the superusers and the
   * members of "Administrateurs", redactors exactly the members of
   * "Rédacteurs". The roles are independent: a superuser outside the
   * redactors' group may not author articles, and group membership alone
   * decides each role.
   */
  lemma RolesByGroup(u: User)
    ensures IsAdmin(u) <==> u.isSuperuser || AdminGroup in u.groups
    ensures IsRedacteur(u) <==> RedacteurGroup in u.groups
    ensures u.isSuperuser && RedacteurGroup !in u.groups ==> IsAdmin(u) && !IsRedacteur(u)
    ensures !u.isSuperuser && AdminGroup !in u.groups ==> !IsAdmin(u)
  {
    if AdminGroup in u.groups {
      var i :| 0 <= i < |u.groups| && u.groups[i] == AdminGroup;
    }
    if RedacteurGroup in u.groups {
      var i :| 0 <= i < |u.groups| && u.groups[i] == RedacteurGroup;
    }
  }
}
