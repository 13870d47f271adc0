/**
 * The authorisation rules for persons. An administrator passes every check
 * in `before`; anyone else needs the matching person CRUD permission, and
 * for an existing person also that the person belongs to them.
 *
 * `crud` is the set of actions `Permission::canCRUD` grants the user on
 * persons (its table lookup is not part of this model). The belonging test
 * is a person query, so it runs under the person scope.
 */
module PersonPolicy {
  import opened Common
  import opened PersonScope

  datatype PolicyUser = PolicyUser(viewer: Viewer, crud: set<string>)

  datatype Ability = Create | View | Edit | Destroy

  /** The CRUD action each ability asks for. */
  function Action(a: Ability): string {
    match a
    case Create => "create"
    case View => "read"
    case Edit => "update"
    case Destroy => "delete"
  }

  /** `personBelongsToUser`: the scoped person query, narrowed to owners in
    * the connected list (the user's own id is not added here) and to the
    * person's id, finds a row. */
  predicate BelongsToUser(u: PolicyUser, rows: seq<PersonRow>, personId: int) {
    exists row :: row in Apply(rows, u.viewer) && row.userId in u.viewer.connected && row.id == personId
  }

  /** The gate's answer: `before` settles it for an administrator;
    * otherwise `create` asks for the permission only, and `view`, `edit`
    * and `destroy` ask for the permission and belonging. */
  predicate Allows(u: PolicyUser, a: Ability, rows: seq<PersonRow>, personId: int) {
    if u.viewer.admin then true
    else if a == Create then Action(a) in u.crud
    else Action(a) in u.crud && BelongsToUser(u, rows, personId)
  }

  /** Belonging is ownership by a connected user: the scope's extra owner,
    * the user themselves, does not count. */
  lemma BelongingMeaning(u: PolicyUser, rows: seq<PersonRow>, personId: int)
    requires !u.viewer.admin
    ensures BelongsToUser(u, rows, personId) <==>
      exists row :: row in rows && row.id == personId && row.userId in u.viewer.connected
  {
    ScopeNarrows(rows, u.viewer);
  }

  /** The rules of the policy, each in both directions. */
  lemma PolicyRules(u: PolicyUser, rows: seq<PersonRow>, personId: int)
    ensures u.viewer.admin ==> forall a :: Allows(u, a, rows, personId)
    ensures !u.viewer.admin ==> (Allows(u, Create, rows, personId) <==> "create" in u.crud)
    ensures !u.viewer.admin ==> (Allows(u, View, rows, personId) <==>
      "read" in u.crud && exists row :: row in rows && row.id == personId && row.userId in u.viewer.connected)
    ensures !u.viewer.admin ==> (Allows(u, Edit, rows, personId) <==>
      "update" in u.crud && exists row :: row in rows && row.id == personId && row.userId in u.viewer.connected)
    ensures !u.viewer.admin ==> (Allows(u, Destroy, rows, personId) <==>
      "delete" in u.crud && exists row :: row in rows && row.id == personId && row.userId in u.viewer.connected)
  {
    if !u.viewer.admin {
      BelongingMeaning(u, rows, personId);
    }
  }

  /** Whatever the policy lets a user view, edit or destroy is also
    * visible to them through the scope. */
  lemma AllowedIsVisible(u: PolicyUser, a: Ability, rows: seq<PersonRow>, personId: int)
    requires !u.viewer.admin && a != Create && Allows(u, a, rows, personId)
    ensures exists row :: row in Apply(rows, u.viewer) && row.id == personId
  {
  }

  /** A user's own person, when the user is not among their connected
    * users, is visible through the scope but cannot be viewed, edited or
    * destroyed through the policy. */
  lemma OwnPersonNotConnected(u: PolicyUser, a: Ability, rows: seq<PersonRow>, row: PersonRow)
    requires !u.viewer.admin && a != Create
    requires row in rows && row.userId == u.viewer.id && u.viewer.id !in u.viewer.connected
    requires forall other :: other in rows && other.id == row.id ==> other == row
    ensures row in Apply(rows, u.viewer)
    ensures !Allows(u, a, rows, row.id)
  {
    OwnPersonsVisible(rows, u.viewer, row);
    BelongingMeaning(u, rows, row.id);
  }
}
