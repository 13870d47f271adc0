/**
 * The global scope every person query runs under once a user is signed in:
 * an administrator sees every person, anyone else only the persons
 * attributed to themselves or to a user connected with one of their
 * companies.
 *
 * A query is the sequence of person rows it would return; the connected
 * user ids (`Company::userIdListConnectedWithMyCompanies`) are an input.
 */
module PersonScope {
  import opened Common

  datatype PersonRow = PersonRow(id: int, userId: int)

  datatype Viewer = Viewer(id: int, admin: bool, connected: seq<int>)

  /** `array_merge([$user->id], connected)`. */
  function AllowedOwners(v: Viewer): seq<int> {
    [v.id] + v.connected
  }

  predicate Attributed(v: Viewer, row: PersonRow) {
    row.userId in AllowedOwners(v)
  }

  function AttributedTo(v: Viewer): PersonRow -> bool {
    row => Attributed(v, row)
  }

  /** `apply`: no condition for an administrator, otherwise
    * `whereIn('user_id', [own id] ++ connected)`. */
  function Apply(rows: seq<PersonRow>, v: Viewer): (r: seq<PersonRow>)
    ensures v.admin ==> r == rows
    ensures !v.admin ==> r == Filter(rows, AttributedTo(v))
  {
    if v.admin then rows else Filter(rows, AttributedTo(v))
  }

  /** The scope only narrows: every row it keeps was in the query, in the
    * same order, and a non-administrator sees a row iff its owner is the
    * viewer or a connected user. */
  lemma {:induction false} ScopeNarrows(rows: seq<PersonRow>, v: Viewer)
    ensures |Apply(rows, v)| <= |rows|
    ensures forall row :: row in Apply(rows, v) ==> row in rows
    ensures !v.admin ==> forall row :: row in rows ==>
      (row in Apply(rows, v) <==> row.userId == v.id || row.userId in v.connected)
  {
    if !v.admin {
      var r := Filter(rows, AttributedTo(v));
      forall row | row in r ensures row in rows && Attributed(v, row) {
        var i :| 0 <= i < |r| && r[i] == row;
      }
      forall row | row in rows ensures row in r <==> Attributed(v, row) {
        if Attributed(v, row) {
          var i :| 0 <= i < |rows| && rows[i] == row;
        }
      }
    }
  }

  /** The viewer's own persons are always visible, whatever the
    * connected list holds. */
  lemma OwnPersonsVisible(rows: seq<PersonRow>, v: Viewer, row: PersonRow)
    requires row in rows && row.userId == v.id
    ensures row in Apply(rows, v)
  {
    ScopeNarrows(rows, v);
  }

  /** Applying the scope twice is applying it once. */
  lemma ScopeIdempotent(rows: seq<PersonRow>, v: Viewer)
    ensures Apply(Apply(rows, v), v) == Apply(rows, v)
  {
    if !v.admin {
      FilterAll(Filter(rows, AttributedTo(v)), AttributedTo(v));
    }
  }
}
