/**
 * The v1 patient endpoints: access to one patient, soft deletion, the two
 * patches, id_code generation, and the group filter that decides whose
 * patients a listing shows.
 *
 * The patients table is a map from id to record. Every lookup goes through
 * the model's global scope, which hides soft-deleted rows: `Patient::find`
 * and the id_code uniqueness query never see a row whose `is_deleted` is
 * set. The `group_user` table is a sequence of memberships in table order.
 */
module Patients {
  import opened Common

  datatype Patient = Patient(
    userId: int,
    firstName: string,
    lastName: string,
    idCode: string,
    isActive: bool,
    isDeleted: bool,
    email: Option<string>,
    birthdate: Option<string>,
    phone: Option<string>,
    birthCity: Option<string>,
    birthCountry: Option<string>)

  /** A reply: a success status with a body, or an error status with its
    * message. */
  datatype Reply<T> = Success(status: int, body: T) | Failure(status: int, message: string)

  type Patients = map<int, Patient>

  /** `Patient::find($id)` under the deleted-rows scope. */
  function FindIn(patients: Patients, id: int): (r: Option<Patient>)
    ensures r.Some? <==> id in patients && !patients[id].isDeleted
    ensures r.Some? ==> r.value == patients[id]
  {
    if id in patients && !patients[id].isDeleted then Some(patients[id]) else None
  }

  // ---------------------------------------------------------------------
  // Groups

  datatype Membership = Membership(userId: int, groupId: int, isAdmin: bool)

  /** `isGroupAdmin`: the user administers some group. */
  predicate IsGroupAdmin(groups: seq<Membership>, user: int) {
    exists m :: m in groups && m.userId == user && m.isAdmin
  }

  /** `isUserInMyAdminGroups`: `other` is a member of a group that `user`
    * administers. */
  predicate IsUserInMyAdminGroups(groups: seq<Membership>, user: int, other: int) {
    exists a, b :: a in groups && b in groups && a.userId == user && a.isAdmin && b.groupId == a.groupId && b.userId == other
  }

  /** The patient's owner, or an administrator of one of the owner's
    * groups. */
  predicate MayView(groups: seq<Membership>, caller: int, owner: int) {
    owner == caller || (IsGroupAdmin(groups, caller) && IsUserInMyAdminGroups(groups, caller, owner))
  }

  /** `getPatient`. */
  function GetPatient(patients: Patients, groups: seq<Membership>, caller: int, id: int): (r: Reply<Patient>)
    ensures r.Success? ==> r.status == 200 && FindIn(patients, id) == Some(r.body)
  {
    match FindIn(patients, id)
    case None => Failure(404, "Patient not found")
    case Some(p) =>
      if p.userId != caller && (!IsGroupAdmin(groups, caller) || !IsUserInMyAdminGroups(groups, caller, p.userId))
      then Failure(403, "You not owner a patient")
      else Success(200, p)
  }

  /** A patient is returned exactly when it exists and the caller may view
    * it; a missing one is 404 and a forbidden one 403. */
  lemma GetPatientAccess(patients: Patients, groups: seq<Membership>, caller: int, id: int)
    ensures var r := GetPatient(patients, groups, caller, id);
      && (r.Success? <==> id in patients && !patients[id].isDeleted && MayView(groups, caller, patients[id].userId))
      && (r.Failure? && r.status == 404 <==> FindIn(patients, id).None?)
      && (r.Failure? && FindIn(patients, id).Some? ==> r.status == 403)
  {
  }

  /** The owner always gets the patient; a caller who administers no group
    * gets only their own. */
  lemma OwnerAlwaysAllowed(patients: Patients, groups: seq<Membership>, caller: int, id: int)
    requires FindIn(patients, id).Some?
    ensures patients[id].userId == caller ==> GetPatient(patients, groups, caller, id).Success?
    ensures !IsGroupAdmin(groups, caller) && patients[id].userId != caller ==>
      GetPatient(patients, groups, caller, id) == Failure(403, "You not owner a patient")
  {
  }

  // ---------------------------------------------------------------------
  // Deletion and patches, on the table

  /** The status `deletePatient` answers: 204 for a missing patient, 403 for
    * another user's, 422 for an active one, otherwise 200. */
  function DeleteStatus(patients: Patients, caller: int, id: int): int {
    match FindIn(patients, id)
    case None => 204
    case Some(p) => if p.userId != caller then 403 else if p.isActive then 422 else 200
  }

  /** The table after `deletePatient`. */
  function AfterDelete(patients: Patients, caller: int, id: int): Patients {
    if DeleteStatus(patients, caller, id) == 200 then patients[id := patients[id].(isDeleted := true)] else patients
  }

  /** Deletion changes only the flag of the deleted patient, and only when
    * the answer is 200. */
  lemma DeleteOnlySetsFlag(patients: Patients, caller: int, id: int)
    ensures var after := AfterDelete(patients, caller, id);
      && after.Keys == patients.Keys
      && (forall k :: k in patients && k != id ==> after[k] == patients[k])
      && (DeleteStatus(patients, caller, id) != 200 <==> after == patients)
      && (DeleteStatus(patients, caller, id) == 200 ==>
            after[id].isDeleted && after[id] == patients[id].(isDeleted := true))
  {
    if DeleteStatus(patients, caller, id) == 200 {
      assert !patients[id].isDeleted;
      assert AfterDelete(patients, caller, id)[id] != patients[id];
    }
  }

  /** A deleted patient disappears: a second delete answers 204 and the
    * patient can no longer be read. */
  lemma DeleteTwice(patients: Patients, groups: seq<Membership>, caller: int, id: int)
    requires DeleteStatus(patients, caller, id) == 200
    ensures DeleteStatus(AfterDelete(patients, caller, id), caller, id) == 204
    ensures AfterDelete(AfterDelete(patients, caller, id), caller, id) == AfterDelete(patients, caller, id)
    ensures GetPatient(AfterDelete(patients, caller, id), groups, caller, id).status == 404
  {
  }

  /** An active patient is never deleted. */
  lemma ActivePatientSurvivesDelete(patients: Patients, caller: int, id: int)
    requires id in patients && patients[id].isActive
    ensures AfterDelete(patients, caller, id) == patients
  {
  }

  /** The status of the two patches: 404 before 403. */
  function PatchStatus(patients: Patients, caller: int, id: int): (status: int)
    ensures status == 404 <==> FindIn(patients, id).None?
    ensures status == 403 <==> FindIn(patients, id).Some? && patients[id].userId != caller
    ensures status == 200 <==> FindIn(patients, id).Some? && patients[id].userId == caller
  {
    match FindIn(patients, id)
    case None => 404
    case Some(p) => if p.userId != caller then 403 else 200
  }

  // ---------------------------------------------------------------------
  // id_code

  /** One pass of the do-while: a digit 0..9 and three capital letters. */
  datatype Draw = Draw(digit: int, letters: string)

  predicate IsCapital(c: char) { 'A' <= c <= 'Z' }

  predicate ValidDraw(d: Draw) {
    0 <= d.digit <= 9 && |d.letters| == 3 && forall i :: 0 <= i < 3 ==> IsCapital(d.letters[i])
  }

  /** `substr($abbreviation, 0, 2)`. */
  function Prefix(abbreviation: string): (p: string)
    ensures |p| <= 2 && |p| <= |abbreviation| && p == abbreviation[..|p|]
  {
    if |abbreviation| < 2 then abbreviation else abbreviation[..2]
  }

  /** `substr($abbr, 0, 2) . substr_replace($YYY, $X, 1, 0)`: the digit is
    * inserted after the first letter. */
  function IdCode(abbreviation: string, d: Draw): string
    requires ValidDraw(d)
  {
    Prefix(abbreviation) + [d.letters[0], ('0' as int + d.digit) as char] + d.letters[1..]
  }

  /** The abbreviation's first two characters, then capital, digit,
    * capital, capital. */
  predicate IdCodeShape(abbreviation: string, code: string) {
    var n := |Prefix(abbreviation)|;
    && |code| == n + 4
    && code[..n] == Prefix(abbreviation)
    && IsCapital(code[n]) && IsDigit(code[n + 1]) && IsCapital(code[n + 2]) && IsCapital(code[n + 3])
  }

  lemma IdCodeHasShape(abbreviation: string, d: Draw)
    requires ValidDraw(d)
    ensures IdCodeShape(abbreviation, IdCode(abbreviation, d))
  {
    var n := |Prefix(abbreviation)|;
    var code := IdCode(abbreviation, d);
    assert code[n] == d.letters[0] && code[n + 2] == d.letters[1] && code[n + 3] == d.letters[2];
  }

  /** Some visible patient already carries the code. */
  predicate CodeTaken(patients: Patients, code: string) {
    exists id :: id in patients && !patients[id].isDeleted && patients[id].idCode == code
  }

  /** No two visible patients share a code. */
  predicate UniqueCodes(patients: Patients) {
    forall a, b :: a in patients && b in patients && a != b && !patients[a].isDeleted && !patients[b].isDeleted
      ==> patients[a].idCode != patients[b].idCode
  }

  /** Inserting a patient whose code is not taken keeps the codes unique. */
  lemma InsertKeepsCodesUnique(patients: Patients, id: int, p: Patient)
    requires UniqueCodes(patients) && id !in patients && !CodeTaken(patients, p.idCode)
    ensures UniqueCodes(patients[id := p])
  {
    var after := patients[id := p];
    forall a, b | a in after && b in after && a != b && !after[a].isDeleted && !after[b].isDeleted
      ensures after[a].idCode != after[b].idCode
    {
      if a == id {
        assert !(b in patients && !patients[b].isDeleted && patients[b].idCode == p.idCode);
      } else if b == id {
        assert !(a in patients && !patients[a].isDeleted && patients[a].idCode == p.idCode);
      }
    }
  }

  class PatientTable {
    var patients: Patients

    constructor (initial: Patients)
      ensures patients == initial
    {
      patients := initial;
    }

    /** `deletePatient`: soft deletion by the owner of an inactive patient. */
    method DeletePatient(caller: int, id: int) returns (status: int)
      modifies this
      ensures status == DeleteStatus(old(patients), caller, id)
      ensures patients == AfterDelete(old(patients), caller, id)
    {
      var found := FindIn(patients, id);
      if found.None? {
        return 204;
      }
      var patient := found.value;
      if patient.userId != caller {
        return 403;
      }
      if patient.isActive {
        return 422;
      }
      patients := patients[id := patient.(isDeleted := true)];
      return 200;
    }

    /** `patchPatients`: the owner renames a patient. */
    method PatchPatients(caller: int, id: int, firstName: string, lastName: string) returns (status: int)
      modifies this
      ensures status == PatchStatus(old(patients), caller, id)
      ensures status == 200 ==> patients == old(patients)[id := old(patients)[id].(firstName := firstName, lastName := lastName)]
      ensures status != 200 ==> patients == old(patients)
    {
      var found := FindIn(patients, id);
      if found.None? {
        return 404;
      }
      if found.value.userId != caller {
        return 403;
      }
      patients := patients[id := found.value.(firstName := firstName, lastName := lastName)];
      return 200;
    }

    /** `patchDeactivate`: the owner sets the active flag to the requested
      * value. */
    method PatchDeactivate(caller: int, id: int, active: bool) returns (status: int)
      modifies this
      ensures status == PatchStatus(old(patients), caller, id)
      ensures status == 200 ==> patients == old(patients)[id := old(patients)[id].(isActive := active)]
      ensures status != 200 ==> patients == old(patients)
    {
      var found := FindIn(patients, id);
      if found.None? {
        return 404;
      }
      if found.value.userId != caller {
        return 403;
      }
      patients := patients[id := found.value.(isActive := active)];
      return 200;
    }

    /** The do-while of `postPatient`: draws until a code no visible patient
      * has. `draws` are the successive random draws; some draw must give a
      * free code, as the loop runs until one does. */
    method NewIdCode(abbreviation: string, draws: seq<Draw>) returns (code: string, used: nat)
      requires forall i :: 0 <= i < |draws| ==> ValidDraw(draws[i])
      requires exists i :: 0 <= i < |draws| && !CodeTaken(patients, IdCode(abbreviation, draws[i]))
      ensures used < |draws| && code == IdCode(abbreviation, draws[used])
      ensures !CodeTaken(patients, code) && IdCodeShape(abbreviation, code)
      ensures forall j :: 0 <= j < used ==> CodeTaken(patients, IdCode(abbreviation, draws[j]))
    {
      used := 0;
      code := IdCode(abbreviation, draws[0]);
      while CodeTaken(patients, code)
        invariant used < |draws| && code == IdCode(abbreviation, draws[used])
        invariant forall j :: 0 <= j < used ==> CodeTaken(patients, IdCode(abbreviation, draws[j]))
        invariant exists i :: used <= i < |draws| && !CodeTaken(patients, IdCode(abbreviation, draws[i]))
        decreases |draws| - used
      {
        used := used + 1;
        code := IdCode(abbreviation, draws[used]);
      }
      IdCodeHasShape(abbreviation, draws[used]);
    }

    /** `postPatient` (v1): a new active patient of the caller with a fresh
      * code; `newId` is the id the database assigns. `abbreviation` is the
      * abbreviation of the caller's affiliate, None when no affiliate row
      * has the caller's `affiliate_id`, which `findOrFail` answers with 404
      * before anything is saved. */
    method PostPatient(caller: int, abbreviation: Option<string>, firstName: string, lastName: string,
                       newId: int, draws: seq<Draw>) returns (status: int, code: string)
      requires newId !in patients
      requires forall i :: 0 <= i < |draws| ==> ValidDraw(draws[i])
      requires abbreviation.Some? ==>
        exists i :: 0 <= i < |draws| && !CodeTaken(patients, IdCode(abbreviation.value, draws[i]))
      modifies this
      ensures status == (if abbreviation.None? then 404 else 201)
      ensures abbreviation.None? ==> patients == old(patients)
      ensures abbreviation.Some? ==> IdCodeShape(abbreviation.value, code) && !CodeTaken(old(patients), code)
      ensures abbreviation.Some? ==>
        patients == old(patients)[newId := Patient(caller, firstName, lastName, code, true, false,
                                                   None, None, None, None, None)]
      ensures UniqueCodes(old(patients)) ==> UniqueCodes(patients)
    {
      if abbreviation.None? {
        return 404, "";
      }
      var used;
      code, used := NewIdCode(abbreviation.value, draws);
      var patient := Patient(caller, firstName, lastName, code, true, false, None, None, None, None, None);
      if UniqueCodes(patients) {
        InsertKeepsCodesUnique(patients, newId, patient);
      }
      status := 201;
      patients := patients[newId := patient];
    }
  }

  // ---------------------------------------------------------------------
  // The group filter of the listings

  function UserOf(m: Membership): int { m.userId }
  function GroupOf(m: Membership): int { m.groupId }

  function AdministeredBy(user: int): Membership -> bool {
    (m: Membership) => m.userId == user && m.isAdmin
  }

  /** The groups the user administers, in table order. */
  function AdminGroupIds(groups: seq<Membership>, user: int): seq<int> {
    MapSeq(Filter(groups, AdministeredBy(user)), GroupOf)
  }

  function TrimIntVal(s: string): int { IntVal(Trim(s)) }

  function NonZero(): int -> bool { (x: int) => x != 0 }

  function InList(list: seq<int>): int -> bool { (x: int) => x in list }

  /** `array_filter(array_map(intval∘trim, explode(',', s)))`. */
  function ParseIds(s: string): (ids: seq<int>)
    ensures 0 !in ids
  {
    Filter(MapSeq(Explode(s, ','), TrimIntVal), NonZero())
  }

  /** The groups the listing may draw users from: the requested groups the
    * caller administers, or all of them when none is requested, "all" is
    * requested, or none of the requested ones is administered. */
  function ChosenGroups(groups: seq<Membership>, caller: int, groupId: Option<string>): seq<int> {
    var allowed := AdminGroupIds(groups, caller);
    if !IsEmptyValue(groupId) && groupId.value != "all" then
      var chosen := Filter(ParseIds(groupId.value), InList(allowed));
      if chosen == [] then allowed else chosen
    else allowed
  }

  /** The user ids a listing shows, or Undefined when the filter names no
    * `groupuserid`: the source then returns a variable it never set. */
  datatype UserIdsFilter = UserIds(ids: seq<int>) | Undefined

  function InGroups(chosen: seq<int>): Membership -> bool {
    (m: Membership) => m.groupId in chosen
  }

  function OfUsersInGroups(users: seq<int>, chosen: seq<int>): Membership -> bool {
    (m: Membership) => m.userId in users && m.groupId in chosen
  }

  predicate IsMember(groups: seq<Membership>, user: int) {
    exists m :: m in groups && m.userId == user
  }

  /** `getGroupUserIdsFilter`. `filter` is the request's `filter` array,
    * None when absent. */
  function GroupUserIdsFilter(groups: seq<Membership>, caller: int, filter: Option<map<string, string>>)
    : UserIdsFilter
  {
    if filter.None? || !IsMember(groups, caller) then UserIds([caller])
    else
      var f := filter.value;
      var chosen := ChosenGroups(groups, caller, if "groupid" in f then Some(f["groupid"]) else None);
      var groupUserId: Option<string> := if "groupuserid" in f then Some(f["groupuserid"]) else None;
      if IsEmptyValue(groupUserId) then Undefined
      else UserIds(SelectedUsers(groups, caller, groupUserId.value, chosen))
  }

  /** The users a non-empty `groupuserid` selects from the chosen groups:
    * all their members for "all", else the listed ones that are members,
    * else (nothing listed) the caller. */
  function SelectedUsers(groups: seq<Membership>, caller: int, groupUserId: string, chosen: seq<int>): seq<int> {
    if groupUserId == "all" then MapSeq(Filter(groups, InGroups(chosen)), UserOf)
    else
      var passed := ParseIds(groupUserId);
      if passed != [] then MapSeq(Filter(groups, OfUsersInGroups(passed, chosen)), UserOf)
      else [caller]
  }

  /** Without a filter, or for a caller in no group, only the caller's
    * patients are listed. */
  lemma NoFilterMeansCaller(groups: seq<Membership>, caller: int, filter: Option<map<string, string>>)
    requires filter.None? || !IsMember(groups, caller)
    ensures GroupUserIdsFilter(groups, caller, filter) == UserIds([caller])
  {
  }

  /** The groups used are always groups the caller administers; when no
    * requested group qualifies, all of them are used. */
  lemma ChosenGroupsAreAdministered(groups: seq<Membership>, caller: int, groupId: Option<string>)
    ensures forall g :: g in ChosenGroups(groups, caller, groupId) ==> g in AdminGroupIds(groups, caller)
    ensures IsEmptyValue(groupId) || groupId.value == "all" ==>
      ChosenGroups(groups, caller, groupId) == AdminGroupIds(groups, caller)
    ensures (!IsEmptyValue(groupId) && groupId.value != "all"
             && Filter(ParseIds(groupId.value), InList(AdminGroupIds(groups, caller))) == [])
        ==> ChosenGroups(groups, caller, groupId) == AdminGroupIds(groups, caller)
  {
    var allowed := AdminGroupIds(groups, caller);
    forall g | g in ChosenGroups(groups, caller, groupId)
      ensures g in allowed
    {
      if !IsEmptyValue(groupId) && groupId.value != "all" {
        var chosen := Filter(ParseIds(groupId.value), InList(allowed));
        if chosen != [] {
          var i := IndexOf(chosen, g);
          assert InList(allowed)(chosen[i]);
        }
      }
    }
  }

  /** Every administered group of the caller's is one the caller
    * administers: a group id in the list comes from an admin row. */
  lemma AdminGroupIdsAreAdminRows(groups: seq<Membership>, caller: int, g: int)
    requires g in AdminGroupIds(groups, caller)
    ensures exists m :: m in groups && m.userId == caller && m.isAdmin && m.groupId == g
  {
    var rows := Filter(groups, AdministeredBy(caller));
    var i := IndexOf(AdminGroupIds(groups, caller), g);
    assert AdministeredBy(caller)(rows[i]);
  }

  /** The users of the rows that match a user list and a group list. */
  lemma MatchingRowsUsers(groups: seq<Membership>, passed: seq<int>, chosen: seq<int>)
    ensures forall u :: u in MapSeq(Filter(groups, OfUsersInGroups(passed, chosen)), UserOf) ==>
      (u in passed && exists m :: m in groups && m.userId == u && m.groupId in chosen)
  {
    var rows := Filter(groups, OfUsersInGroups(passed, chosen));
    var ids := MapSeq(rows, UserOf);
    forall u | u in ids
      ensures u in passed && exists m :: m in groups && m.userId == u && m.groupId in chosen
    {
      var i := IndexOf(ids, u);
      assert OfUsersInGroups(passed, chosen)(rows[i]);
      assert rows[i] in groups;
    }
  }

  /** An explicit user list yields only listed users who are members of a
    * chosen group; a list that parses to nothing yields the caller. */
  lemma ExplicitUserListOnlyMembers(groups: seq<Membership>, caller: int, groupUserId: string, chosen: seq<int>)
    requires groupUserId != "all"
    ensures var users := SelectedUsers(groups, caller, groupUserId, chosen);
      && (ParseIds(groupUserId) == [] ==> users == [caller])
      && (forall u :: u in users && ParseIds(groupUserId) != [] ==>
            (u in ParseIds(groupUserId) && exists m :: m in groups && m.userId == u && m.groupId in chosen))
  {
    MatchingRowsUsers(groups, ParseIds(groupUserId), chosen);
  }

  /** "all" yields every member of the chosen groups. */
  lemma AllMembersOfChosenGroups(groups: seq<Membership>, caller: int, chosen: seq<int>)
    ensures forall u :: u in SelectedUsers(groups, caller, "all", chosen) <==>
      exists m :: m in groups && m.userId == u && m.groupId in chosen
  {
    var rows := Filter(groups, InGroups(chosen));
    var ids := MapSeq(rows, UserOf);
    forall u
      ensures u in ids <==> exists m :: m in groups && m.userId == u && m.groupId in chosen
    {
      if u in ids {
        var i := IndexOf(ids, u);
        assert InGroups(chosen)(rows[i]);
        assert rows[i] in groups;
      }
      if exists m :: m in groups && m.userId == u && m.groupId in chosen {
        var m :| m in groups && m.userId == u && m.groupId in chosen;
        var k := IndexOf(groups, m);
        assert InGroups(chosen)(groups[k]);
        var j := IndexOf(rows, m);
        assert ids[j] == u;
      }
    }
  }

  /** The result is undefined exactly when a filter is given, the caller is
    * in some group, and `groupuserid` is empty. */
  lemma UndefinedExactlyWithoutGroupUserId(groups: seq<Membership>, caller: int, filter: Option<map<string, string>>)
    ensures GroupUserIdsFilter(groups, caller, filter).Undefined?
      <==> filter.Some? && IsMember(groups, caller)
           && IsEmptyValue(if "groupuserid" in filter.value then Some(filter.value["groupuserid"]) else None)
  {
  }
}
