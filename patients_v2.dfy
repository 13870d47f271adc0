/**
 * The v2 patient endpoints: creation with the full record, and the full
 * patch. They work on the same patients table as v1.
 *
 * A request is the map of its string inputs. `birthdate` arrives as a
 * timestamp that the controller renders as a date; that rendering is not
 * modelled, and the date string is passed in as `birthdate`.
 */
module PatientsV2 {
  import opened Common
  import opened Patients

  /** The value an optional column takes: the request's value when it has
    * one, otherwise what the record held. */
  function Optional(request: Request, key: string, current: Option<string>): (v: Option<string>)
    ensures Has(request, key) ==> v == Some(request[key])
    ensures !Has(request, key) ==> v == current
  {
    if Has(request, key) then Some(request[key]) else current
  }

  /** `user_id` of a new patient: the requested one (validated as an
    * integer) or the caller's. */
  function OwnerOf(request: Request, caller: int): int {
    if Has(request, "user_id") then IntVal(request["user_id"]) else caller
  }

  /** The record `postPatient` saves. */
  function NewPatient(request: Request, caller: int, code: string, birthdate: string): Patient
    requires "first_name" in request && "last_name" in request && "email" in request
  {
    Patient(OwnerOf(request, caller), request["first_name"], request["last_name"], code, true, false,
            Some(request["email"]), Some(birthdate),
            Optional(request, "phone", None), Optional(request, "birth_city", None), Optional(request, "birth_country", None))
  }

  /** The record a successful patch saves. */
  function Patched(p: Patient, request: Request, birthdate: string): Patient
    requires "first_name" in request && "last_name" in request && "email" in request
  {
    p.(firstName := request["first_name"], lastName := request["last_name"],
       email := Some(request["email"]), birthdate := Some(birthdate),
       phone := Optional(request, "phone", p.phone),
       birthCity := Optional(request, "birth_city", p.birthCity),
       birthCountry := Optional(request, "birth_country", p.birthCountry))
  }

  /** The new patient belongs to the caller unless the request names
    * another user. */
  lemma OwnerDefaultsToCaller(request: Request, caller: int, code: string, birthdate: string)
    requires "first_name" in request && "last_name" in request && "email" in request
    ensures !Has(request, "user_id") ==> NewPatient(request, caller, code, birthdate).userId == caller
    ensures Has(request, "user_id") ==> NewPatient(request, caller, code, birthdate).userId == IntVal(request["user_id"])
    ensures NewPatient(request, caller, code, birthdate).isActive && !NewPatient(request, caller, code, birthdate).isDeleted
  {
  }

  /** A patch always overwrites the four required fields, never touches
    * id_code, user_id, is_active or is_deleted, and keeps an optional field
    * unless the request carries a non-blank value for it. */
  lemma PatchFields(p: Patient, request: Request, birthdate: string)
    requires "first_name" in request && "last_name" in request && "email" in request
    ensures var q := Patched(p, request, birthdate);
      && q.firstName == request["first_name"] && q.lastName == request["last_name"]
      && q.email == Some(request["email"]) && q.birthdate == Some(birthdate)
      && q.idCode == p.idCode && q.userId == p.userId && q.isActive == p.isActive && q.isDeleted == p.isDeleted
      && (q.phone != p.phone ==> Has(request, "phone"))
      && (q.birthCity != p.birthCity ==> Has(request, "birth_city"))
      && (q.birthCountry != p.birthCountry ==> Has(request, "birth_country"))
  {
  }

  /** A blank optional value ("", "  ") leaves the column as it was. */
  lemma BlankValueKeepsColumn(p: Patient, request: Request, birthdate: string)
    requires "first_name" in request && "last_name" in request && "email" in request
    requires "phone" in request && Trim(request["phone"]) == ""
    ensures Patched(p, request, birthdate).phone == p.phone
  {
  }

  /** `postPatient` (v2). `abbreviation` is the abbreviation of the
    * caller's affiliate, None when no affiliate row has the caller's
    * `affiliate_id`: then `findOrFail` answers 404 and nothing is saved. */
  method PostPatient(table: PatientTable, caller: int, abbreviation: Option<string>, request: Request,
                     birthdate: string, newId: int, draws: seq<Draw>) returns (status: int, code: string)
    requires "first_name" in request && "last_name" in request && "email" in request
    requires newId !in table.patients
    requires forall i :: 0 <= i < |draws| ==> ValidDraw(draws[i])
    requires abbreviation.Some? ==>
      exists i :: 0 <= i < |draws| && !CodeTaken(table.patients, IdCode(abbreviation.value, draws[i]))
    modifies table
    ensures status == (if abbreviation.None? then 404 else 201)
    ensures abbreviation.None? ==> table.patients == old(table.patients)
    ensures abbreviation.Some? ==> IdCodeShape(abbreviation.value, code) && !CodeTaken(old(table.patients), code)
    ensures abbreviation.Some? ==>
      table.patients == old(table.patients)[newId := NewPatient(request, caller, code, birthdate)]
    ensures UniqueCodes(old(table.patients)) ==> UniqueCodes(table.patients)
  {
    if abbreviation.None? {
      return 404, "";
    }
    var used;
    code, used := table.NewIdCode(abbreviation.value, draws);
    var userId := if Has(request, "user_id") then IntVal(request["user_id"]) else caller;
    var patient := Patient(userId, request["first_name"], request["last_name"], code, true, false,
                           Some(request["email"]), Some(birthdate), None, None, None);
    ghost var base := patient;
    if Has(request, "phone") {
      patient := patient.(phone := Some(request["phone"]));
    }
    assert patient == base.(phone := Optional(request, "phone", None));
    if Has(request, "birth_city") {
      patient := patient.(birthCity := Some(request["birth_city"]));
    }
    assert patient == base.(phone := Optional(request, "phone", None), birthCity := Optional(request, "birth_city", None));
    if Has(request, "birth_country") {
      patient := patient.(birthCountry := Some(request["birth_country"]));
    }
    assert patient == NewPatient(request, caller, code, birthdate);
    if UniqueCodes(table.patients) {
      InsertKeepsCodesUnique(table.patients, newId, patient);
    }
    table.patients := table.patients[newId := patient];
    status := 201;
  }

  /** `patchPatients` (v2): 404 for a missing patient, 403 for another
    * user's, neither changing anything; otherwise the patched record. */
  method PatchPatients(table: PatientTable, caller: int, id: int, request: Request, birthdate: string)
    returns (status: int)
    requires "first_name" in request && "last_name" in request && "email" in request
    modifies table
    ensures status == PatchStatus(old(table.patients), caller, id)
    ensures status == 200 ==> table.patients == old(table.patients)[id := Patched(old(table.patients)[id], request, birthdate)]
    ensures status != 200 ==> table.patients == old(table.patients)
  {
    var found := FindIn(table.patients, id);
    if found.None? {
      return 404;
    }
    var patient := found.value;
    if patient.userId != caller {
      return 403;
    }
    patient := patient.(firstName := request["first_name"], lastName := request["last_name"]);
    patient := patient.(email := Some(request["email"]), birthdate := Some(birthdate));
    ghost var base := patient;
    if Has(request, "phone") {
      patient := patient.(phone := Some(request["phone"]));
    }
    assert patient == base.(phone := Optional(request, "phone", found.value.phone));
    if Has(request, "birth_city") {
      patient := patient.(birthCity := Some(request["birth_city"]));
    }
    assert patient == base.(phone := Optional(request, "phone", found.value.phone),
                            birthCity := Optional(request, "birth_city", found.value.birthCity));
    if Has(request, "birth_country") {
      patient := patient.(birthCountry := Some(request["birth_country"]));
    }
    assert patient == Patched(found.value, request, birthdate);
    table.patients := table.patients[id := patient];
    return 200;
  }
}
