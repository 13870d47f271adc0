/**
 * SearchByParser: turns the client's comma-separated `search_by` list into
 * the list of database columns a search looks in.
 *
 * A part is either a combined key (expanding to several columns) or a
 * basic column; anything else is an error. Columns are collected without
 * duplicates, in first-occurrence order. Membership tests (`isset`,
 * `in_array`) are modelled as exact string equality: the configured names
 * are never numeric strings, so PHP's loose comparison coincides with it.
 */
module SearchBy {
  import opened Common

  /** The parts of the input, or of the default when the input is falsy. */
  function Parts(defaultInput: string, input: string): (parts: seq<string>)
    ensures |parts| >= 1
    ensures var source := if IsFalsy(input) then defaultInput else input;
      |parts| == |Explode(source, ',')| && forall i :: 0 <= i < |parts| ==> parts[i] == Trim(Explode(source, ',')[i])
  {
    TrimAll(Explode(if IsFalsy(input) then defaultInput else input, ','))
  }

  /** The columns one part stands for; a combined key wins over a basic
    * column of the same name. */
  function Expand(basic: seq<string>, combined: map<string, seq<string>>, part: string): Option<seq<string>> {
    if part in combined then Some(combined[part])
    else if part in basic then Some([part])
    else None
  }

  function IncorrectField(part: string): string {
    "Incorrect field " + part + "."
  }

  function AddNew(acc: seq<string>, field: string): seq<string> {
    if field in acc then acc else acc + [field]
  }

  /** Append each field not yet present, left to right. */
  function AppendNew(acc: seq<string>, fields: seq<string>): seq<string>
    decreases |fields|
  {
    if fields == [] then acc else AppendNew(AddNew(acc, fields[0]), fields[1..])
  }

  /** Resolve the remaining parts onto the columns collected so far; the
    * first unknown part aborts with its message. */
  function ResolveFrom(basic: seq<string>, combined: map<string, seq<string>>, parts: seq<string>, acc: seq<string>)
    : Result<seq<string>, string>
    decreases |parts|
  {
    if parts == [] then Ok(acc)
    else match Expand(basic, combined, parts[0])
      case None => Err(IncorrectField(parts[0]))
      case Some(fields) => ResolveFrom(basic, combined, parts[1..], AppendNew(acc, fields))
  }

  function SearchByFields(basic: seq<string>, combined: map<string, seq<string>>, defaultInput: string, input: string)
    : Result<seq<string>, string>
  {
    ResolveFrom(basic, combined, Parts(defaultInput, input), [])
  }

  class SearchByParser {
    var basicFields: seq<string>
    var combinedFields: map<string, seq<string>>
    var defaultInput: string

    constructor (basic: seq<string>, combined: map<string, seq<string>>, defaultInput: string)
      ensures basicFields == basic && combinedFields == combined && this.defaultInput == defaultInput
    {
      basicFields := basic;
      combinedFields := combined;
      this.defaultInput := defaultInput;
    }

    method SearchByToFields(input: string) returns (r: Result<seq<string>, string>)
      ensures r == SearchByFields(basicFields, combinedFields, defaultInput, input)
    {
      var parts := Parts(defaultInput, input);
      r := Resolve(parts);
    }

    /** The loop over the parts: expand each one and collect its new
      * columns, or stop at the first unknown part. */
    method Resolve(parts: seq<string>) returns (r: Result<seq<string>, string>)
      ensures r == ResolveFrom(basicFields, combinedFields, parts, [])
    {
      var result: seq<string> := [];
      var i := 0;
      assert parts[0..] == parts;
      while i < |parts|
        invariant 0 <= i <= |parts|
        invariant ResolveFrom(basicFields, combinedFields, parts[i..], result)
               == ResolveFrom(basicFields, combinedFields, parts, [])
      {
        var part := parts[i];
        var fields: seq<string>;
        if part in combinedFields {
          fields := combinedFields[part];
        } else if part in basicFields {
          fields := [part];
        } else {
          return Err(IncorrectField(part));
        }
        result := AppendFields(result, fields);
        assert parts[i..][1..] == parts[i + 1..];
        i := i + 1;
      }
      return Ok(result);
    }
  }

  /** The inner loop: each field not yet collected is appended. */
  method AppendFields(result: seq<string>, fields: seq<string>) returns (r: seq<string>)
    ensures r == AppendNew(result, fields)
  {
    r := result;
    var j := 0;
    while j < |fields|
      invariant 0 <= j <= |fields|
      invariant AppendNew(r, fields[j..]) == AppendNew(result, fields)
    {
      assert fields[j..][1..] == fields[j + 1..];
      if fields[j] !in r {
        r := r + [fields[j]];
      }
      j := j + 1;
    }
  }

  // ---------------------------------------------------------------------
  // Reference: distinct elements in first-occurrence order

  function Dedup(s: seq<string>): seq<string>
    decreases |s|
  {
    if s == [] then [] else AddNew(Dedup(s[..|s| - 1]), s[|s| - 1])
  }

  function Flatten(groups: seq<seq<string>>): seq<string>
    decreases |groups|
  {
    if groups == [] then [] else groups[0] + Flatten(groups[1..])
  }

  /** The expansion of every part, or the error of the first unknown one. */
  function Expansions(basic: seq<string>, combined: map<string, seq<string>>, parts: seq<string>)
    : Result<seq<seq<string>>, string>
    decreases |parts|
  {
    if parts == [] then Ok([])
    else match Expand(basic, combined, parts[0])
      case None => Err(IncorrectField(parts[0]))
      case Some(fields) =>
        match Expansions(basic, combined, parts[1..])
        case Err(e) => Err(e)
        case Ok(rest) => Ok([fields] + rest)
  }

  lemma {:induction false} DedupMembers(s: seq<string>)
    ensures forall x :: x in Dedup(s) <==> x in s
    ensures NoDuplicates(Dedup(s))
  {
    if s != [] {
      var init := s[..|s| - 1];
      DedupMembers(init);
      assert s == init + [s[|s| - 1]];
    }
  }

  /** The first index of each kept element increases along the result. */
  lemma {:induction false} DedupFirstOccurrenceOrder(s: seq<string>)
    ensures forall x :: x in Dedup(s) ==> x in s
    ensures forall i, j :: 0 <= i < j < |Dedup(s)| ==> IndexOf(s, Dedup(s)[i]) < IndexOf(s, Dedup(s)[j])
  {
    DedupMembers(s);
    if s != [] {
      var init := s[..|s| - 1];
      var last := s[|s| - 1];
      assert s == init + [last];
      DedupFirstOccurrenceOrder(init);
      DedupMembers(init);
      var d := Dedup(s);
      forall x | x in init
        ensures IndexOf(s, x) == IndexOf(init, x)
      {
        var k := IndexOf(init, x);
        assert s[..k] == init[..k];
      }
      forall i, j | 0 <= i < j < |d|
        ensures IndexOf(s, d[i]) < IndexOf(s, d[j])
      {
        if last in Dedup(init) || j < |Dedup(init)| {
          assert d[i] == Dedup(init)[i] && d[j] == Dedup(init)[j];
        } else {
          assert d[i] == Dedup(init)[i] && d[j] == last;
          assert last !in s[..|init|];
        }
      }
    }
  }

  /** The parser's incremental appending computes the reference. */
  lemma {:induction false} AppendNewIsDedup(flat: seq<string>, fields: seq<string>)
    ensures AppendNew(Dedup(flat), fields) == Dedup(flat + fields)
    decreases |fields|
  {
    if fields == [] {
      assert flat + fields == flat;
    } else {
      var next := flat + [fields[0]];
      assert next[..|next| - 1] == flat;
      AppendNewIsDedup(next, fields[1..]);
      assert next + fields[1..] == flat + fields;
    }
  }

  /** When every part is known, resolution is the de-duplicated
    * concatenation of the parts' expansions. */
  lemma {:induction false} ResolveIsDedupOfExpansions(basic: seq<string>, combined: map<string, seq<string>>,
                                                      parts: seq<string>, groups: seq<seq<string>>, flat: seq<string>)
    requires Expansions(basic, combined, parts) == Ok(groups)
    ensures ResolveFrom(basic, combined, parts, Dedup(flat)) == Ok(Dedup(flat + Flatten(groups)))
    decreases |parts|
  {
    if parts == [] {
      assert flat + Flatten(groups) == flat;
    } else {
      var fields := groups[0];
      ResolveStep(basic, combined, parts, groups, flat);
      ResolveIsDedupOfExpansions(basic, combined, parts[1..], groups[1..], flat + fields);
      FlattenCons(flat, groups);
    }
  }

  lemma ResolveStep(basic: seq<string>, combined: map<string, seq<string>>,
                    parts: seq<string>, groups: seq<seq<string>>, flat: seq<string>)
    requires parts != [] && Expansions(basic, combined, parts) == Ok(groups)
    ensures groups != [] && Expansions(basic, combined, parts[1..]) == Ok(groups[1..])
    ensures ResolveFrom(basic, combined, parts, Dedup(flat)) == ResolveFrom(basic, combined, parts[1..], Dedup(flat + groups[0]))
  {
    AppendNewIsDedup(flat, groups[0]);
  }

  lemma FlattenCons(flat: seq<string>, groups: seq<seq<string>>)
    requires groups != []
    ensures flat + groups[0] + Flatten(groups[1..]) == flat + Flatten(groups)
  {
  }

  /** An unknown part aborts resolution with its message, whatever was
    * collected before. */
  lemma {:induction false} ResolveReportsError(basic: seq<string>, combined: map<string, seq<string>>,
                                               parts: seq<string>, acc: seq<string>)
    requires Expansions(basic, combined, parts).Err?
    ensures ResolveFrom(basic, combined, parts, acc) == Err(Expansions(basic, combined, parts).error)
    decreases |parts|
  {
    if Expand(basic, combined, parts[0]).Some? {
      ResolveReportsError(basic, combined, parts[1..], AppendNew(acc, Expand(basic, combined, parts[0]).value));
    }
  }

  /** What a search_by value resolves to: distinct columns, each from the
    * expansion of some part, every expanded column present, in
    * first-occurrence order; or the message of the first unknown part. */
  lemma SearchByFieldsMeaning(basic: seq<string>, combined: map<string, seq<string>>, defaultInput: string, input: string)
    ensures var parts := Parts(defaultInput, input);
      match Expansions(basic, combined, parts)
      case Ok(groups) =>
        var r := SearchByFields(basic, combined, defaultInput, input);
        && r == Ok(Dedup(Flatten(groups)))
        && NoDuplicates(r.value)
        && (forall x :: x in r.value <==> x in Flatten(groups))
        && (forall i, j :: 0 <= i < j < |r.value| ==>
              IndexOf(Flatten(groups), r.value[i]) < IndexOf(Flatten(groups), r.value[j]))
      case Err(e) => SearchByFields(basic, combined, defaultInput, input) == Err(e)
  {
    var parts := Parts(defaultInput, input);
    assert Dedup([]) == [];
    match Expansions(basic, combined, parts)
    case Ok(groups) =>
      ResolveIsDedupOfExpansions(basic, combined, parts, groups, []);
      assert [] + Flatten(groups) == Flatten(groups);
      DedupMembers(Flatten(groups));
      DedupFirstOccurrenceOrder(Flatten(groups));
    case Err(e) =>
      ResolveReportsError(basic, combined, parts, []);
  }

  /** The first unknown part is reported, whatever follows it. */
  lemma {:induction false} FirstUnknownPartReported(basic: seq<string>, combined: map<string, seq<string>>,
                                                    parts: seq<string>, k: nat)
    requires k < |parts| && parts[k] !in combined && parts[k] !in basic
    requires forall i :: 0 <= i < k ==> parts[i] in combined || parts[i] in basic
    ensures Expansions(basic, combined, parts) == Err(IncorrectField(parts[k]))
    decreases k
  {
    if k > 0 {
      FirstUnknownPartReported(basic, combined, parts[1..], k - 1);
    }
  }

  lemma {:induction false} DedupIgnoresKnownSuffix(s: seq<string>, t: seq<string>)
    requires forall x :: x in t ==> x in s
    ensures Dedup(s + t) == Dedup(s)
    decreases |t|
  {
    if t != [] {
      var init := t[..|t| - 1];
      DedupIgnoresKnownSuffix(s, init);
      assert (s + t)[..|s + t| - 1] == s + init;
      DedupMembers(s + init);
      assert t[|t| - 1] in s;
    } else {
      assert s + t == s;
    }
  }

  lemma {:induction false} ExpansionsAppend(basic: seq<string>, combined: map<string, seq<string>>,
                                            parts: seq<string>, q: string, fields: seq<string>)
    requires Expansions(basic, combined, parts).Ok? && Expand(basic, combined, q) == Some(fields)
    ensures Expansions(basic, combined, parts + [q]) == Ok(Expansions(basic, combined, parts).value + [fields])
    decreases |parts|
  {
    if parts == [] {
      assert parts + [q] == [q];
      assert [q][1..] == [];
      assert Expansions(basic, combined, [q][1..]) == Ok([]);
      assert [q][0] == q;
      assert Expansions(basic, combined, [q]) == Ok([fields] + []);
      assert [] + [fields] == [fields] + [];
    } else {
      assert (parts + [q])[0] == parts[0];
      assert (parts + [q])[1..] == parts[1..] + [q];
      var first := Expand(basic, combined, parts[0]).value;
      var rest := Expansions(basic, combined, parts[1..]).value;
      ExpansionsAppend(basic, combined, parts[1..], q, fields);
      assert [first] + rest + [fields] == [first] + (rest + [fields]);
    }
  }

  lemma {:induction false} FlattenAppend(groups: seq<seq<string>>, last: seq<string>)
    ensures Flatten(groups + [last]) == Flatten(groups) + last
    decreases |groups|
  {
    if groups == [] {
      assert groups + [last] == [last];
      assert Flatten([last]) == last + Flatten([]);
    } else {
      assert (groups + [last])[1..] == groups[1..] + [last];
      FlattenAppend(groups[1..], last);
    }
  }

  lemma {:induction false} ExpansionMember(basic: seq<string>, combined: map<string, seq<string>>,
                                           parts: seq<string>, k: nat)
    requires k < |parts| && Expansions(basic, combined, parts).Ok?
    ensures Expand(basic, combined, parts[k]).Some?
    ensures forall x :: x in Expand(basic, combined, parts[k]).value ==> x in Flatten(Expansions(basic, combined, parts).value)
    decreases k
  {
    if k > 0 {
      ExpansionMember(basic, combined, parts[1..], k - 1);
    }
  }

  /** Naming a part again ("a,a") changes nothing. */
  lemma RepeatedPartChangesNothing(basic: seq<string>, combined: map<string, seq<string>>, parts: seq<string>, k: nat)
    requires k < |parts|
    ensures ResolveFrom(basic, combined, parts + [parts[k]], []) == ResolveFrom(basic, combined, parts, [])
  {
    assert Dedup([]) == [];
    match Expansions(basic, combined, parts)
    case Err(e) =>
      ExpansionsOfErrPrefix(basic, combined, parts, parts[k]);
      ResolveReportsError(basic, combined, parts, []);
      ResolveReportsError(basic, combined, parts + [parts[k]], []);
    case Ok(groups) =>
      ExpansionMember(basic, combined, parts, k);
      var fields := Expand(basic, combined, parts[k]).value;
      ExpansionsAppend(basic, combined, parts, parts[k], fields);
      FlattenAppend(groups, fields);
      assert [] + Flatten(groups + [fields]) == Flatten(groups) + fields;
      assert [] + Flatten(groups) == Flatten(groups);
      ResolveIsDedupOfExpansions(basic, combined, parts, groups, []);
      ResolveIsDedupOfExpansions(basic, combined, parts + [parts[k]], groups + [fields], []);
      DedupIgnoresKnownSuffix(Flatten(groups), fields);
  }

  lemma {:induction false} ExpansionsOfErrPrefix(basic: seq<string>, combined: map<string, seq<string>>,
                                                 parts: seq<string>, q: string)
    requires Expansions(basic, combined, parts).Err?
    ensures Expansions(basic, combined, parts + [q]) == Expansions(basic, combined, parts)
    decreases |parts|
  {
    assert (parts + [q])[0] == parts[0];
    assert (parts + [q])[1..] == parts[1..] + [q];
    if Expand(basic, combined, parts[0]).Some? {
      ExpansionsOfErrPrefix(basic, combined, parts[1..], q);
    }
  }

  /** Whitespace around the parts does not matter. */
  lemma PaddingIgnored(basic: seq<string>, combined: map<string, seq<string>>, defaultInput: string,
                       pieces: seq<string>, padded: seq<string>)
    requires |pieces| == |padded| >= 1
    requires forall i :: 0 <= i < |pieces| ==> ',' !in pieces[i] && ',' !in padded[i] && Trim(padded[i]) == Trim(pieces[i])
    requires !IsFalsy(Implode(pieces, ",")) && !IsFalsy(Implode(padded, ","))
    ensures SearchByFields(basic, combined, defaultInput, Implode(padded, ","))
         == SearchByFields(basic, combined, defaultInput, Implode(pieces, ","))
  {
    ExplodeImplode(pieces, ',');
    ExplodeImplode(padded, ',');
    assert Parts(defaultInput, Implode(padded, ",")) == Parts(defaultInput, Implode(pieces, ","));
  }

  // ---------------------------------------------------------------------
  // The three configurations in use

  datatype Config = Config(basic: seq<string>, combined: map<string, seq<string>>, defaultInput: string)

  /** Every combined key expands to configured basic columns, and the
    * default names a combined key. */
  predicate WellFormed(c: Config) {
    && (forall k :: k in c.combined ==> forall f :: f in c.combined[k] ==> f in c.basic)
    && c.defaultInput in c.combined
  }

  /** v1 patient search (PatientController::searchByToFields). */
  function PatientSearch(): (c: Config)
    ensures WellFormed(c) && c.combined[c.defaultInput] == c.basic
  {
    var basic := ["patients.first_name", "patients.last_name", "patients.id_code", "patients.birthdate",
                  "patients.birth_country", "patients.birth_city", "patients.email", "patients.phone"];
    Config(basic,
      map["patients.full_name" := ["patients.first_name", "patients.last_name", "patients.birthdate",
                                   "patients.birth_country", "patients.birth_city", "patients.email", "patients.phone"],
          "all" := basic],
      "all")
  }

  /** User search (UserController::searchByToFields). */
  function UserSearch(): (c: Config)
    ensures WellFormed(c) && c.combined[c.defaultInput] == c.basic
  {
    var basic := ["users.first_name", "users.last_name"];
    Config(basic, map["users.full_name" := ["users.first_name", "users.last_name"], "all" := basic], "all")
  }

  /** Survey search (SurveyController::searchByToFields). */
  function SurveySearch(): (c: Config)
    ensures WellFormed(c) && c.combined[c.defaultInput] == c.basic
  {
    var basic := ["surveys.name", "surveys.description", "authors.first_name", "authors.last_name"];
    Config(basic, map["all" := basic, "authors.full_name" := ["authors.first_name", "authors.last_name"]], "all")
  }
}
