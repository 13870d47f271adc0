/**
 * FilterInputParser: reads the `filter[...]` request arguments once, then
 * adds the matching joins and conditions to the task and case queries of
 * the reports.
 *
 * A query is modelled as the lists of joins, conditions and group-by
 * columns added to it; SQL execution is not modelled. Timestamps stay as
 * the raw request values (their conversion to dates is not modelled), and
 * a condition records whether it compares with the date or the date-time
 * rendering.
 */
module FilterInput {
  import opened Common

  // ---------------------------------------------------------------------
  // Parsed fields

  /** The recognised filter arguments, in the order they are read. */
  datatype FilterName =
    | From | To | DueDate | Assignee | Assignor | SurveyStatus | CaseStatus
    | Patient | Cp | Tp | TpStep | CaseId | Group | UserGroup

  /** The request key of each argument. */
  function Key(f: FilterName): string {
    match f
    case From => "from"
    case To => "to"
    case DueDate => "duedate"
    case Assignee => "assignee"
    case Assignor => "assignor"
    case SurveyStatus => "surveystatus"
    case CaseStatus => "casestatus"
    case Patient => "patient"
    case Cp => "cp"
    case Tp => "tp"
    case TpStep => "tpstep"
    case CaseId => "caseid"
    case Group => "group"
    case UserGroup => "usergroup"
  }

  function FieldNames(): seq<FilterName> {
    [From, To, DueDate, Assignee, Assignor, SurveyStatus, CaseStatus, Patient, Cp, Tp, TpStep, CaseId, Group, UserGroup]
  }

  /** The arguments that take comma-separated id lists. */
  predicate IsCommaSeparated(f: FilterName) {
    f in {Assignee, Assignor, Patient, Cp, Tp, TpStep, CaseId}
  }

  /** A parsed field: an id list for the comma-separated fields, otherwise
    * the raw value or `false` when absent. */
  datatype FieldValue = List(items: seq<string>) | Scalar(raw: string) | Unset

  type Fields = map<FilterName, FieldValue>

  /** The value the constructor stores for one argument. */
  function ParseField(filters: map<string, string>, f: FilterName): (v: FieldValue)
    ensures IsCommaSeparated(f) ==> v.List?
    ensures !IsCommaSeparated(f) ==> (v == Unset <==> Key(f) !in filters)
  {
    var key := Key(f);
    if IsCommaSeparated(f) then List(if key in filters then TrimAll(Explode(filters[key], ',')) else [])
    else if key in filters then Scalar(filters[key])
    else Unset
  }

  /** The fields after reading `names` in order. */
  function ParseNames(filters: map<string, string>, names: seq<FilterName>): Fields
    decreases |names|
  {
    if names == [] then map[]
    else ParseNames(filters, names[..|names| - 1])[names[|names| - 1] := ParseField(filters, names[|names| - 1])]
  }

  /** Reading a list of names sets exactly those names, each to its parsed
    * value. */
  lemma {:induction false} ParseNamesMeaning(filters: map<string, string>, names: seq<FilterName>)
    ensures forall n :: n in ParseNames(filters, names) <==> n in names
    ensures forall n :: n in names ==> ParseNames(filters, names)[n] == ParseField(filters, n)
    decreases |names|
  {
    if names != [] {
      var init := names[..|names| - 1];
      assert names == init + [names[|names| - 1]];
      ParseNamesMeaning(filters, init);
    }
  }

  /** The id list of a comma-separated field ([] when unset). */
  function Ids(fields: Fields, name: FilterName): seq<string> {
    if name in fields && fields[name].List? then fields[name].items else []
  }

  /** `count($fields->name)` is non-zero. */
  predicate HasIds(fields: Fields, name: FilterName) {
    |Ids(fields, name)| > 0
  }

  /** `$fields->name !== false`: any supplied value, "0" and "" included. */
  predicate IsSet(fields: Fields, name: FilterName) {
    name in fields && fields[name].Scalar?
  }

  /** `$fields->name` is truthy: supplied, and neither "" nor "0". */
  predicate IsTruthy(fields: Fields, name: FilterName) {
    IsSet(fields, name) && !IsFalsy(fields[name].raw)
  }

  function Raw(fields: Fields, name: FilterName): string {
    if IsSet(fields, name) then fields[name].raw else ""
  }

  // ---------------------------------------------------------------------
  // Queries

  /** The columns the filters compare. */
  datatype ColumnName =
    | AssigneeId | AssignorId | Status | CaseIdColumn | PatientId | TreatmentPathId | StepId | Id
    | ClinicalPathId | DueDateColumn | CreatedAt

  datatype Column = Column(table: string, name: ColumnName)

  datatype DateForm = DateOnly | DateTime

  datatype Condition =
    | WhereIn(column: Column, values: seq<string>)
    | WhereEq(column: Column, value: string)
    | WhereDate(column: Column, op: string, timestamp: string, form: DateForm)
    | WhereNotNull(column: Column)
    | Nested(conditions: seq<Condition>)

  /** A condition of the raw sub-select that picks a case's first matching
    * task. Ids and the status are integers by construction. */
  datatype TaskCondition =
    | TaskOfCase(casesTable: string)
    | DueOn(timestamp: string)
    | AssigneeIn(ids: seq<int>)
    | AssignorIn(ids: seq<int>)
    | StatusIs(status: int)

  datatype Join =
    | JoinOn(table: string, alias: string, left: Column, right: Column)
    | JoinFirstTask(alias: string, casesTable: string, conditions: seq<TaskCondition>)

  class Query {
    var joins: seq<Join>
    var conditions: seq<Condition>
    var groupBy: seq<Column>

    constructor ()
      ensures joins == [] && conditions == [] && groupBy == []
    {
      joins := [];
      conditions := [];
      groupBy := [];
    }
  }

  function When<T>(b: bool, x: T): seq<T> {
    if b then [x] else []
  }

  /** Conditions on the tasks table. */
  function TaskTableConditions(fields: Fields, t: string, casesTable: Option<string>): seq<Condition> {
    []
    + When(HasIds(fields, Assignee), WhereIn(Column(t, AssigneeId), Ids(fields, Assignee)))
    + When(HasIds(fields, Assignor), WhereIn(Column(t, AssignorId), Ids(fields, Assignor)))
    + When(IsSet(fields, SurveyStatus), WhereEq(Column(t, Status), Raw(fields, SurveyStatus)))
    + When(casesTable.None? && HasIds(fields, CaseId), WhereIn(Column(t, CaseIdColumn), Ids(fields, CaseId)))
  }

  /** Conditions on the cases table. */
  function CaseTableConditions(fields: Fields, c: string): seq<Condition> {
    []
    + When(IsSet(fields, CaseStatus), WhereEq(Column(c, Status), Raw(fields, CaseStatus)))
    + When(HasIds(fields, Patient), WhereIn(Column(c, PatientId), Ids(fields, Patient)))
    + When(HasIds(fields, Tp), WhereIn(Column(c, TreatmentPathId), Ids(fields, Tp)))
    + When(HasIds(fields, TpStep), WhereIn(Column(c, StepId), Ids(fields, TpStep)))
    + When(HasIds(fields, CaseId), WhereIn(Column(c, Id), Ids(fields, CaseId)))
  }

  /** The grouped conditions `modifyQuery` adds; a table that is `false`
    * (None) contributes nothing. */
  function FilterConditions(fields: Fields, tasksTable: Option<string>, casesTable: Option<string>,
                            tpTable: Option<string>, filteredTasks: Option<string>, extra: seq<Condition>)
    : seq<Condition>
  {
    extra
    + (if tasksTable.Some? then TaskTableConditions(fields, tasksTable.value, casesTable) else [])
    + (if casesTable.Some? then CaseTableConditions(fields, casesTable.value) else [])
    + (if tpTable.Some? && HasIds(fields, Cp) then [WhereIn(Column(tpTable.value, ClinicalPathId), Ids(fields, Cp))]
       else [])
    + (if filteredTasks.Some? then [WhereNotNull(Column(filteredTasks.value, Id))] else [])
  }

  /** Whether `modifyQueryWithManyTasks` adds its join. */
  predicate NeedsTaskJoin(fields: Fields, filterDueDate: bool) {
    || (filterDueDate && IsSet(fields, DueDate))
    || HasIds(fields, Assignee)
    || HasIds(fields, Assignor)
    || IsSet(fields, SurveyStatus)
  }

  /** The conditions of the first-matching-task sub-select. */
  function TaskJoinConditions(fields: Fields, casesTable: string, filterDueDate: bool): seq<TaskCondition> {
    [TaskOfCase(casesTable)]
    + When(filterDueDate && IsTruthy(fields, DueDate), DueOn(Raw(fields, DueDate)))
    + When(HasIds(fields, Assignee), AssigneeIn(MapSeq(Ids(fields, Assignee), IntVal)))
    + When(HasIds(fields, Assignor), AssignorIn(MapSeq(Ids(fields, Assignor), IntVal)))
    + When(IsSet(fields, SurveyStatus), StatusIs(IntVal(Raw(fields, SurveyStatus))))
  }

  /** Whether the tasks query joins the filtered cases. */
  predicate NeedsCaseJoin(fields: Fields) {
    || IsSet(fields, CaseStatus)
    || HasIds(fields, Patient)
    || HasIds(fields, CaseId)
    || HasIds(fields, Tp)
    || HasIds(fields, Cp)
    || HasIds(fields, TpStep)
  }

  function CaseJoin(): Join {
    JoinOn("cases", "filtered_cases", Column("filtered_cases", Id), Column("tasks", CaseIdColumn))
  }

  function TreatmentPathJoin(): Join {
    JoinOn("treatment_paths", "filtered_treatment_paths", Column("filtered_treatment_paths", Id),
           Column("filtered_cases", TreatmentPathId))
  }

  function TasksQueryJoins(fields: Fields): seq<Join> {
    if NeedsCaseJoin(fields) then [CaseJoin()] + When(HasIds(fields, Cp), TreatmentPathJoin()) else []
  }

  /** Date-range conditions of the tasks query. */
  function TaskDateConditions(fields: Fields): seq<Condition> {
    []
    + When(IsSet(fields, From), WhereDate(Column("tasks", DueDateColumn), ">=", Raw(fields, From), DateOnly))
    + When(IsSet(fields, To), WhereDate(Column("tasks", DueDateColumn), "<=", Raw(fields, To), DateTime))
    + When(IsTruthy(fields, DueDate), WhereDate(Column("tasks", DueDateColumn), "=", Raw(fields, DueDate), DateOnly))
  }

  /** Creation-date conditions of the case queries. */
  function CaseDateConditions(fields: Fields): seq<Condition> {
    []
    + When(IsSet(fields, From), WhereDate(Column("cases", CreatedAt), ">=", Raw(fields, From), DateOnly))
    + When(IsSet(fields, To), WhereDate(Column("cases", CreatedAt), "<=", Raw(fields, To), DateOnly))
  }

  class FilterInputParser {
    var fields: Fields

    /** Reads `filter[...]`: `filters` holds the supplied, non-null values. */
    constructor (filters: map<string, string>)
      ensures fields == ParseNames(filters, FieldNames())
    {
      var parsed := ReadFields(filters, FieldNames());
      fields := parsed;
    }

    /** The constructor's loop over the argument names. */
    static method ReadFields(filters: map<string, string>, names: seq<FilterName>) returns (parsed: Fields)
      ensures parsed == ParseNames(filters, names)
    {
      parsed := map[];
      var i := 0;
      while i < |names|
        invariant 0 <= i <= |names|
        invariant parsed == ParseNames(filters, names[..i])
      {
        var name := names[i];
        var value := ReadField(filters, name);
        assert names[..i + 1][..i] == names[..i];
        parsed := parsed[name := value];
        i := i + 1;
      }
      assert names[..|names|] == names;
    }

    /** One iteration of the constructor's loop: an id list split on commas
      * and trimmed, or the raw value, or `false` when absent. */
    static method ReadField(filters: map<string, string>, name: FilterName) returns (value: FieldValue)
      ensures value == ParseField(filters, name)
    {
      var key := Key(name);
      if IsCommaSeparated(name) {
        if key in filters {
          value := List(TrimAll(Explode(filters[key], ',')));
        } else {
          value := List([]);
        }
      } else {
        if key in filters {
          value := Scalar(filters[key]);
        } else {
          value := Unset;
        }
      }
    }

    /** The closure's conditions on the tasks table. */
    method TaskTableFilters(t: string, casesTable: Option<string>) returns (onTasks: seq<Condition>)
      ensures onTasks == TaskTableConditions(fields, t, casesTable)
    {
      var f := fields;
      onTasks := [];
      if HasIds(f, Assignee) {
        onTasks := onTasks + [WhereIn(Column(t, AssigneeId), Ids(f, Assignee))];
      }
      assert onTasks == [] + When(HasIds(f, Assignee), WhereIn(Column(t, AssigneeId), Ids(f, Assignee)));
      ghost var s1 := onTasks;
      if HasIds(f, Assignor) {
        onTasks := onTasks + [WhereIn(Column(t, AssignorId), Ids(f, Assignor))];
      }
      assert onTasks == s1 + When(HasIds(f, Assignor), WhereIn(Column(t, AssignorId), Ids(f, Assignor)));
      ghost var s2 := onTasks;
      if IsSet(f, SurveyStatus) {
        onTasks := onTasks + [WhereEq(Column(t, Status), Raw(f, SurveyStatus))];
      }
      assert onTasks == s2 + When(IsSet(f, SurveyStatus), WhereEq(Column(t, Status), Raw(f, SurveyStatus)));
      ghost var s3 := onTasks;
      if casesTable.None? && HasIds(f, CaseId) {
        onTasks := onTasks + [WhereIn(Column(t, CaseIdColumn), Ids(f, CaseId))];
      }
      assert onTasks == s3 + When(casesTable.None? && HasIds(f, CaseId), WhereIn(Column(t, CaseIdColumn), Ids(f, CaseId)));
    }

    /** The closure's conditions on the cases table. */
    method CaseTableFilters(c: string) returns (onCases: seq<Condition>)
      ensures onCases == CaseTableConditions(fields, c)
    {
      var f := fields;
      onCases := [];
      if IsSet(f, CaseStatus) {
        onCases := onCases + [WhereEq(Column(c, Status), Raw(f, CaseStatus))];
      }
      assert onCases == [] + When(IsSet(f, CaseStatus), WhereEq(Column(c, Status), Raw(f, CaseStatus)));
      ghost var s1 := onCases;
      if HasIds(f, Patient) {
        onCases := onCases + [WhereIn(Column(c, PatientId), Ids(f, Patient))];
      }
      assert onCases == s1 + When(HasIds(f, Patient), WhereIn(Column(c, PatientId), Ids(f, Patient)));
      ghost var s2 := onCases;
      if HasIds(f, Tp) {
        onCases := onCases + [WhereIn(Column(c, TreatmentPathId), Ids(f, Tp))];
      }
      assert onCases == s2 + When(HasIds(f, Tp), WhereIn(Column(c, TreatmentPathId), Ids(f, Tp)));
      ghost var s3 := onCases;
      if HasIds(f, TpStep) {
        onCases := onCases + [WhereIn(Column(c, StepId), Ids(f, TpStep))];
      }
      assert onCases == s3 + When(HasIds(f, TpStep), WhereIn(Column(c, StepId), Ids(f, TpStep)));
      ghost var s4 := onCases;
      if HasIds(f, CaseId) {
        onCases := onCases + [WhereIn(Column(c, Id), Ids(f, CaseId))];
      }
      assert onCases == s4 + When(HasIds(f, CaseId), WhereIn(Column(c, Id), Ids(f, CaseId)));
    }

    /** Adds one nested group of conditions for the given tables; a table
      * passed as `false` (None) contributes nothing. */
    method ModifyQuery(query: Query, tasksTable: Option<string>, casesTable: Option<string>,
                       tpTable: Option<string>, filteredTasks: Option<string>, extra: seq<Condition>)
      modifies query
      ensures query.conditions
           == old(query.conditions) + [Nested(FilterConditions(fields, tasksTable, casesTable, tpTable, filteredTasks, extra))]
      ensures query.joins == old(query.joins) && query.groupBy == old(query.groupBy)
    {
      var nested := extra;
      var onTasks: seq<Condition> := [];
      if tasksTable.Some? {
        onTasks := TaskTableFilters(tasksTable.value, casesTable);
      }
      nested := nested + onTasks;
      var onCases: seq<Condition> := [];
      if casesTable.Some? {
        onCases := CaseTableFilters(casesTable.value);
      }
      nested := nested + onCases;
      var onPaths: seq<Condition> := [];
      if tpTable.Some? && HasIds(fields, Cp) {
        onPaths := [WhereIn(Column(tpTable.value, ClinicalPathId), Ids(fields, Cp))];
      }
      nested := nested + onPaths;
      var onFiltered: seq<Condition> := [];
      if filteredTasks.Some? {
        onFiltered := [WhereNotNull(Column(filteredTasks.value, Id))];
      }
      nested := nested + onFiltered;
      query.conditions := query.conditions + [Nested(nested)];
    }

    /** The raw sub-select's conditions, ids and status cast with `intval`. */
    method TaskJoinFilters(casesTable: string, filterDueDate: bool) returns (taskConditions: seq<TaskCondition>)
      ensures taskConditions == TaskJoinConditions(fields, casesTable, filterDueDate)
    {
      var f := fields;
      taskConditions := [TaskOfCase(casesTable)];
      if filterDueDate && IsTruthy(f, DueDate) {
        taskConditions := taskConditions + [DueOn(Raw(f, DueDate))];
      }
      assert taskConditions == [TaskOfCase(casesTable)] + When(filterDueDate && IsTruthy(f, DueDate), DueOn(Raw(f, DueDate)));
      ghost var s1 := taskConditions;
      if HasIds(f, Assignee) {
        taskConditions := taskConditions + [AssigneeIn(MapSeq(Ids(f, Assignee), IntVal))];
      }
      assert taskConditions == s1 + When(HasIds(f, Assignee), AssigneeIn(MapSeq(Ids(f, Assignee), IntVal)));
      ghost var s2 := taskConditions;
      if HasIds(f, Assignor) {
        taskConditions := taskConditions + [AssignorIn(MapSeq(Ids(f, Assignor), IntVal))];
      }
      assert taskConditions == s2 + When(HasIds(f, Assignor), AssignorIn(MapSeq(Ids(f, Assignor), IntVal)));
      ghost var s3 := taskConditions;
      if IsSet(f, SurveyStatus) {
        taskConditions := taskConditions + [StatusIs(IntVal(Raw(f, SurveyStatus)))];
      }
      assert taskConditions == s3 + When(IsSet(f, SurveyStatus), StatusIs(IntVal(Raw(f, SurveyStatus))));
    }

    /** Joins the first task matching the task filters; reports whether it
      * did. */
    method ModifyQueryWithManyTasks(query: Query, casesTable: string, tasksAlias: string, filterDueDate: bool)
      returns (joined: bool)
      modifies query
      ensures joined == NeedsTaskJoin(fields, filterDueDate)
      ensures query.joins == old(query.joins)
        + When(joined, JoinFirstTask(tasksAlias, casesTable, TaskJoinConditions(fields, casesTable, filterDueDate)))
      ensures query.conditions == old(query.conditions) && query.groupBy == old(query.groupBy)
    {
      if (filterDueDate && IsSet(fields, DueDate)) || HasIds(fields, Assignee) || HasIds(fields, Assignor)
        || IsSet(fields, SurveyStatus)
      {
        var taskConditions := TaskJoinFilters(casesTable, filterDueDate);
        query.joins := query.joins + [JoinFirstTask(tasksAlias, casesTable, taskConditions)];
        return true;
      }
      return false;
    }

    method ModifyTasksQuery(query: Query)
      modifies query
      ensures query.joins == old(query.joins) + TasksQueryJoins(fields)
      ensures query.conditions == old(query.conditions)
        + [Nested(FilterConditions(fields, Some("tasks"), Some("filtered_cases"), Some("filtered_treatment_paths"),
                                   None, TaskDateConditions(fields)))]
      ensures query.groupBy == old(query.groupBy)
    {
      AddTaskJoins(query);
      var dates := TaskDates();
      ModifyQuery(query, Some("tasks"), Some("filtered_cases"), Some("filtered_treatment_paths"), None, dates);
    }

    /** The joins of the tasks query: cases when any case-level filter is
      * set, and treatment paths on top when care paths are filtered. */
    method AddTaskJoins(query: Query)
      modifies query
      ensures query.joins == old(query.joins) + TasksQueryJoins(fields)
      ensures query.conditions == old(query.conditions) && query.groupBy == old(query.groupBy)
    {
      if NeedsCaseJoin(fields) {
        query.joins := query.joins + [CaseJoin()];
        if HasIds(fields, Cp) {
          query.joins := query.joins + [TreatmentPathJoin()];
        }
      }
    }

    /** The due-date conditions of the tasks query, in the order the
      * filters are checked. */
    method TaskDates() returns (dates: seq<Condition>)
      ensures dates == TaskDateConditions(fields)
    {
      dates := [];
      if IsSet(fields, From) {
        dates := dates + [WhereDate(Column("tasks", DueDateColumn), ">=", Raw(fields, From), DateOnly)];
      }
      if IsSet(fields, To) {
        dates := dates + [WhereDate(Column("tasks", DueDateColumn), "<=", Raw(fields, To), DateTime)];
      }
      if IsTruthy(fields, DueDate) {
        dates := dates + [WhereDate(Column("tasks", DueDateColumn), "=", Raw(fields, DueDate), DateOnly)];
      }
    }

    method ModifyDetailsTasksQuery(query: Query)
      modifies query
      ensures query.conditions == old(query.conditions)
        + [Nested(FilterConditions(fields, Some("tasks"), Some("cases"), Some("treatment_paths"), None,
                                   CaseDateConditions(fields)
                                   + When(IsTruthy(fields, DueDate), WhereDate(Column("tasks", DueDateColumn), "=", Raw(fields, DueDate), DateOnly))))]
      ensures query.joins == old(query.joins) && query.groupBy == old(query.groupBy)
    {
      var extra := CaseDateConditions(fields);
      if IsTruthy(fields, DueDate) {
        extra := extra + [WhereDate(Column("tasks", DueDateColumn), "=", Raw(fields, DueDate), DateOnly)];
      }
      assert extra == CaseDateConditions(fields)
        + When(IsTruthy(fields, DueDate), WhereDate(Column("tasks", DueDateColumn), "=", Raw(fields, DueDate), DateOnly));
      ModifyQuery(query, Some("tasks"), Some("cases"), Some("treatment_paths"), None, extra);
    }

    /** Case details: when the task join was added, the cases must have a
      * matching task and are grouped by id. */
    method ModifyDetailsCasesQuery(query: Query)
      modifies query
      ensures var joined := NeedsTaskJoin(fields, true);
        && query.joins == old(query.joins)
             + When(joined, JoinFirstTask("filtered_tasks", "cases", TaskJoinConditions(fields, "cases", true)))
        && query.conditions == old(query.conditions)
             + [Nested(FilterConditions(fields, None, Some("cases"), Some("treatment_paths"),
                                        if joined then Some("filtered_tasks") else None, CaseDateConditions(fields)))]
        && query.groupBy == old(query.groupBy) + When(joined, Column("cases", Id))
    {
      var joined := ModifyQueryWithManyTasks(query, "cases", "filtered_tasks", true);
      if joined {
        ModifyQuery(query, None, Some("cases"), Some("treatment_paths"), Some("filtered_tasks"), CaseDateConditions(fields));
        query.groupBy := query.groupBy + [Column("cases", Id)];
      } else {
        ModifyQuery(query, None, Some("cases"), Some("treatment_paths"), None, CaseDateConditions(fields));
      }
    }

    /** Clinical-path cases: as the case details, without grouping. */
    method ModifyCpCasesQuery(query: Query)
      modifies query
      ensures var joined := NeedsTaskJoin(fields, true);
        && query.joins == old(query.joins)
             + When(joined, JoinFirstTask("filtered_tasks", "cases", TaskJoinConditions(fields, "cases", true)))
        && query.conditions == old(query.conditions)
             + [Nested(FilterConditions(fields, None, Some("cases"), Some("treatment_paths"),
                                        if joined then Some("filtered_tasks") else None, CaseDateConditions(fields)))]
        && query.groupBy == old(query.groupBy)
    {
      var joined := ModifyQueryWithManyTasks(query, "cases", "filtered_tasks", true);
      if joined {
        ModifyQuery(query, None, Some("cases"), Some("treatment_paths"), Some("filtered_tasks"), CaseDateConditions(fields));
      } else {
        ModifyQuery(query, None, Some("cases"), Some("treatment_paths"), None, CaseDateConditions(fields));
      }
    }
  }

  // ---------------------------------------------------------------------
  // Properties

  /** Every recognised argument is in the list the constructor reads. */
  lemma AllNamesRead(n: FilterName)
    ensures n in FieldNames()
  {
    var names := FieldNames();
    match n
    case From => assert names[0] == n;
    case To => assert names[1] == n;
    case DueDate => assert names[2] == n;
    case Assignee => assert names[3] == n;
    case Assignor => assert names[4] == n;
    case SurveyStatus => assert names[5] == n;
    case CaseStatus => assert names[6] == n;
    case Patient => assert names[7] == n;
    case Cp => assert names[8] == n;
    case Tp => assert names[9] == n;
    case TpStep => assert names[10] == n;
    case CaseId => assert names[11] == n;
    case Group => assert names[12] == n;
    case UserGroup => assert names[13] == n;
  }

  /** After construction every argument is set: comma-separated ones to
    * a list (empty when absent), the others to the raw value or `false`. */
  lemma ParsedFieldsComplete(filters: map<string, string>)
    ensures forall n: FilterName ::
      n in ParseNames(filters, FieldNames()) && ParseNames(filters, FieldNames())[n] == ParseField(filters, n)
  {
    ParseNamesMeaning(filters, FieldNames());
    forall n: FilterName
      ensures n in FieldNames()
    {
      AllNamesRead(n);
    }
  }

  /** A comma-separated argument supplied as "" parses to [""], which
    * counts as a filter. */
  lemma EmptyListArgumentCounts(filters: map<string, string>, name: FilterName)
    requires IsCommaSeparated(name) && Key(name) in filters && filters[Key(name)] == ""
    ensures Ids(ParseNames(filters, FieldNames()), name) == [""]
    ensures HasIds(ParseNames(filters, FieldNames()), name)
  {
    ParsedFieldsComplete(filters);
    assert TrimAll([""]) == [Trim("")];
  }

  /** Each element of a parsed list is a trimmed comma-separated piece. */
  lemma ListItemsTrimmed(filters: map<string, string>, name: FilterName)
    requires IsCommaSeparated(name) && Key(name) in filters
    ensures var items := Ids(ParseNames(filters, FieldNames()), name);
      |items| == |Explode(filters[Key(name)], ',')|
      && forall i :: 0 <= i < |items| ==> items[i] == Trim(Explode(filters[Key(name)], ',')[i])
  {
    ParsedFieldsComplete(filters);
  }

  /** "0" is a value for the status and date-range filters, but not for
    * the due date. */
  lemma ZeroIsSetButNotTruthy(filters: map<string, string>, name: FilterName)
    requires !IsCommaSeparated(name) && Key(name) in filters && filters[Key(name)] == "0"
    ensures IsSet(ParseNames(filters, FieldNames()), name)
    ensures !IsTruthy(ParseNames(filters, FieldNames()), name)
  {
    ParsedFieldsComplete(filters);
  }

  /** The sub-select's conditions only ever carry integers: every id list
    * is the `intval` of the supplied ids. */
  lemma TaskJoinUsesIntegers(fields: Fields, casesTable: string, filterDueDate: bool)
    ensures forall c :: c in TaskJoinConditions(fields, casesTable, filterDueDate) && c.AssigneeIn? ==>
      c.ids == MapSeq(Ids(fields, Assignee), IntVal)
    ensures forall c :: c in TaskJoinConditions(fields, casesTable, filterDueDate) && c.AssignorIn? ==>
      c.ids == MapSeq(Ids(fields, Assignor), IntVal)
    ensures forall c :: c in TaskJoinConditions(fields, casesTable, filterDueDate) && c.StatusIs? ==>
      c.status == IntVal(Raw(fields, SurveyStatus))
  {
    var dueOn := When(filterDueDate && IsTruthy(fields, DueDate), DueOn(Raw(fields, DueDate)));
    var assignee := When(HasIds(fields, Assignee), AssigneeIn(MapSeq(Ids(fields, Assignee), IntVal)));
    var assignor := When(HasIds(fields, Assignor), AssignorIn(MapSeq(Ids(fields, Assignor), IntVal)));
    var status := When(IsSet(fields, SurveyStatus), StatusIs(IntVal(Raw(fields, SurveyStatus))));
    assert TaskJoinConditions(fields, casesTable, filterDueDate)
        == [TaskOfCase(casesTable)] + dueOn + assignee + assignor + status;
    forall c | c in [TaskOfCase(casesTable)] + dueOn + assignee + assignor + status
      ensures c.AssigneeIn? ==> c.ids == MapSeq(Ids(fields, Assignee), IntVal)
      ensures c.AssignorIn? ==> c.ids == MapSeq(Ids(fields, Assignor), IntVal)
      ensures c.StatusIs? ==> c.status == IntVal(Raw(fields, SurveyStatus))
    {
      assert c == TaskOfCase(casesTable) || c in dueOn || c in assignee || c in assignor || c in status;
    }
  }

  /** An integer rendered in SQL: optional minus sign and digits. */
  function IntLiteral(i: int): (s: string)
    ensures forall k :: 0 <= k < |s| ==> IsDigit(s[k]) || s[k] == '-'
  {
    if i < 0 then "-" + DecimalString(-i) else DecimalString(i)
  }

  predicate SafeListChar(c: char) {
    IsDigit(c) || c == '-' || c == ',' || c == ' '
  }

  /** `implode(', ', array_map('intval', ids))`: whatever the request sent,
    * the text spliced into the sub-select holds nothing but digits, signs,
    * commas and spaces. */
  function IdList(ids: seq<string>): (sql: string)
    ensures sql == Implode(MapSeq(MapSeq(ids, IntVal), IntLiteral), ", ")
    ensures forall k :: 0 <= k < |sql| ==> SafeListChar(sql[k])
  {
    ImplodeLiterals(MapSeq(MapSeq(ids, IntVal), IntLiteral))
  }

  function ImplodeLiterals(literals: seq<string>): (sql: string)
    requires forall i :: 0 <= i < |literals| ==> forall k :: 0 <= k < |literals[i]| ==> IsDigit(literals[i][k]) || literals[i][k] == '-'
    ensures sql == Implode(literals, ", ")
    ensures forall k :: 0 <= k < |sql| ==> SafeListChar(sql[k])
    decreases |literals|
  {
    if literals == [] then ""
    else if |literals| == 1 then literals[0]
    else
      var rest := ImplodeLiterals(literals[1..]);
      var sql := literals[0] + ", " + rest;
      assert forall k :: 0 <= k < |sql| ==>
        (k < |literals[0]| && sql[k] == literals[0][k])
        || (|literals[0]| <= k < |literals[0]| + 2 && (sql[k] == ',' || sql[k] == ' '))
        || (|literals[0]| + 2 <= k && sql[k] == rest[k - |literals[0]| - 2]);
      sql
  }

  /** The tasks query joins the filtered cases exactly when a case filter
    * is present, and the treatment paths exactly when cp is. */
  lemma TasksQueryJoinDecision(fields: Fields)
    ensures CaseJoin() in TasksQueryJoins(fields) <==> NeedsCaseJoin(fields)
    ensures TreatmentPathJoin() in TasksQueryJoins(fields) <==> HasIds(fields, Cp)
  {
  }

  /** The tables the conditions of a list mention. */
  predicate OnlyTables(conds: seq<Condition>, tables: set<string>) {
    forall i :: 0 <= i < |conds| && !conds[i].Nested? ==> conds[i].column.table in tables
  }

  lemma OnlyTablesAppend(a: seq<Condition>, b: seq<Condition>, tables: set<string>)
    requires OnlyTables(a, tables) && OnlyTables(b, tables)
    ensures OnlyTables(a + b, tables)
  {
    forall i | 0 <= i < |a + b| && !(a + b)[i].Nested?
      ensures (a + b)[i].column.table in tables
    {
      if i >= |a| {
        assert (a + b)[i] == b[i - |a|];
      }
    }
  }

  lemma OnlyTablesWhen(a: seq<Condition>, b: bool, x: Condition, tables: set<string>)
    requires OnlyTables(a, tables) && (b && !x.Nested? ==> x.column.table in tables)
    ensures OnlyTables(a + When(b, x), tables)
  {
    OnlyTablesAppend(a, When(b, x), tables);
  }

  /** The conditions of one table's block name only that table. */
  lemma TableBlocksStayOnTheirTable(fields: Fields, t: string, casesTable: Option<string>, c: string, tables: set<string>)
    requires t in tables
    ensures OnlyTables(TaskTableConditions(fields, t, casesTable), tables)
    ensures c in tables || !NeedsCaseJoin(fields) ==> OnlyTables(CaseTableConditions(fields, c), tables)
  {
    var f := fields;
    OnlyTablesWhen([], HasIds(f, Assignee), WhereIn(Column(t, AssigneeId), Ids(f, Assignee)), tables);
    var s1 := [] + When(HasIds(f, Assignee), WhereIn(Column(t, AssigneeId), Ids(f, Assignee)));
    OnlyTablesWhen(s1, HasIds(f, Assignor), WhereIn(Column(t, AssignorId), Ids(f, Assignor)), tables);
    var s2 := s1 + When(HasIds(f, Assignor), WhereIn(Column(t, AssignorId), Ids(f, Assignor)));
    OnlyTablesWhen(s2, IsSet(f, SurveyStatus), WhereEq(Column(t, Status), Raw(f, SurveyStatus)), tables);
    var s3 := s2 + When(IsSet(f, SurveyStatus), WhereEq(Column(t, Status), Raw(f, SurveyStatus)));
    OnlyTablesWhen(s3, casesTable.None? && HasIds(f, CaseId), WhereIn(Column(t, CaseIdColumn), Ids(f, CaseId)), tables);
    if c in tables || !NeedsCaseJoin(fields) {
      OnlyTablesWhen([], IsSet(f, CaseStatus), WhereEq(Column(c, Status), Raw(f, CaseStatus)), tables);
      var c1 := [] + When(IsSet(f, CaseStatus), WhereEq(Column(c, Status), Raw(f, CaseStatus)));
      OnlyTablesWhen(c1, HasIds(f, Patient), WhereIn(Column(c, PatientId), Ids(f, Patient)), tables);
      var c2 := c1 + When(HasIds(f, Patient), WhereIn(Column(c, PatientId), Ids(f, Patient)));
      OnlyTablesWhen(c2, HasIds(f, Tp), WhereIn(Column(c, TreatmentPathId), Ids(f, Tp)), tables);
      var c3 := c2 + When(HasIds(f, Tp), WhereIn(Column(c, TreatmentPathId), Ids(f, Tp)));
      OnlyTablesWhen(c3, HasIds(f, TpStep), WhereIn(Column(c, StepId), Ids(f, TpStep)), tables);
      var c4 := c3 + When(HasIds(f, TpStep), WhereIn(Column(c, StepId), Ids(f, TpStep)));
      OnlyTablesWhen(c4, HasIds(f, CaseId), WhereIn(Column(c, Id), Ids(f, CaseId)), tables);
    }
  }

  /** Every column the tasks query's filters mention belongs to a table
    * the query has: tasks itself, or a joined alias. */
  lemma TasksQueryHasNoDanglingAlias(fields: Fields)
    ensures OnlyTables(FilterConditions(fields, Some("tasks"), Some("filtered_cases"), Some("filtered_treatment_paths"),
                                        None, TaskDateConditions(fields)),
                       {"tasks"} + (if NeedsCaseJoin(fields) then {"filtered_cases"} else {})
                       + (if HasIds(fields, Cp) then {"filtered_treatment_paths"} else {}))
  {
    var tables := {"tasks"} + (if NeedsCaseJoin(fields) then {"filtered_cases"} else {})
                  + (if HasIds(fields, Cp) then {"filtered_treatment_paths"} else {});
    var f := fields;
    var date := Column("tasks", DueDateColumn);
    OnlyTablesWhen([], IsSet(f, From), WhereDate(date, ">=", Raw(f, From), DateOnly), tables);
    var d1 := [] + When(IsSet(f, From), WhereDate(date, ">=", Raw(f, From), DateOnly));
    OnlyTablesWhen(d1, IsSet(f, To), WhereDate(date, "<=", Raw(f, To), DateTime), tables);
    var d2 := d1 + When(IsSet(f, To), WhereDate(date, "<=", Raw(f, To), DateTime));
    OnlyTablesWhen(d2, IsTruthy(f, DueDate), WhereDate(date, "=", Raw(f, DueDate), DateOnly), tables);
    assert OnlyTables(TaskDateConditions(fields), tables);
    TableBlocksStayOnTheirTable(fields, "tasks", Some("filtered_cases"), "filtered_cases", tables);
    var onTasks := TaskDateConditions(fields) + TaskTableConditions(fields, "tasks", Some("filtered_cases"));
    OnlyTablesAppend(TaskDateConditions(fields), TaskTableConditions(fields, "tasks", Some("filtered_cases")), tables);
    var onCases := onTasks + CaseTableConditions(fields, "filtered_cases");
    OnlyTablesAppend(onTasks, CaseTableConditions(fields, "filtered_cases"), tables);
    var paths: seq<Condition> :=
      if HasIds(fields, Cp) then [WhereIn(Column("filtered_treatment_paths", ClinicalPathId), Ids(fields, Cp))] else [];
    OnlyTablesAppend(onCases, paths, tables);
    assert onCases + paths + [] == onCases + paths;
  }

  /** No condition of a list compares the column `name`. */
  predicate NoColumn(conds: seq<Condition>, name: ColumnName) {
    forall i :: 0 <= i < |conds| && !conds[i].Nested? ==> conds[i].column.name != name
  }

  lemma NoColumnWhen(a: seq<Condition>, b: bool, x: Condition, name: ColumnName)
    requires NoColumn(a, name) && (b && !x.Nested? ==> x.column.name != name)
    ensures NoColumn(a + When(b, x), name)
  {
    var r := a + When(b, x);
    forall i | 0 <= i < |r| && !r[i].Nested?
      ensures r[i].column.name != name
    {
      if i >= |a| {
        assert r[i] == x;
      }
    }
  }

  lemma NoColumnExcludes(conds: seq<Condition>, name: ColumnName, x: Condition)
    requires NoColumn(conds, name) && !x.Nested? && x.column.name == name
    ensures x !in conds
  {
  }

  /** The cases table's block never compares `case_id`. */
  lemma CaseBlockHasNoCaseIdColumn(fields: Fields, c: string)
    ensures NoColumn(CaseTableConditions(fields, c), CaseIdColumn)
  {
    var f := fields;
    NoColumnWhen([], IsSet(f, CaseStatus), WhereEq(Column(c, Status), Raw(f, CaseStatus)), CaseIdColumn);
    var c1 := [] + When(IsSet(f, CaseStatus), WhereEq(Column(c, Status), Raw(f, CaseStatus)));
    NoColumnWhen(c1, HasIds(f, Patient), WhereIn(Column(c, PatientId), Ids(f, Patient)), CaseIdColumn);
    var c2 := c1 + When(HasIds(f, Patient), WhereIn(Column(c, PatientId), Ids(f, Patient)));
    NoColumnWhen(c2, HasIds(f, Tp), WhereIn(Column(c, TreatmentPathId), Ids(f, Tp)), CaseIdColumn);
    var c3 := c2 + When(HasIds(f, Tp), WhereIn(Column(c, TreatmentPathId), Ids(f, Tp)));
    NoColumnWhen(c3, HasIds(f, TpStep), WhereIn(Column(c, StepId), Ids(f, TpStep)), CaseIdColumn);
    var c4 := c3 + When(HasIds(f, TpStep), WhereIn(Column(c, StepId), Ids(f, TpStep)));
    NoColumnWhen(c4, HasIds(f, CaseId), WhereIn(Column(c, Id), Ids(f, CaseId)), CaseIdColumn);
  }

  /** The tasks table's block compares `case_id` exactly when no cases
    * table is given. */
  lemma TaskBlockCaseId(fields: Fields, t: string, casesTable: Option<string>)
    requires HasIds(fields, CaseId)
    ensures WhereIn(Column(t, CaseIdColumn), Ids(fields, CaseId)) in TaskTableConditions(fields, t, casesTable)
        <==> casesTable.None?
  {
    var f := fields;
    var target := WhereIn(Column(t, CaseIdColumn), Ids(f, CaseId));
    NoColumnWhen([], HasIds(f, Assignee), WhereIn(Column(t, AssigneeId), Ids(f, Assignee)), CaseIdColumn);
    var s1 := [] + When(HasIds(f, Assignee), WhereIn(Column(t, AssigneeId), Ids(f, Assignee)));
    NoColumnWhen(s1, HasIds(f, Assignor), WhereIn(Column(t, AssignorId), Ids(f, Assignor)), CaseIdColumn);
    var s2 := s1 + When(HasIds(f, Assignor), WhereIn(Column(t, AssignorId), Ids(f, Assignor)));
    NoColumnWhen(s2, IsSet(f, SurveyStatus), WhereEq(Column(t, Status), Raw(f, SurveyStatus)), CaseIdColumn);
    var s3 := s2 + When(IsSet(f, SurveyStatus), WhereEq(Column(t, Status), Raw(f, SurveyStatus)));
    var all := s3 + When(casesTable.None? && HasIds(f, CaseId), target);
    assert all == TaskTableConditions(fields, t, casesTable);
    if casesTable.None? {
      assert all[|all| - 1] == target;
    } else {
      assert all == s3;
      NoColumnExcludes(s3, CaseIdColumn, target);
    }
  }

  /** caseid filters `case_id` of the tasks table only when no cases table
    * is given, and the cases table's `id` otherwise. */
  lemma CaseIdRouting(fields: Fields, tasksTable: string, casesTable: Option<string>, tpTable: Option<string>)
    requires HasIds(fields, CaseId)
    ensures var conds := FilterConditions(fields, Some(tasksTable), casesTable, tpTable, None, []);
      && (WhereIn(Column(tasksTable, CaseIdColumn), Ids(fields, CaseId)) in conds <==> casesTable.None?)
      && (casesTable.Some? ==> WhereIn(Column(casesTable.value, Id), Ids(fields, CaseId)) in conds)
  {
    var target := WhereIn(Column(tasksTable, CaseIdColumn), Ids(fields, CaseId));
    var onTasks := TaskTableConditions(fields, tasksTable, casesTable);
    var onCases := if casesTable.Some? then CaseTableConditions(fields, casesTable.value) else [];
    var paths: seq<Condition> :=
      if tpTable.Some? && HasIds(fields, Cp) then [WhereIn(Column(tpTable.value, ClinicalPathId), Ids(fields, Cp))] else [];
    var conds := FilterConditions(fields, Some(tasksTable), casesTable, tpTable, None, []);
    assert conds == [] + onTasks + onCases + paths + [];
    TaskBlockCaseId(fields, tasksTable, casesTable);
    if casesTable.Some? {
      CaseBlockHasNoCaseIdColumn(fields, casesTable.value);
      NoColumnExcludes(onCases, CaseIdColumn, target);
    }
    assert target !in onCases && target !in paths;
    if casesTable.Some? {
      var c := casesTable.value;
      assert WhereIn(Column(c, Id), Ids(fields, CaseId)) in CaseTableConditions(fields, c);
    }
  }
}
