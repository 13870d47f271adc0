/**
 * The rules UserController applies to a user's profile: the phone-format to
 * regular-expression translation and the format check built on it, the
 * country-name normalisation, the sort column of the user listing, the
 * state and phone section of `patchMe`, and the shape of a new password.
 *
 * Dictionary lookups (`dictionaries` rows, the affiliate's mailing address)
 * are passed in as values; TextHelper's translation of messages is taken to
 * be the identity.
 */
module UserRules {
  import opened Common

  // ---------------------------------------------------------------------------
  // Phone format -> regular expression

  /** Characters the third alternative `[^a-zA-Z#]+` of the tokeniser takes. */
  predicate IsRunChar(c: char) {
    !IsAsciiLetter(c) && c != '#'
  }

  /** Length of the longest prefix of run characters. */
  function RunLength(s: string): (n: nat)
    ensures n <= |s|
    ensures forall i :: 0 <= i < n ==> IsRunChar(s[i])
    ensures n < |s| ==> !IsRunChar(s[n])
    ensures s != [] && IsRunChar(s[0]) ==> n >= 1
  {
    if s == [] || !IsRunChar(s[0]) then 0 else 1 + RunLength(s[1..])
  }

  datatype FormatPiece = LetterPiece | HashPiece | RunPiece(run: string)

  /** The matches `preg_replace_callback` visits, in order: one letter, one
    * '#', or a greedy run of anything else. The three alternatives cover
    * every character, so nothing is copied through unmatched. */
  function Pieces(format: string): seq<FormatPiece>
    decreases |format|
  {
    if format == [] then []
    else if IsAsciiLetter(format[0]) then [LetterPiece] + Pieces(format[1..])
    else if format[0] == '#' then [HashPiece] + Pieces(format[1..])
    else
      var n := RunLength(format);
      [RunPiece(format[..n])] + Pieces(format[n..])
  }

  /** The characters `preg_quote` escapes when no delimiter is given. */
  const PregSpecials: set<char> :=
    {'.', '\\', '+', '*', '?', '[', '^', ']', '$', '(', ')', '{', '}', '=', '!', '<', '>', '|', ':', '-', '#'}

  function QuoteChar(c: char): string {
    if c == '\0' then "\\000"
    else if c in PregSpecials then ['\\', c]
    else [c]
  }

  /** PHP `preg_quote(s)`. */
  function PregQuote(s: string): string {
    if s == [] then "" else QuoteChar(s[0]) + PregQuote(s[1..])
  }

  /** What the callback returns for one match. */
  function RenderPiece(p: FormatPiece): string {
    match p
    case LetterPiece => "\\d"
    case HashPiece => "\\#"
    case RunPiece(run) => PregQuote(run)
  }

  function Render(pieces: seq<FormatPiece>): string {
    if pieces == [] then "" else RenderPiece(pieces[0]) + Render(pieces[1..])
  }

  /** Character-by-character reference for the translation: a letter stands
    * for a digit, '#' for itself, anything else is quoted. */
  function CharPattern(c: char): string {
    if IsAsciiLetter(c) then "\\d"
    else if c == '#' then "\\#"
    else QuoteChar(c)
  }

  function Translate(format: string): string {
    if format == [] then "" else CharPattern(format[0]) + Translate(format[1..])
  }

  lemma {:induction false} TranslateAppend(a: string, b: string)
    ensures Translate(a + b) == Translate(a) + Translate(b)
    decreases |a|
  {
    if a != [] {
      assert (a + b)[0] == a[0];
      assert (a + b)[1..] == a[1..] + b;
      TranslateAppend(a[1..], b);
      calc {
        Translate(a + b);
        CharPattern(a[0]) + Translate(a[1..] + b);
        CharPattern(a[0]) + (Translate(a[1..]) + Translate(b));
        (CharPattern(a[0]) + Translate(a[1..])) + Translate(b);
      }
    } else {
      assert a + b == b;
    }
  }

  /** On a run, `preg_quote` is the character-wise translation. */
  lemma {:induction false} QuoteRun(s: string)
    requires forall i :: 0 <= i < |s| ==> IsRunChar(s[i])
    ensures PregQuote(s) == Translate(s)
    decreases |s|
  {
    if s != [] {
      QuoteRun(s[1..]);
    }
  }

  lemma {:induction false} PiecesTranslate(format: string)
    ensures Render(Pieces(format)) == Translate(format)
    decreases |format|
  {
    if format == [] {
    } else if IsAsciiLetter(format[0]) || format[0] == '#' {
      PiecesTranslate(format[1..]);
    } else {
      var n := RunLength(format);
      PiecesTranslate(format[n..]);
      QuoteRun(format[..n]);
      assert format == format[..n] + format[n..];
      TranslateAppend(format[..n], format[n..]);
    }
  }

  /** `phoneFormatToRegexp`: the regular expression is the character-wise
    * translation of the format between the anchors `^` and `$`. */
  function PhoneFormatToRegexp(format: string): (regex: string)
    ensures regex == "^" + Translate(format) + "$"
  {
    PiecesTranslate(format);
    "^" + Render(Pieces(format)) + "$"
  }

  // ---------------------------------------------------------------------------
  // Reading the expression back

  /** What one position of the expression accepts. */
  datatype CharClass = AnyDigit | Exactly(c: char)

  /** Characters that may not appear unescaped in the pattern: PCRE's
    * metacharacters and the '#' delimiter the pattern is wrapped in. */
  const Unsafe: set<char> := {'\\', '^', '$', '.', '[', '|', '(', ')', '?', '*', '+', '{', '#'}

  function Prepend(k: CharClass, rest: Option<seq<CharClass>>): Option<seq<CharClass>> {
    if rest.None? then None else Some([k] + rest.value)
  }

  /** Reads a pattern body made of literals, `\d`, `\000` and escaped
    * punctuation; None for anything else. */
  function ParseBody(b: string): Option<seq<CharClass>>
    decreases |b|
  {
    if b == [] then Some([])
    else if b[0] == '\\' then
      if |b| >= 2 && b[1] == 'd' then Prepend(AnyDigit, ParseBody(b[2..]))
      else if |b| >= 4 && b[1..4] == "000" then Prepend(Exactly('\0'), ParseBody(b[4..]))
      else if |b| >= 2 && !IsAsciiLetter(b[1]) && !IsDigit(b[1]) then Prepend(Exactly(b[1]), ParseBody(b[2..]))
      else None
    else if b[0] in Unsafe then None
    else Prepend(Exactly(b[0]), ParseBody(b[1..]))
  }

  function ClassOf(c: char): CharClass {
    if IsAsciiLetter(c) then AnyDigit else Exactly(c)
  }

  /** The position-by-position reading of a format. */
  function Classes(format: string): (r: seq<CharClass>)
    ensures |r| == |format|
    ensures forall i :: 0 <= i < |format| ==> r[i] == ClassOf(format[i])
  {
    if format == [] then [] else [ClassOf(format[0])] + Classes(format[1..])
  }

  lemma ParseStep(c: char, rest: string)
    ensures ParseBody(CharPattern(c) + rest) == Prepend(ClassOf(c), ParseBody(rest))
  {
    var b := CharPattern(c) + rest;
    if IsAsciiLetter(c) {
      assert b[2..] == rest;
    } else if c == '#' {
      assert b[2..] == rest;
    } else if c == '\0' {
      assert b[1..4] == "000";
      assert b[4..] == rest;
    } else if c in PregSpecials {
      assert b[2..] == rest;
    } else {
      assert b[1..] == rest;
    }
  }

  /** The translation loses nothing: reading the pattern back gives, for
    * each character of the format, "a digit" for a letter and the
    * character itself otherwise. */
  lemma {:induction false} TranslateParses(format: string)
    ensures ParseBody(Translate(format)) == Some(Classes(format))
    decreases |format|
  {
    if format != [] {
      TranslateParses(format[1..]);
      ParseStep(format[0], Translate(format[1..]));
    }
  }

  predicate ClassMatches(k: CharClass, c: char) {
    match k
    case AnyDigit => IsDigit(c)
    case Exactly(d) => c == d
  }

  predicate FitsClasses(classes: seq<CharClass>, s: string) {
    |classes| == |s| && forall i :: 0 <= i < |s| ==> ClassMatches(classes[i], s[i])
  }

  /** `^body$` in PCRE without the D modifier: `$` also matches just before
    * a final newline. */
  predicate AnchoredMatch(classes: seq<CharClass>, s: string) {
    FitsClasses(classes, s) || (|s| > 0 && s[|s| - 1] == '\n' && FitsClasses(classes, s[..|s| - 1]))
  }

  /** `preg_match` of an anchored pattern of the readable kind; None for a
    * pattern outside it. */
  function MatchRegex(regex: string, s: string): Option<bool> {
    if |regex| >= 2 && regex[0] == '^' && regex[|regex| - 1] == '$' then
      var body := ParseBody(regex[1..|regex| - 1]);
      if body.None? then None else Some(AnchoredMatch(body.value, s))
    else None
  }

  /** A phone fits a format when it has the same length, a digit under every
    * letter of the format and the format's own character everywhere else. */
  predicate FitsFormat(format: string, phone: string) {
    |phone| == |format| &&
    forall i :: 0 <= i < |format| ==> if IsAsciiLetter(format[i]) then IsDigit(phone[i]) else phone[i] == format[i]
  }

  datatype PhoneCheck = Checked(valid: bool) | UnknownCountry(message: string)

  /** `phoneFormatIsValid`: `format` is the `dictionaries` row of the
    * country, if there is one. */
  function PhoneFormatIsValid(country: string, format: Option<string>, phone: string): (r: PhoneCheck)
    ensures IsFalsy(phone) ==> r == Checked(true)
    ensures !IsFalsy(phone) && format.None? ==> r.UnknownCountry?
  {
    if IsFalsy(phone) then Checked(true)
    else if format.None? then UnknownCountry("Invalid contry data set for the country ‘" + country + "‘")
    else Checked(MatchRegex(PhoneFormatToRegexp(format.value), phone) == Some(true))
  }

  lemma FitsClassesOfFormat(format: string, phone: string)
    ensures FitsClasses(Classes(format), phone) <==> FitsFormat(format, phone)
  {
  }

  /** A non-empty phone is valid for a known country exactly when it fits the
    * format, or fits it followed by one newline. */
  lemma PhoneFormatMeaning(country: string, format: string, phone: string)
    ensures PhoneFormatIsValid(country, Some(format), phone)
         == Checked(IsFalsy(phone) || FitsFormat(format, phone)
                    || (|phone| > 0 && phone[|phone| - 1] == '\n' && FitsFormat(format, phone[..|phone| - 1])))
  {
    var regex := PhoneFormatToRegexp(format);
    assert regex[1..|regex| - 1] == Translate(format);
    TranslateParses(format);
    FitsClassesOfFormat(format, phone);
    if |phone| > 0 {
      FitsClassesOfFormat(format, phone[..|phone| - 1]);
    }
  }

  // ---------------------------------------------------------------------------
  // Countries

  /** `normalizeCountry`. */
  function NormalizeCountry(name: string): string {
    if ToLower(name) == "united states" then "USA" else name
  }

  /** The dictionary group that lists a country's states. */
  function StateGroup(country: string): string {
    "state_" + ToLower(country)
  }

  /** Every spelling of "united states" becomes "USA", any other name is
    * kept, and "USA" is not itself a spelling of "united states", so
    * normalising twice is normalising once. */
  lemma NormalizeCountryMeaning(name: string)
    ensures ToLower(name) == "united states" ==> NormalizeCountry(name) == "USA"
    ensures ToLower(name) != "united states" ==> NormalizeCountry(name) == name
    ensures ToLower(NormalizeCountry(name)) != "united states"
    ensures NormalizeCountry(NormalizeCountry(name)) == NormalizeCountry(name)
  {
    assert ToLower("USA")[0] == 'u';
    assert "united states"[0] == 'u';
    assert |ToLower("USA")| != |"united states"|;
  }

  /** All spellings of the United States look up the same state list. */
  lemma UnitedStatesStateGroup(name: string)
    requires ToLower(name) == "united states"
    ensures StateGroup(NormalizeCountry(name)) == "state_usa"
  {
    assert ToLower("USA") == "usa";
  }

  // ---------------------------------------------------------------------------
  // Sorting the user listing

  /** The values the `sort` input may take. */
  const SortableColumns: set<string> :=
    {"id", "address1", "address2", "birthday", "city", "email", "first_name", "full_name",
     "last_name", "mobile_phone", "position", "primary_phone", "state", "title", "username", "zip"}

  /** The constructor's `sort`: "id" when absent, "position.name" for
    * "position", the given value otherwise; None when validation refuses
    * it (422). A blank value skips the `in` rule, as Laravel skips
    * non-implicit rules on empty strings. */
  function ListingSort(sort: Option<string>): (r: Option<string>)
    ensures sort.None? ==> r == Some("id")
    ensures sort.Some? && sort.value in SortableColumns ==> r.Some?
    ensures sort.Some? && Trim(sort.value) != "" && sort.value !in SortableColumns ==> r.None?
  {
    if sort.None? then Some("id")
    else if Trim(sort.value) != "" && sort.value !in SortableColumns then None
    else if sort.value == "position" then Some("position.name")
    else Some(sort.value)
  }

  /** PHP `strpos(s, c)` for one character: the first index, or false. */
  function Strpos(s: string, c: char): (r: Option<nat>)
    ensures r.None? <==> c !in s
    ensures r.Some? ==> r.value < |s| && s[r.value] == c && c !in s[..r.value]
  {
    if s == [] then None
    else if s[0] == c then Some(0)
    else
      var rest := Strpos(s[1..], c);
      if rest.None? then None else Some(rest.value + 1)
  }

  datatype OrderBy = FullNameConcat | ColumnRef(name: string)

  /** `postprocessUsersQuery`'s ORDER BY column. `!strpos` is true both
    * when there is no '.' and when the '.' is the first character. */
  function OrderColumn(sort: string): OrderBy {
    if sort == "full_name" || sort == "users.full_name" then FullNameConcat
    else
      var dot := Strpos(sort, '.');
      if dot.None? || dot.value == 0 then ColumnRef("users." + sort)
      else ColumnRef(sort)
  }

  /** A name is prefixed with the users table unless it already carries a
    * table after its first character. */
  lemma OrderColumnQualification(sort: string)
    requires sort != "full_name" && sort != "users.full_name"
    ensures ('.' !in sort || sort[0] == '.') ==> OrderColumn(sort) == ColumnRef("users." + sort)
    ensures ('.' in sort && sort[0] != '.') ==> OrderColumn(sort) == ColumnRef(sort)
  {
  }

  lemma ListedSort(sort: string)
    requires sort in SortableColumns
    ensures ListingSort(Some(sort)) == Some(if sort == "position" then "position.name" else sort)
  {
  }

  lemma SortableHaveNoDot(sort: string)
    requires sort in SortableColumns
    ensures '.' !in sort
  {
  }

  /** Every sort the listing accepts orders by the full-name expression, by
    * the position's name, or by a column of the users table. */
  lemma AcceptedSortsAreQualified(sort: string)
    requires sort in SortableColumns
    ensures var column := OrderColumn(ListingSort(Some(sort)).value);
      && (sort == "full_name" <==> column == FullNameConcat)
      && (sort == "position" <==> column == ColumnRef("position.name"))
      && (sort != "full_name" && sort != "position" ==> column == ColumnRef("users." + sort))
  {
    ListedSort(sort);
    SortableHaveNoDot(sort);
    PositionOrder();
    if sort != "position" {
      UnqualifiedOrder(sort);
    }
  }

  lemma PositionOrder()
    ensures OrderColumn("position.name") == ColumnRef("position.name")
  {
    var name := "position.name";
    assert name[8] == '.' && name[0] == 'p';
    assert name != "full_name" && name != "users.full_name" by {
      assert |name| != |"full_name"| && |name| != |"users.full_name"|;
    }
  }

  lemma UnqualifiedOrder(sort: string)
    requires '.' !in sort
    ensures sort == "full_name" ==> OrderColumn(sort) == FullNameConcat
    ensures sort != "full_name" ==> OrderColumn(sort) == ColumnRef("users." + sort)
    ensures OrderColumn(sort) != ColumnRef("position.name")
  {
    assert ("users." + sort)[0] == 'u' && "position.name"[0] == 'p';
  }

  // ---------------------------------------------------------------------------
  // patchMe: state and phones

  /** The three columns the section may write. */
  datatype Column = State | PrimaryPhone | MobilePhone

  function Key(c: Column): string {
    match c
    case State => "state"
    case PrimaryPhone => "primary_phone"
    case MobilePhone => "mobile_phone"
  }

  /** Those columns of a user row; None is SQL NULL. */
  datatype Location = Location(state: Option<string>, primaryPhone: Option<string>, mobilePhone: Option<string>)

  function Get(l: Location, c: Column): Option<string> {
    match c
    case State => l.state
    case PrimaryPhone => l.primaryPhone
    case MobilePhone => l.mobilePhone
  }

  function Set(l: Location, c: Column, v: Option<string>): (r: Location)
    ensures Get(r, c) == v
    ensures forall d :: d != c ==> Get(r, d) == Get(l, d)
  {
    match c
    case State => l.(state := v)
    case PrimaryPhone => l.(primaryPhone := v)
    case MobilePhone => l.(mobilePhone := v)
  }

  const PhoneColumns: seq<Column> := [PrimaryPhone, MobilePhone]
  const UnsettableColumns: seq<Column> := [State, PrimaryPhone, MobilePhone]

  /** A phone passes when it has no non-digit and at most 21 bytes (with
    * digits only, characters and bytes agree). */
  predicate PhoneShape(phone: string) {
    AllDigits(phone) && |phone| <= 21
  }

  /** The two per-column rules: phones when the country is known, clearing
    * when it is not. */
  datatype Rule = PhoneRule | ClearRule

  /** Whether the rule lets the column's input through. */
  predicate Accepts(rule: Rule, request: Request, c: Column) {
    Has(request, Key(c)) ==> (if rule == PhoneRule then PhoneShape(request[Key(c)]) else IsFalsy(request[Key(c)]))
  }

  /** The column's value after an accepted input. */
  function Effect(rule: Rule, request: Request, c: Column, current: Option<string>): Option<string> {
    if Has(request, Key(c)) then (if rule == PhoneRule then Some(request[Key(c)]) else None)
    else if rule == PhoneRule && Key(c) in request then Some("")
    else current
  }

  function Rejection(rule: Rule, request: Request, c: Column): string
    requires Key(c) in request
  {
    if rule == PhoneRule then "The phone number ‘" + request[Key(c)] + "’ does not match the phone format."
    else NoCountryMessage
  }

  const NoCountryMessage: string :=
    "The user is assigned to an affiliate without a mailing address, so we don’t know the user’s country and therefore don’t know the available states and phone formats"

  /** One iteration of either loop. */
  function Step(rule: Rule, request: Request, l: Location, c: Column): Result<Location, string> {
    if Accepts(rule, request, c) then Ok(Set(l, c, Effect(rule, request, c, Get(l, c))))
    else Err(Rejection(rule, request, c))
  }

  /** A whole loop: the first rejected column ends it. */
  function Steps(rule: Rule, request: Request, l: Location, columns: seq<Column>): Result<Location, string>
    decreases |columns|
  {
    if columns == [] then Ok(l)
    else
      var before := Steps(rule, request, l, columns[..|columns| - 1]);
      if before.Err? then before else Step(rule, request, before.value, columns[|columns| - 1])
  }

  /** A loop succeeds iff it accepts every column. */
  lemma {:induction false} StepsAccepted(rule: Rule, request: Request, l: Location, columns: seq<Column>)
    ensures Steps(rule, request, l, columns).Ok? <==> forall i :: 0 <= i < |columns| ==> Accepts(rule, request, columns[i])
    decreases |columns|
  {
    if columns != [] {
      var init := columns[..|columns| - 1];
      StepsAccepted(rule, request, l, init);
      AcceptedSplit(rule, request, columns, init);
      var before := Steps(rule, request, l, init);
      if before.Ok? {
        assert Steps(rule, request, l, columns) == Step(rule, request, before.value, columns[|columns| - 1]);
      }
    }
  }

  /** Every column is accepted iff every column but the last is, and the
    * last is. */
  lemma AcceptedSplit(rule: Rule, request: Request, columns: seq<Column>, init: seq<Column>)
    requires columns != [] && init == columns[..|columns| - 1]
    ensures (forall i :: 0 <= i < |columns| ==> Accepts(rule, request, columns[i]))
      <==> (forall i :: 0 <= i < |init| ==> Accepts(rule, request, init[i]))
           && Accepts(rule, request, columns[|columns| - 1])
  {
    assert forall i :: 0 <= i < |init| ==> init[i] == columns[i];
  }

  /** `columns[j]` is the first column the rule does not accept. */
  predicate FirstRejectedAt(rule: Rule, request: Request, columns: seq<Column>, j: int) {
    0 <= j < |columns| && !Accepts(rule, request, columns[j])
    && forall i :: 0 <= i < j ==> Accepts(rule, request, columns[i])
  }

  /** A failed loop reports the first column it does not accept. */
  lemma {:induction false} StepsFirstRejection(rule: Rule, request: Request, l: Location, columns: seq<Column>)
    ensures var r := Steps(rule, request, l, columns);
      r.Err? ==> exists j :: FirstRejectedAt(rule, request, columns, j) && r.error == Rejection(rule, request, columns[j])
    decreases |columns|
  {
    if columns != [] {
      var init := columns[..|columns| - 1];
      var before := Steps(rule, request, l, init);
      if before.Err? {
        StepsFirstRejection(rule, request, l, init);
        var j :| FirstRejectedAt(rule, request, init, j) && before.error == Rejection(rule, request, init[j]);
        FirstRejectedInPrefix(rule, request, columns, init, j);
      } else if !Accepts(rule, request, columns[|columns| - 1]) {
        StepsAccepted(rule, request, l, init);
        assert forall i :: 0 <= i < |init| ==> init[i] == columns[i];
        assert FirstRejectedAt(rule, request, columns, |columns| - 1);
      }
    }
  }

  /** The first rejection in a prefix is the first rejection overall. */
  lemma FirstRejectedInPrefix(rule: Rule, request: Request, columns: seq<Column>, init: seq<Column>, j: int)
    requires columns != [] && init == columns[..|columns| - 1]
    requires FirstRejectedAt(rule, request, init, j)
    ensures FirstRejectedAt(rule, request, columns, j) && columns[j] == init[j]
  {
    assert forall i :: 0 <= i <= j ==> columns[i] == init[i];
  }

  /** After a successful loop over distinct columns, each visited column
    * holds the rule's effect on its original value and the others are
    * untouched. */
  lemma {:induction false} StepsEffect(rule: Rule, request: Request, l: Location, columns: seq<Column>)
    requires NoDuplicates(columns)
    ensures Steps(rule, request, l, columns).Ok? ==> forall c ::
      Get(Steps(rule, request, l, columns).value, c)
        == if c in columns then Effect(rule, request, c, Get(l, c)) else Get(l, c)
    decreases |columns|
  {
    if columns != [] {
      var init := columns[..|columns| - 1];
      var last := columns[|columns| - 1];
      assert NoDuplicates(init);
      StepsEffect(rule, request, l, init);
      assert last !in init;
      assert forall c :: c in columns <==> c in init || c == last;
    }
  }

  /** The state input, when the country is known. */
  function StateStep(request: Request, country: string, dictionary: set<(string, string)>, l: Location): Result<Location, string> {
    if !Has(request, "state") then Ok(l)
    else if (StateGroup(country), request["state"]) in dictionary then Ok(Set(l, State, Some(request["state"])))
    else Err("Impossible state ‘" + request["state"] + "’ for the country ‘" + country + "’")
  }

  /** The section from the mailing-address lookup to the save: `mailing` is
    * the country of the affiliate's mailing address, `dictionary` the
    * (group, value) rows of `dictionaries`. */
  function LocationPatch(request: Request, mailing: Option<string>, dictionary: set<(string, string)>,
                         l: Location): Result<Location, string> {
    if mailing.None? then Steps(ClearRule, request, l, UnsettableColumns)
    else
      var country := NormalizeCountry(mailing.value);
      var afterState := StateStep(request, country, dictionary, l);
      if afterState.Err? then afterState else Steps(PhoneRule, request, afterState.value, PhoneColumns)
  }

  /** With a known country: the patch goes through iff the state (if given)
    * is one of the country's and each given phone is digits only and at
    * most 21 long. A given phone is stored, a present but blank one becomes
    * "", an absent one is kept. */
  lemma KnownCountryRules(request: Request, country: string, dictionary: set<(string, string)>, l: Location)
    ensures var r := LocationPatch(request, Some(country), dictionary, l);
      && (r.Ok? <==>
            (Has(request, "state") ==> (StateGroup(NormalizeCountry(country)), request["state"]) in dictionary)
            && (Has(request, "primary_phone") ==> PhoneShape(request["primary_phone"]))
            && (Has(request, "mobile_phone") ==> PhoneShape(request["mobile_phone"])))
      && (r.Ok? ==>
            && r.value.state == (if Has(request, "state") then Some(request["state"]) else l.state)
            && r.value.primaryPhone == (if Has(request, "primary_phone") then Some(request["primary_phone"])
                                        else if "primary_phone" in request then Some("") else l.primaryPhone)
            && r.value.mobilePhone == (if Has(request, "mobile_phone") then Some(request["mobile_phone"])
                                       else if "mobile_phone" in request then Some("") else l.mobilePhone))
  {
    var afterState := StateStep(request, NormalizeCountry(country), dictionary, l);
    if afterState.Ok? {
      StepsAccepted(PhoneRule, request, afterState.value, PhoneColumns);
      StepsEffect(PhoneRule, request, afterState.value, PhoneColumns);
      assert PhoneColumns[0] == PrimaryPhone && PhoneColumns[1] == MobilePhone;
      assert State !in PhoneColumns;
    }
  }

  /** Without a mailing address: the patch goes through iff every given
    * state or phone is falsy ("0", since a given value is never blank), and
    * each given one is set to NULL; the rest are kept. */
  lemma UnknownCountryRules(request: Request, dictionary: set<(string, string)>, l: Location)
    ensures var r := LocationPatch(request, None, dictionary, l);
      && (r.Ok? <==> forall c :: c in UnsettableColumns && Has(request, Key(c)) ==> IsFalsy(request[Key(c)]))
      && (r.Err? ==> r.error == NoCountryMessage)
      && (r.Ok? ==> forall c :: Get(r.value, c) == if Has(request, Key(c)) then None else Get(l, c))
  {
    UnknownCountryAccepts(request, l);
    UnknownCountryRejects(request, l);
    UnknownCountryClears(request, l);
  }

  /** Every column can be unset. */
  lemma EveryColumnUnsettable(c: Column)
    ensures c in UnsettableColumns
  {
    match c
    case State => assert UnsettableColumns[0] == c;
    case PrimaryPhone => assert UnsettableColumns[1] == c;
    case MobilePhone => assert UnsettableColumns[2] == c;
  }

  lemma UnknownCountryAccepts(request: Request, l: Location)
    ensures Steps(ClearRule, request, l, UnsettableColumns).Ok?
      <==> forall c :: c in UnsettableColumns && Has(request, Key(c)) ==> IsFalsy(request[Key(c)])
  {
    StepsAccepted(ClearRule, request, l, UnsettableColumns);
    assert forall c :: c in UnsettableColumns <==> exists i :: 0 <= i < |UnsettableColumns| && UnsettableColumns[i] == c;
  }

  lemma UnknownCountryRejects(request: Request, l: Location)
    ensures Steps(ClearRule, request, l, UnsettableColumns).Err? ==>
      Steps(ClearRule, request, l, UnsettableColumns).error == NoCountryMessage
  {
    if Steps(ClearRule, request, l, UnsettableColumns).Err? {
      StepsFirstRejection(ClearRule, request, l, UnsettableColumns);
    }
  }

  lemma UnknownCountryClears(request: Request, l: Location)
    ensures Steps(ClearRule, request, l, UnsettableColumns).Ok? ==> forall c ::
      Get(Steps(ClearRule, request, l, UnsettableColumns).value, c) == if Has(request, Key(c)) then None else Get(l, c)
  {
    if Steps(ClearRule, request, l, UnsettableColumns).Ok? {
      StepsEffect(ClearRule, request, l, UnsettableColumns);
      forall c: Column ensures c in UnsettableColumns {
        EveryColumnUnsettable(c);
      }
    }
  }

  /** One more column extends the loop by one step. */
  lemma StepsSnoc(rule: Rule, request: Request, l: Location, columns: seq<Column>, i: int, current: Location)
    requires 0 <= i < |columns|
    requires Steps(rule, request, l, columns[..i]) == Ok(current)
    ensures Steps(rule, request, l, columns[..i + 1]) == Step(rule, request, current, columns[i])
  {
    assert columns[..i + 1][..i] == columns[..i];
  }

  /** Once a prefix is rejected, the whole loop reports that rejection. */
  lemma {:induction false} StepsErrStays(rule: Rule, request: Request, l: Location, columns: seq<Column>, k: int)
    requires 0 <= k <= |columns|
    requires Steps(rule, request, l, columns[..k]).Err?
    ensures Steps(rule, request, l, columns) == Steps(rule, request, l, columns[..k])
    decreases |columns| - k
  {
    if k == |columns| {
      assert columns[..k] == columns;
    } else {
      StepsErrStep(rule, request, l, columns, k);
      StepsErrStays(rule, request, l, columns, k + 1);
    }
  }

  /** A rejected prefix stays rejected one column further. */
  lemma StepsErrStep(rule: Rule, request: Request, l: Location, columns: seq<Column>, k: int)
    requires 0 <= k < |columns|
    requires Steps(rule, request, l, columns[..k]).Err?
    ensures Steps(rule, request, l, columns[..k + 1]) == Steps(rule, request, l, columns[..k])
  {
    assert columns[..k + 1][..k] == columns[..k];
  }

  /** The loop over the phone columns when the country is known. */
  method SetPhones(request: Request, user: Location) returns (r: Result<Location, string>)
    ensures r == Steps(PhoneRule, request, user, PhoneColumns)
  {
    var current := user;
    for i := 0 to |PhoneColumns|
      invariant Steps(PhoneRule, request, user, PhoneColumns[..i]) == Ok(current)
    {
      var c := PhoneColumns[i];
      StepsSnoc(PhoneRule, request, user, PhoneColumns, i, current);
      if Has(request, Key(c)) {
        var phone := request[Key(c)];
        if !AllDigits(phone) || |phone| > 21 {
          StepsErrStays(PhoneRule, request, user, PhoneColumns, i + 1);
          return Err("The phone number ‘" + phone + "’ does not match the phone format.");
        }
        current := Set(current, c, Some(phone));
      } else if Key(c) in request {
        current := Set(current, c, Some(""));
      }
    }
    assert PhoneColumns[..|PhoneColumns|] == PhoneColumns;
    return Ok(current);
  }

  /** The loop over state and phones when the country is unknown. */
  method UnsetWithoutCountry(request: Request, user: Location) returns (r: Result<Location, string>)
    ensures r == Steps(ClearRule, request, user, UnsettableColumns)
  {
    var current := user;
    for i := 0 to |UnsettableColumns|
      invariant Steps(ClearRule, request, user, UnsettableColumns[..i]) == Ok(current)
    {
      var c := UnsettableColumns[i];
      StepsSnoc(ClearRule, request, user, UnsettableColumns, i, current);
      if Has(request, Key(c)) {
        var value := request[Key(c)];
        if !IsFalsy(value) {
          StepsErrStays(ClearRule, request, user, UnsettableColumns, i + 1);
          return Err(NoCountryMessage);
        }
        current := Set(current, c, None);
      }
    }
    assert UnsettableColumns[..|UnsettableColumns|] == UnsettableColumns;
    return Ok(current);
  }

  /** The user's stored row, as far as this section writes it. */
  class UserAccount {
    var location: Location
    var password: string

    constructor (location: Location, password: string)
      ensures this.location == location && this.password == password
    {
      this.location := location;
      this.password := password;
    }

    /** The state and phone section of `patchMe` and its save: a rejection
      * returns before `save()`, so the stored row keeps its old values. */
    method PatchLocation(request: Request, mailing: Option<string>, dictionary: set<(string, string)>)
      returns (status: int, message: string)
      modifies this
      ensures var r := LocationPatch(request, mailing, dictionary, old(location));
        && (r.Ok? ==> status == 200 && message == "" && location == r.value)
        && (r.Err? ==> status == 422 && message == r.error && location == old(location))
      ensures password == old(password)
    {
      var patched: Result<Location, string>;
      if mailing.None? {
        patched := UnsetWithoutCountry(request, location);
      } else {
        var country := NormalizeCountry(mailing.value);
        patched := StateStep(request, country, dictionary, location);
        if patched.Ok? {
          patched := SetPhones(request, patched.value);
        }
      }
      if patched.Err? {
        return 422, patched.error;
      }
      location := patched.value;
      return 200, "";
    }

    /** `postPassword` with the rule as written: the hash of an accepted
      * password replaces the stored one (hashing is a parameter). */
    method PostPassword(request: Request, hashed: string) returns (status: int)
      modifies this
      ensures status == 200 <==> PasswordAcceptedAsWritten(request)
      ensures status != 200 ==> status == 422
      ensures password == (if status == 200 then hashed else old(password))
      ensures location == old(location)
    {
      if !PasswordAcceptedAsWritten(request) {
        return 422;
      }
      password := hashed;
      return 200;
    }

    /** `postPassword` with the corrected rule, under which every stored
      * password is made of letters and digits only. */
    method PostPasswordCorrected(request: Request, hashed: string) returns (status: int)
      modifies this
      ensures status == 200 <==> PasswordAccepted(request)
      ensures status == 200 ==> AlnumRun(request["new_password"])
      ensures status != 200 ==> status == 422
      ensures password == (if status == 200 then hashed else old(password))
      ensures location == old(location)
    {
      if !PasswordAccepted(request) {
        return 422;
      }
      password := hashed;
      return 200;
    }
  }

  // ---------------------------------------------------------------------------
  // New passwords

  predicate IsAlnum(c: char) {
    IsAsciiLetter(c) || IsDigit(c)
  }

  /** `[a-zA-Z0-9]+` over the whole string. */
  predicate AlnumRun(s: string) {
    |s| >= 1 && forall i :: 0 <= i < |s| ==> IsAlnum(s[i])
  }

  /** The rule as written, `required|min:1|regex:/^[a-zA-Z0-9]+$/`, with
    * PCRE's `$` that also matches before a final newline. */
  predicate PasswordAcceptedAsWritten(request: Request) {
    var key := "new_password";
    Has(request, key) && |request[key]| >= 1
    && (AlnumRun(request[key])
        || (|request[key]| > 0 && request[key][|request[key]| - 1] == '\n' && AlnumRun(request[key][..|request[key]| - 1])))
  }

  /** The rule as intended: the whole input is one or more ASCII letters and
    * digits (`\z`, or the D modifier). */
  predicate PasswordAccepted(request: Request) {
    "new_password" in request && AlnumRun(request["new_password"])
  }

  /** The written rule lets "abc\n" through, so the stored password ends in
    * a newline that is not a letter or a digit. */
  lemma PasswordNewlineAccepted()
    ensures PasswordAcceptedAsWritten(map["new_password" := "abc\n"])
    ensures !AlnumRun("abc\n")
    ensures !PasswordAccepted(map["new_password" := "abc\n"])
  {
    var s := "abc\n";
    assert s[..3] == "abc";
    assert !IsTrimChar(s[0]);
    assert Trim(s) != "" by {
      TrimLeftOfClean(s);
      assert TrimRight(s) == TrimRight("abc");
      assert !IsTrimChar('c');
    }
    assert !IsAlnum(s[3]);
  }

  /** The intended rule accepts exactly the non-empty letter-and-digit
    * strings, and each of them also passes the written rule. */
  lemma PasswordRuleMeaning(request: Request)
    ensures PasswordAccepted(request) ==> PasswordAcceptedAsWritten(request)
    ensures PasswordAcceptedAsWritten(request) && !PasswordAccepted(request) ==>
      var s := request["new_password"]; s[|s| - 1] == '\n' && AlnumRun(s[..|s| - 1])
  {
    if PasswordAccepted(request) {
      var s := request["new_password"];
      assert !IsTrimChar(s[0]) && !IsTrimChar(s[|s| - 1]);
      TrimLeftOfClean(s);
      assert TrimRight(s) == s;
    }
  }
}
