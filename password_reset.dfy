/**
 * The password reset of AuthController::reset, minus mail delivery: the
 * shape of the generated password, the saving of its hash (the hash
 * function is a parameter), and the substitution of the e-mail template's
 * variables into its body and subject.
 *
 * The random draws (`rand`, `str_shuffle`) enter as parameters constrained
 * to the ranges the code can produce.
 */
module PasswordReset {
  import opened Common

  predicate IsUpper(c: char) { 'A' <= c <= 'Z' }
  predicate IsLower(c: char) { 'a' <= c <= 'z' }

  /** "YyXXXXyy": a capital, a small letter, a four-digit number without a
    * leading zero, and two small letters. */
  predicate ResetPasswordShape(p: string) {
    && |p| == 8
    && IsUpper(p[0])
    && IsLower(p[1])
    && AllDigits(p[2..6]) && p[2] != '0'
    && IsLower(p[6]) && IsLower(p[7])
  }

  /** The password assembled from its four template slots. `pair` is the
    * first two letters of the shuffled doubled alphabet, so both letters
    * may be equal. */
  method NewPassword(upper: char, lower: char, number: nat, pair: string) returns (password: string)
    requires IsUpper(upper) && IsLower(lower) && 1000 <= number <= 9999
    requires |pair| == 2 && IsLower(pair[0]) && IsLower(pair[1])
    ensures ResetPasswordShape(password)
    ensures password[0] == upper && password[1] == lower && password[6..] == pair
    ensures DigitsValue(password[2..6]) == number
  {
    var slots := [[upper], [lower], DecimalString(number), pair];
    password := slots[0] + slots[1] + slots[2] + slots[3];
    FourDigits(number);
    DecimalRoundTrip(number);
    assert password[2..6] == DecimalString(number);
  }

  // ---------------------------------------------------------------------
  // Template variables: a PHP array, i.e. an insertion-ordered dictionary

  type Vars = seq<(string, string)>

  function Keys(vars: Vars): (keys: seq<string>)
    ensures |keys| == |vars|
  {
    if vars == [] then [] else [vars[0].0] + Keys(vars[1..])
  }

  /** The value of `key`, if present. */
  function Get(vars: Vars, key: string): (v: Option<string>)
    ensures v.Some? <==> key in Keys(vars)
  {
    if vars == [] then None
    else if vars[0].0 == key then Some(vars[0].1)
    else Get(vars[1..], key)
  }

  /** `$vars[$key] = $value`: an existing key keeps its place, a new key
    * goes to the end. */
  function Put(vars: Vars, key: string, value: string): (r: Vars)
    ensures Get(r, key) == Some(value)
    ensures forall k :: k != key ==> Get(r, k) == Get(vars, k)
    ensures key in Keys(vars) ==> Keys(r) == Keys(vars)
    ensures key !in Keys(vars) ==> Keys(r) == Keys(vars) + [key]
  {
    if vars == [] then [(key, value)]
    else if vars[0].0 == key then
      assert ([(key, value)] + vars[1..])[1..] == vars[1..];
      [(key, value)] + vars[1..]
    else
      var rest := Put(vars[1..], key, value);
      assert ([vars[0]] + rest)[1..] == rest;
      [vars[0]] + rest
  }

  /** `array_fill_keys($names, '')`: every declared name, once, in
    * first-declaration order, mapped to "". */
  function FillKeys(names: seq<string>): (vars: Vars)
    ensures forall n :: n in names ==> Get(vars, n) == Some("")
    ensures forall k :: k !in names ==> Get(vars, k).None?
    ensures NoDuplicates(Keys(vars))
    decreases |names|
  {
    if names == [] then []
    else
      var vars := Put(FillKeys(names[..|names| - 1]), names[|names| - 1], "");
      assert names == names[..|names| - 1] + [names[|names| - 1]];
      vars
  }

  datatype Recipient = Recipient(firstName: string, title: string, lastName: string, username: string)

  /** The placeholders the template does not declare; they join the table
    * after the declared names, in assignment order. */
  function AddedKeys(names: seq<string>): seq<string> {
    AddedIfUndeclared(names, "$firstname$") + AddedIfUndeclared(names, "$prefix$")
      + AddedIfUndeclared(names, "$lastname$") + AddedIfUndeclared(names, "$username$")
      + AddedIfUndeclared(names, "$new_password$")
  }

  function AddedIfUndeclared(names: seq<string>, k: string): seq<string> {
    if k in names then [] else [k]
  }

  /** What the table holds: the five placeholders carry the user's values
    * and the password, every other declared name is "", nothing else is
    * present, no key repeats, and the keys run in `array_fill_keys` order
    * followed by the undeclared placeholders. Since `str_replace` works
    * through the keys in this order, the order decides the result when
    * one value contains a later key. */
  ghost predicate ResetTable(vars: Vars, names: seq<string>, user: Recipient, password: string) {
    && Get(vars, "$firstname$") == Some(user.firstName)
    && Get(vars, "$prefix$") == Some(user.title)
    && Get(vars, "$lastname$") == Some(user.lastName)
    && Get(vars, "$username$") == Some(user.username)
    && Get(vars, "$new_password$") == Some(password)
    && (forall n :: n in names && n !in KnownPlaceholders() ==> Get(vars, n) == Some(""))
    && (forall k :: k !in names && k !in KnownPlaceholders() ==> Get(vars, k).None?)
    && NoDuplicates(Keys(vars))
    && Keys(vars) == Keys(FillKeys(names)) + AddedKeys(names)
  }

  /** The variable table: the template's declared names default to "",
    * then the five known placeholders are filled. */
  method TemplateVariables(names: seq<string>, user: Recipient, password: string) returns (vars: Vars)
    ensures ResetTable(vars, names, user, password)
  {
    var declared := FillKeys(names);
    var first := PutFresh(declared, "$firstname$", user.firstName);
    var prefix := PutFresh(first, "$prefix$", user.title);
    var last := PutFresh(prefix, "$lastname$", user.lastName);
    var username := PutFresh(last, "$username$", user.username);
    vars := PutFresh(username, "$new_password$", password);
    TableValues(names, user, password, declared, first, prefix, last, username, vars);
    TableKeys(names, user, password, declared, first, prefix, last, username, vars);
  }

  /** The five assignments, one table after another. */
  ghost predicate Assigned(names: seq<string>, user: Recipient, password: string,
                           declared: Vars, first: Vars, prefix: Vars, last: Vars, username: Vars, vars: Vars) {
    && declared == FillKeys(names)
    && NoDuplicates(Keys(declared)) && first == PutFresh(declared, "$firstname$", user.firstName)
    && NoDuplicates(Keys(first)) && prefix == PutFresh(first, "$prefix$", user.title)
    && NoDuplicates(Keys(prefix)) && last == PutFresh(prefix, "$lastname$", user.lastName)
    && NoDuplicates(Keys(last)) && username == PutFresh(last, "$username$", user.username)
    && NoDuplicates(Keys(username)) && vars == PutFresh(username, "$new_password$", password)
  }

  lemma TableValues(names: seq<string>, user: Recipient, password: string,
                    declared: Vars, first: Vars, prefix: Vars, last: Vars, username: Vars, vars: Vars)
    requires Assigned(names, user, password, declared, first, prefix, last, username, vars)
    ensures Get(vars, "$firstname$") == Some(user.firstName)
    ensures Get(vars, "$prefix$") == Some(user.title)
    ensures Get(vars, "$lastname$") == Some(user.lastName)
    ensures Get(vars, "$username$") == Some(user.username)
    ensures Get(vars, "$new_password$") == Some(password)
    ensures forall n :: n in names && n !in KnownPlaceholders() ==> Get(vars, n) == Some("")
    ensures forall k :: k !in names && k !in KnownPlaceholders() ==> Get(vars, k).None?
    ensures NoDuplicates(Keys(vars))
  {
    PlaceholdersDistinct();
    assert Get(vars, "$firstname$") == Get(username, "$firstname$") == Get(last, "$firstname$")
        == Get(prefix, "$firstname$") == Get(first, "$firstname$");
    assert Get(vars, "$prefix$") == Get(username, "$prefix$") == Get(last, "$prefix$") == Get(prefix, "$prefix$");
    assert Get(vars, "$lastname$") == Get(username, "$lastname$") == Get(last, "$lastname$");
    forall k | k !in KnownPlaceholders()
      ensures Get(vars, k) == Get(declared, k)
    {
      assert Get(vars, k) == Get(username, k) == Get(last, k) == Get(prefix, k) == Get(first, k);
    }
  }

  /** Each placeholder is already a key exactly when the template declares
    * it, so it joins the keys at the end exactly when it is undeclared. */
  lemma TableKeys(names: seq<string>, user: Recipient, password: string,
                  declared: Vars, first: Vars, prefix: Vars, last: Vars, username: Vars, vars: Vars)
    requires Assigned(names, user, password, declared, first, prefix, last, username, vars)
    ensures Keys(vars) == Keys(FillKeys(names)) + AddedKeys(names)
  {
    PlaceholdersDistinct();
    KeyStep(declared, "$firstname$", user.firstName, names);
    KeyStep(first, "$prefix$", user.title, names) by {
      assert Get(first, "$prefix$") == Get(declared, "$prefix$");
    }
    KeyStep(prefix, "$lastname$", user.lastName, names) by {
      assert Get(prefix, "$lastname$") == Get(first, "$lastname$") == Get(declared, "$lastname$");
    }
    KeyStep(last, "$username$", user.username, names) by {
      assert Get(last, "$username$") == Get(prefix, "$username$") == Get(first, "$username$")
          == Get(declared, "$username$");
    }
    KeyStep(username, "$new_password$", password, names) by {
      assert Get(username, "$new_password$") == Get(last, "$new_password$") == Get(prefix, "$new_password$")
          == Get(first, "$new_password$") == Get(declared, "$new_password$");
    }
    AppendAssociates(Keys(declared), AddedIfUndeclared(names, "$firstname$"), AddedIfUndeclared(names, "$prefix$"),
      AddedIfUndeclared(names, "$lastname$"), AddedIfUndeclared(names, "$username$"),
      AddedIfUndeclared(names, "$new_password$"));
  }

  lemma AppendAssociates(k: seq<string>, a: seq<string>, b: seq<string>, c: seq<string>, d: seq<string>, e: seq<string>)
    ensures k + a + b + c + d + e == k + (a + b + c + d + e)
  {
  }

  lemma KeyStep(vars: Vars, key: string, value: string, names: seq<string>)
    requires NoDuplicates(Keys(vars))
    requires key in Keys(vars) <==> key in names
    ensures Keys(PutFresh(vars, key, value)) == Keys(vars) + AddedIfUndeclared(names, key)
  {
  }

  /** The five placeholders differ (already in their second character). */
  lemma PlaceholdersDistinct()
    ensures "$firstname$" != "$prefix$" && "$firstname$" != "$lastname$" && "$firstname$" != "$username$"
    ensures "$firstname$" != "$new_password$" && "$prefix$" != "$lastname$" && "$prefix$" != "$username$"
    ensures "$prefix$" != "$new_password$" && "$lastname$" != "$username$" && "$lastname$" != "$new_password$"
    ensures "$username$" != "$new_password$"
  {
    assert "$firstname$"[1] == 'f' && "$prefix$"[1] == 'p' && "$lastname$"[1] == 'l';
    assert "$username$"[1] == 'u' && "$new_password$"[1] == 'n';
  }

  function KnownPlaceholders(): set<string> {
    {"$firstname$", "$prefix$", "$lastname$", "$username$", "$new_password$"}
  }

  /** `Put`, keeping keys distinct. */
  function PutFresh(vars: Vars, key: string, value: string): (r: Vars)
    requires NoDuplicates(Keys(vars))
    ensures NoDuplicates(Keys(r))
    ensures Get(r, key) == Some(value)
    ensures forall k :: k != key ==> Get(r, k) == Get(vars, k)
    ensures Keys(r) == Keys(vars) + (if key in Keys(vars) then [] else [key])
  {
    Put(vars, key, value)
  }

  // ---------------------------------------------------------------------
  // str_replace

  predicate OccursAt(s: string, i: nat, key: string) {
    i + |key| <= |s| && s[i..i + |key|] == key
  }

  /** Every non-overlapping occurrence of `key`, scanning left to right, is
    * replaced by `value`. An empty key replaces nothing. */
  function ReplaceAll(s: string, key: string, value: string): string
    decreases |s|
  {
    if key == [] || s == [] then s
    else if OccursAt(s, 0, key) then value + ReplaceAll(s[|key|..], key, value)
    else [s[0]] + ReplaceAll(s[1..], key, value)
  }

  /** `str_replace(array_keys($vars), array_values($vars), $s)`: one pass
    * per variable, in table order. */
  function Substitute(vars: Vars, s: string): string
    decreases |vars|
  {
    if vars == [] then s else Substitute(vars[1..], ReplaceAll(s, vars[0].0, vars[0].1))
  }

  /** Text in which the key does not occur is left as it is. */
  lemma {:induction false} ReplaceAllWithoutOccurrence(s: string, key: string, value: string)
    requires forall i :: 0 <= i < |s| ==> !OccursAt(s, i, key)
    ensures ReplaceAll(s, key, value) == s
  {
    if key != [] && s != [] {
      assert !OccursAt(s, 0, key);
      forall i | 0 <= i < |s[1..]|
        ensures !OccursAt(s[1..], i, key)
      {
        assert !OccursAt(s, i + 1, key);
        if i + |key| <= |s[1..]| {
          assert s[1..][i..i + |key|] == s[i + 1..i + 1 + |key|];
        }
      }
      ReplaceAllWithoutOccurrence(s[1..], key, value);
    }
  }

  /** A placeholder at the start of the text is replaced, and the rest is
    * processed on its own. */
  lemma ReplaceAllLeadingKey(key: string, rest: string, value: string)
    requires key != []
    ensures ReplaceAll(key + rest, key, value) == value + ReplaceAll(rest, key, value)
  {
    assert (key + rest)[|key|..] == rest;
    assert (key + rest)[0..|key|] == key;
  }

  /** Prefix text that holds no occurrence of the key, even one running into
    * what follows, is copied unchanged. */
  lemma {:induction false} ReplaceAllCopiesPrefix(a: string, b: string, key: string, value: string)
    requires key != []
    requires forall i :: 0 <= i < |a| ==> !OccursAt(a + b, i, key)
    ensures ReplaceAll(a + b, key, value) == a + ReplaceAll(b, key, value)
  {
    if a != [] {
      assert !OccursAt(a + b, 0, key);
      assert (a + b)[1..] == a[1..] + b;
      forall i | 0 <= i < |a[1..]|
        ensures !OccursAt(a[1..] + b, i, key)
      {
        assert !OccursAt(a + b, i + 1, key);
        if i + |key| <= |a[1..] + b| {
          assert (a[1..] + b)[i..i + |key|] == (a + b)[i + 1..i + 1 + |key|];
        }
      }
      ReplaceAllCopiesPrefix(a[1..], b, key, value);
    } else {
      assert a + b == b;
    }
  }

  /** The body and subject of the reset message. */
  method RenderResetMail(names: seq<string>, user: Recipient, password: string, body: string, subject: string)
    returns (mailBody: string, mailSubject: string, vars: Vars)
    ensures ResetTable(vars, names, user, password)
    ensures mailBody == Substitute(vars, body) && mailSubject == Substitute(vars, subject)
  {
    vars := TemplateVariables(names, user, password);
    mailBody := Substitute(vars, body);
    mailSubject := Substitute(vars, subject);
  }

  // ---------------------------------------------------------------------
  // The reset itself

  /** The password column of the users table, keyed by user id. */
  class Accounts {
    var passwords: map<int, string>

    constructor (passwords: map<int, string>)
      ensures this.passwords == passwords
    {
      this.passwords := passwords;
    }

    /** `reset` from the found user on: a fresh password is drawn, its hash
      * (`bcrypt`, a parameter) replaces the user's stored password and no
      * other, and the message built from the template carries the password
      * itself. */
    method Reset(userId: int, upper: char, lower: char, number: nat, pair: string, bcrypt: string -> string,
                 names: seq<string>, user: Recipient, body: string, subject: string)
      returns (password: string, mailBody: string, mailSubject: string, vars: Vars)
      requires userId in passwords
      requires IsUpper(upper) && IsLower(lower) && 1000 <= number <= 9999
      requires |pair| == 2 && IsLower(pair[0]) && IsLower(pair[1])
      modifies this
      ensures ResetPasswordShape(password)
      ensures passwords == old(passwords)[userId := bcrypt(password)]
      ensures ResetTable(vars, names, user, password) && Get(vars, "$new_password$") == Some(password)
      ensures mailBody == Substitute(vars, body) && mailSubject == Substitute(vars, subject)
    {
      password := NewPassword(upper, lower, number, pair);
      passwords := passwords[userId := bcrypt(password)];
      mailBody, mailSubject, vars := RenderResetMail(names, user, password, body, subject);
    }
  }
}
