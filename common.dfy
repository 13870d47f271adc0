/**
 * Values and string helpers shared by the models: an Option type, generic
 * sequence filters, and the handful of PHP string functions the application
 * relies on (explode, implode, trim, intval, and PHP's notion of an "empty"
 * string).
 */
module Common {

  datatype Option<+T> = None | Some(value: T)

  datatype Result<+T, +E> = Ok(value: T) | Err(error: E)

  /** PHP's `empty()` / falsiness for a string: "" and "0" are falsy. */
  predicate IsFalsy(s: string) {
    s == "" || s == "0"
  }

  /** Falsiness of a value that may also be null. */
  predicate IsEmptyValue(v: Option<string>) {
    v.None? || IsFalsy(v.value)
  }

  /** The PHP values a database column can hold. */
  datatype Value = Null | Int(i: int) | Str(s: string) | Bool(b: bool)

  /** PHP `empty()` of a value. */
  predicate IsEmpty(v: Value) {
    match v
    case Null => true
    case Int(i) => i == 0
    case Str(s) => IsFalsy(s)
    case Bool(b) => !b
  }

  /** PHP string conversion of a value (null and false become ""). */
  function AsString(v: Value): string {
    match v
    case Null => ""
    case Int(i) => if i >= 0 then DecimalString(i) else "-" + DecimalString(-i)
    case Str(s) => s
    case Bool(b) => if b then "1" else ""
  }

  /** A request's string inputs by name. */
  type Request = map<string, string>

  /** Laravel's `$request->has(key)`: present and not blank after trimming.
    * (`exists` only asks for presence, which `has` already implies.) */
  predicate Has(request: Request, key: string) {
    key in request && Trim(request[key]) != ""
  }

  predicate IsDigit(c: char) {
    '0' <= c <= '9'
  }

  predicate IsAsciiLetter(c: char) {
    'a' <= c <= 'z' || 'A' <= c <= 'Z'
  }

  predicate AllDigits(s: string) {
    forall i :: 0 <= i < |s| ==> IsDigit(s[i])
  }

  /** The characters PHP's `trim` strips by default. */
  predicate IsTrimChar(c: char) {
    c == ' ' || c == '\t' || c == '\n' || c == '\r' || c == '\0' || c == 11 as char
  }

  // ---------------------------------------------------------------------------
  // Sequences

  /** Keeps, in order, the elements that satisfy `keep`. */
  function Filter<T>(s: seq<T>, keep: T -> bool): (r: seq<T>)
    ensures |r| <= |s|
    ensures forall i :: 0 <= i < |r| ==> r[i] in s && keep(r[i])
    ensures forall i :: 0 <= i < |s| && keep(s[i]) ==> s[i] in r
  {
    if s == [] then []
    else if keep(s[0]) then [s[0]] + Filter(s[1..], keep)
    else Filter(s[1..], keep)
  }

  lemma {:induction false} FilterAppend<T>(a: seq<T>, b: seq<T>, keep: T -> bool)
    ensures Filter(a + b, keep) == Filter(a, keep) + Filter(b, keep)
  {
    if a == [] {
      assert a + b == b;
    } else {
      assert (a + b)[1..] == a[1..] + b;
      FilterAppend(a[1..], b, keep);
    }
  }

  /** Filtering twice is filtering once by the conjunction. */
  lemma {:induction false} FilterFilter<T>(s: seq<T>, p: T -> bool, q: T -> bool, both: T -> bool)
    requires forall x :: both(x) == (p(x) && q(x))
    ensures Filter(Filter(s, p), q) == Filter(s, both)
  {
    if s != [] {
      FilterFilter(s[1..], p, q, both);
    }
  }

  /** Two filters that agree on every element of `s` give the same result. */
  lemma {:induction false} FilterCongruent<T>(s: seq<T>, p: T -> bool, q: T -> bool)
    requires forall x :: x in s ==> p(x) == q(x)
    ensures Filter(s, p) == Filter(s, q)
  {
    if s != [] {
      FilterCongruent(s[1..], p, q);
    }
  }

  /** A filter that keeps every element of `s` is the identity. */
  lemma {:induction false} FilterAll<T>(s: seq<T>, keep: T -> bool)
    requires forall x :: x in s ==> keep(x)
    ensures Filter(s, keep) == s
  {
    if s != [] {
      FilterAll(s[1..], keep);
    }
  }

  /** Nothing is kept when no element qualifies. */
  lemma FilterNone<T>(s: seq<T>, keep: T -> bool)
    requires forall x :: x in s ==> !keep(x)
    ensures Filter(s, keep) == []
  {
  }

  /** Applies `f` to every element. */
  function MapSeq<T, U>(s: seq<T>, f: T -> U): (r: seq<U>)
    ensures |r| == |s|
    ensures forall i :: 0 <= i < |s| ==> r[i] == f(s[i])
  {
    if s == [] then [] else [f(s[0])] + MapSeq(s[1..], f)
  }

  /** Filtering commutes with a map that does not change the filtered property. */
  lemma {:induction false} FilterMapSeq<T>(s: seq<T>, f: T -> T, keep: T -> bool)
    requires forall x :: keep(f(x)) == keep(x)
    ensures Filter(MapSeq(s, f), keep) == MapSeq(Filter(s, keep), f)
  {
    if s != [] {
      assert MapSeq(s, f) == [f(s[0])] + MapSeq(s[1..], f);
      FilterMapSeq(s[1..], f, keep);
    }
  }

  /** A map that fixes every element of `s` leaves `s` unchanged. */
  lemma {:induction false} MapSeqIdentity<T>(s: seq<T>, f: T -> T)
    requires forall i :: 0 <= i < |s| ==> f(s[i]) == s[i]
    ensures MapSeq(s, f) == s
  {
    if s != [] {
      MapSeqIdentity(s[1..], f);
    }
  }

  /** `ok` holds of every pair of elements, taken in sequence order. */
  predicate Pairwise<T>(s: seq<T>, ok: (T, T) -> bool) {
    forall i, j :: 0 <= i < j < |s| ==> ok(s[i], s[j])
  }

  /** Dropping elements keeps a pairwise property. */
  lemma {:induction false} FilterPairwise<T>(s: seq<T>, keep: T -> bool, ok: (T, T) -> bool)
    requires Pairwise(s, ok)
    ensures Pairwise(Filter(s, keep), ok)
  {
    if s != [] {
      var t := Filter(s[1..], keep);
      FilterPairwise(s[1..], keep, ok);
      if keep(s[0]) {
        var r := Filter(s, keep);
        assert r == [s[0]] + t;
        forall i, j | 0 <= i < j < |r|
          ensures ok(r[i], r[j])
        {
          assert r[j] == t[j - 1];
          if i == 0 {
            assert t[j - 1] in s[1..];
            var k :| 0 <= k < |s[1..]| && s[1..][k] == t[j - 1];
            assert s[k + 1] == r[j];
          } else {
            assert r[i] == t[i - 1];
          }
        }
      }
    }
  }

  predicate NoDuplicates<T(==)>(s: seq<T>) {
    forall i, j :: 0 <= i < j < |s| ==> s[i] != s[j]
  }

  /** Index of the first occurrence of `x` in `s`. */
  function IndexOf<T(==)>(s: seq<T>, x: T): (i: nat)
    requires x in s
    ensures i < |s| && s[i] == x && x !in s[..i]
  {
    if s[0] == x then 0 else 1 + IndexOf(s[1..], x)
  }

  // ---------------------------------------------------------------------------
  // PHP explode / implode

  /** PHP `explode(sep, s)`: never empty; "" gives [""]. */
  function Explode(s: string, sep: char): (parts: seq<string>)
    ensures |parts| >= 1
    ensures forall i :: 0 <= i < |parts| ==> sep !in parts[i]
  {
    if s == [] then [""]
    else
      var rest := Explode(s[1..], sep);
      if s[0] == sep then [""] + rest
      else [[s[0]] + rest[0]] + rest[1..]
  }

  /** PHP `implode(sep, parts)`. */
  function Implode(parts: seq<string>, sep: string): string {
    if parts == [] then ""
    else if |parts| == 1 then parts[0]
    else parts[0] + sep + Implode(parts[1..], sep)
  }

  /** implode is the inverse of explode. */
  lemma {:induction false} ImplodeExplode(s: string, sep: char)
    ensures Implode(Explode(s, sep), [sep]) == s
  {
    if s != [] {
      var rest := Explode(s[1..], sep);
      ImplodeExplode(s[1..], sep);
      if s[0] == sep {
        assert Explode(s, sep) == [""] + rest;
        assert ([""] + rest)[1..] == rest;
        assert s == [sep] + s[1..];
      } else {
        var parts := Explode(s, sep);
        assert parts == [[s[0]] + rest[0]] + rest[1..];
        if |rest| == 1 {
          assert s == [s[0]] + rest[0];
        } else {
          assert Implode(rest, [sep]) == rest[0] + [sep] + Implode(rest[1..], [sep]);
          assert parts[1..] == rest[1..];
          assert s == [s[0]] + s[1..];
        }
      }
    }
  }

  /** Text without the separator stays in the first piece. */
  lemma {:induction false} ExplodePrefix(p: string, s: string, sep: char)
    requires sep !in p
    ensures Explode(p + s, sep) == [p + Explode(s, sep)[0]] + Explode(s, sep)[1..]
  {
    var e := Explode(s, sep);
    if p != [] {
      ExplodePrefix(p[1..], s, sep);
      assert (p + s)[1..] == p[1..] + s;
      var r := Explode(p[1..] + s, sep);
      assert r[0] == p[1..] + e[0] && r[1..] == e[1..];
      assert (p + s)[0] == p[0];
      assert [p[0]] + r[0] == p + e[0];
    } else {
      assert p + s == s;
      assert p + e[0] == e[0];
      assert [e[0]] + e[1..] == e;
    }
  }

  /** explode is the inverse of implode on separator-free pieces. */
  lemma {:induction false} ExplodeImplode(parts: seq<string>, sep: char)
    requires |parts| >= 1
    requires forall i :: 0 <= i < |parts| ==> sep !in parts[i]
    ensures Explode(Implode(parts, [sep]), sep) == parts
  {
    if |parts| == 1 {
      ExplodePrefix(parts[0], "", sep);
      assert parts[0] + "" == parts[0];
    } else {
      var rest := Implode(parts[1..], [sep]);
      ExplodeImplode(parts[1..], sep);
      ExplodePrefix(parts[0], [sep] + rest, sep);
      assert parts[0] + [sep] + rest == parts[0] + ([sep] + rest);
      assert ([sep] + rest)[1..] == rest;
      assert Explode([sep] + rest, sep) == [""] + parts[1..];
      assert Implode(parts, [sep]) == parts[0] + [sep] + rest;
      assert parts[0] + "" == parts[0];
      assert [parts[0]] + parts[1..] == parts;
    }
  }

  // ---------------------------------------------------------------------------
  // PHP trim

  function TrimLeft(s: string): (r: string)
    ensures |r| <= |s| && r == s[|s| - |r|..]
    ensures r == [] || !IsTrimChar(r[0])
  {
    if s != [] && IsTrimChar(s[0]) then TrimLeft(s[1..]) else s
  }

  function TrimRight(s: string): (r: string)
    ensures |r| <= |s| && r == s[..|r|]
    ensures r == [] || !IsTrimChar(r[|r| - 1])
  {
    if s != [] && IsTrimChar(s[|s| - 1]) then TrimRight(s[..|s| - 1]) else s
  }

  /** PHP `trim(s)`. */
  function Trim(s: string): (r: string)
    ensures r == [] || (!IsTrimChar(r[0]) && !IsTrimChar(r[|r| - 1]))
  {
    TrimRight(TrimLeft(s))
  }

  lemma TrimLeftOfClean(s: string)
    requires s == [] || !IsTrimChar(s[0])
    ensures TrimLeft(s) == s
  {
  }

  lemma {:induction false} TrimRightKeepsClean(s: string)
    requires s == [] || !IsTrimChar(s[0])
    ensures var r := TrimRight(s); r == [] || !IsTrimChar(r[0])
  {
  }

  /** Trimming twice is trimming once. */
  lemma TrimIdempotent(s: string)
    ensures Trim(Trim(s)) == Trim(s)
  {
    var t := Trim(s);
    TrimLeftOfClean(t);
  }

  /** `array_map('trim', ...)`. */
  function TrimAll(parts: seq<string>): (r: seq<string>)
    ensures |r| == |parts|
    ensures forall i :: 0 <= i < |parts| ==> r[i] == Trim(parts[i])
  {
    MapSeq(parts, Trim)
  }

  // ---------------------------------------------------------------------------
  // PHP intval and decimal rendering

  function DigitValue(c: char): (d: nat)
    requires IsDigit(c)
    ensures d <= 9
  {
    (c as int - '0' as int) as nat
  }

  /** Value of the longest digit prefix of `s` (0 when there is none). */
  function LeadingDigitsValue(s: string, acc: nat): nat
  {
    if s != [] && IsDigit(s[0]) then LeadingDigitsValue(s[1..], acc * 10 + DigitValue(s[0])) else acc
  }

  /** The whitespace PHP skips before a number: space, tab, newline,
    * carriage return, vertical tab and form feed (unlike `trim`, not NUL). */
  predicate IsNumberSpace(c: char) {
    c == ' ' || c == '\t' || c == '\n' || c == '\r' || c == 11 as char || c == 12 as char
  }

  function SkipNumberSpace(s: string): (r: string)
    ensures r == [] || !IsNumberSpace(r[0])
  {
    if s != [] && IsNumberSpace(s[0]) then SkipNumberSpace(s[1..]) else s
  }

  /** PHP `intval` on a string: optional leading whitespace and sign, then
    * the longest run of digits. */
  function IntVal(s: string): int
  {
    var t := SkipNumberSpace(s);
    if t != [] && t[0] == '-' then -(LeadingDigitsValue(t[1..], 0) as int)
    else if t != [] && t[0] == '+' then LeadingDigitsValue(t[1..], 0)
    else LeadingDigitsValue(t, 0)
  }

  /** Reading an appended digit shifts the value read so far by one place. */
  lemma {:induction false} LeadingDigitsSnoc(s: string, c: char, acc: nat)
    requires AllDigits(s) && IsDigit(c)
    ensures LeadingDigitsValue(s + [c], acc) == LeadingDigitsValue(s, acc) * 10 + DigitValue(c)
  {
    if s == [] {
      assert [c][1..] == [];
    } else {
      assert (s + [c])[1..] == s[1..] + [c];
      LeadingDigitsSnoc(s[1..], c, acc * 10 + DigitValue(s[0]));
    }
  }

  /** On a string of digits the left-to-right reading gives its value. */
  lemma {:induction false} LeadingDigitsOfDigits(s: string)
    requires AllDigits(s)
    ensures LeadingDigitsValue(s, 0) == DigitsValue(s)
  {
    if s != [] {
      var init := s[..|s| - 1];
      assert s == init + [s[|s| - 1]];
      LeadingDigitsOfDigits(init);
      LeadingDigitsSnoc(init, s[|s| - 1], 0);
    }
  }

  /** `intval` reads back every number rendered in decimal. */
  lemma IntValOfDecimal(n: nat)
    ensures IntVal(DecimalString(n)) == n
  {
    var s := DecimalString(n);
    assert IsDigit(s[0]);
    LeadingDigitsOfDigits(s);
    DecimalRoundTrip(n);
  }

  /** A leading form feed is skipped and a leading NUL stops the number,
    * whatever `trim` did before. */
  lemma IntValLeadingControl()
    ensures IntVal([12 as char, '5']) == 5
    ensures IntVal(['\0', '5']) == 0
  {
    var s := [12 as char, '5'];
    assert s[1..] == "5";
    assert SkipNumberSpace(s) == "5";
    assert "5"[1..] == [];
    assert LeadingDigitsValue("5", 0) == 5;
  }

  /** Digits of `n` in base 10, most significant first. */
  function DecimalString(n: nat): (s: string)
    ensures |s| >= 1 && AllDigits(s)
  {
    if n < 10 then [('0' as int + n) as char]
    else DecimalString(n / 10) + [('0' as int + n % 10) as char]
  }

  /** Value of a string of digits. */
  function DigitsValue(s: string): nat
    requires AllDigits(s)
  {
    if s == [] then 0 else DigitsValue(s[..|s| - 1]) * 10 + DigitValue(s[|s| - 1])
  }

  /** Rendering a number in decimal and reading it back gives the number. */
  lemma {:induction false} DecimalRoundTrip(n: nat)
    ensures DigitsValue(DecimalString(n)) == n
  {
    var s := DecimalString(n);
    if n >= 10 {
      DecimalRoundTrip(n / 10);
      assert s[..|s| - 1] == DecimalString(n / 10);
    }
  }

  /** A number of 1000..9999 has four digits, the first not zero. */
  lemma {:induction false} FourDigits(n: nat)
    requires 1000 <= n <= 9999
    ensures |DecimalString(n)| == 4 && DecimalString(n)[0] != '0'
  {
    assert DecimalString(n) == DecimalString(n / 10) + [('0' as int + n % 10) as char];
    assert DecimalString(n / 10) == DecimalString(n / 100) + [('0' as int + (n / 10) % 10) as char];
    assert DecimalString(n / 100) == DecimalString(n / 1000) + [('0' as int + (n / 100) % 10) as char];
  }

  // ---------------------------------------------------------------------------
  // ASCII case

  function LowerChar(c: char): (d: char)
    ensures IsAsciiLetter(c) ==> 'a' <= d <= 'z'
    ensures !('A' <= c <= 'Z') ==> d == c
  {
    if 'A' <= c <= 'Z' then (c as int + 32) as char else c
  }

  /** PHP `strtolower` on ASCII text. */
  function ToLower(s: string): (r: string)
    ensures |r| == |s|
    ensures forall i :: 0 <= i < |s| ==> r[i] == LowerChar(s[i])
  {
    MapSeq(s, LowerChar)
  }
}
