/**
 * The request-statistics middleware: every request bumps a visitor counter
 * kept per (route, HTTP method, operating system, OS version), creating the
 * counter row on first sight together with the app version read from the
 * User-Agent header.
 *
 * The User-Agent parsing library is replaced by its two answers (platform
 * and version, `None` standing for its `false`); the header itself is a
 * string ("" when absent). The statistics table is the sequence of its rows.
 */
module RequestStatistics {
  import opened Common

  datatype StatKey = StatKey(route: string, httpMethod: string, os: string, osVersion: string)

  datatype Statistic = Statistic(key: StatKey, appVersion: string, visitorCounter: int)

  /** `$x ? $x : ""`: false, "" and "0" all become "". */
  function OrEmpty(v: Option<string>): (r: string)
    ensures (v.None? || IsFalsy(v.value)) <==> r == ""
    ensures r != "" ==> r == v.value && r != "0"
  {
    if v.None? || IsFalsy(v.value) then "" else v.value
  }

  // ---------------------------------------------------------------------------
  // App version

  /** The characters of `[0-9a-zA-Z\.]`. */
  predicate IsVersionChar(c: char) {
    IsDigit(c) || IsAsciiLetter(c) || c == '.'
  }

  /** PCRE's `\s`: space, tab, line feed, vertical tab, form feed, carriage
    * return. */
  predicate IsRegexSpace(c: char) {
    c as int in {9, 10, 11, 12, 13, 32}
  }

  /** The end of the run of version characters that starts at `i`. */
  function RunEnd(s: string, i: nat): (j: nat)
    requires i <= |s|
    ensures i <= j <= |s|
    ensures forall k :: i <= k < j ==> IsVersionChar(s[k])
    ensures j == |s| || !IsVersionChar(s[j])
    decreases |s| - i
  {
    if i < |s| && IsVersionChar(s[i]) then RunEnd(s, i + 1) else i
  }

  /** `project/` matches at `i` ignoring case, followed by a non-empty run
    * of version characters and a whitespace character. Because `\s` is not
    * a version character, the greedy run can only succeed at its full
    * length, so the run is the one `RunEnd` finds. */
  predicate MatchesAt(s: string, i: nat) {
    i + 8 <= |s| && ToLower(s[i..i + 8]) == "project/"
    && RunEnd(s, i + 8) > i + 8 && RunEnd(s, i + 8) < |s| && IsRegexSpace(s[RunEnd(s, i + 8)])
  }

  /** `preg_match("/project\/([0-9a-zA-Z\.]+)\s/i", ...)`: the capture of the
    * leftmost match at or after `i`, or "" when there is none. */
  function VersionFrom(s: string, i: nat): (v: string)
    requires i <= |s|
    ensures v != "" <==> exists k :: i <= k < |s| && MatchesAt(s, k)
    ensures v != "" ==> exists k :: i <= k < |s| && MatchesAt(s, k)
                         && (forall m :: i <= m < k ==> !MatchesAt(s, m))
                         && v == s[k + 8..RunEnd(s, k + 8)]
    ensures forall c :: c in v ==> IsVersionChar(c)
    decreases |s| - i
  {
    if i == |s| then ""
    else if MatchesAt(s, i) then s[i + 8..RunEnd(s, i + 8)]
    else VersionFrom(s, i + 1)
  }

  /** The app version stored with a new row. */
  function AppVersion(userAgent: string): string {
    VersionFrom(userAgent, 0)
  }

  /** A header that starts with `project/` in any letter case, then a
    * version and a whitespace character, yields that version. */
  lemma LeadingVersion(prefix: string, version: string, rest: string)
    requires |prefix| == 8 && ToLower(prefix) == "project/"
    requires |version| > 0 && forall c :: c in version ==> IsVersionChar(c)
    requires |rest| > 0 && IsRegexSpace(rest[0])
    ensures AppVersion(prefix + version + rest) == version
  {
    var s := prefix + version + rest;
    assert s[..8] == prefix;
    assert s[0..8] == prefix;
    RunEndOf(s, 8, |version|);
    assert s[8..8 + |version|] == version;
    assert MatchesAt(s, 0);
  }

  /** The run of version characters from `i`, when the next `n` are such
    * characters and the one after them is not. */
  lemma {:induction false} RunEndOf(s: string, i: nat, n: nat)
    requires i + n < |s|
    requires forall k :: i <= k < i + n ==> IsVersionChar(s[k])
    requires !IsVersionChar(s[i + n])
    ensures RunEnd(s, i) == i + n
    decreases n
  {
    if n > 0 {
      RunEndOf(s, i + 1, n - 1);
    }
  }

  // ---------------------------------------------------------------------------
  // Counter rows

  /** `->where(...)->limit(1)->first()`: the first row with the key. */
  function FindStatistic(rows: seq<Statistic>, key: StatKey): (r: Option<nat>)
    ensures r.Some? ==> r.value < |rows| && rows[r.value].key == key
                        && forall k :: 0 <= k < r.value ==> rows[k].key != key
    ensures r.None? ==> forall k :: 0 <= k < |rows| ==> rows[k].key != key
  {
    if rows == [] then None
    else if rows[0].key == key then Some(0)
    else
      var rest := FindStatistic(rows[1..], key);
      if rest.Some? then Some(rest.value + 1) else None
  }

  /** The table after one request: the matching row counts one more visit,
    * or a new row with counter 1 is appended. */
  function Recorded(rows: seq<Statistic>, key: StatKey, userAgent: string): seq<Statistic> {
    match FindStatistic(rows, key)
    case Some(i) => Bump(rows, i)
    case None => rows + [Statistic(key, AppVersion(userAgent), 1)]
  }

  /** The row at `i` counts one more visit. */
  function Bump(rows: seq<Statistic>, i: nat): (r: seq<Statistic>)
    requires i < |rows|
    ensures |r| == |rows| && r[i].key == rows[i].key
    ensures r[i].visitorCounter == rows[i].visitorCounter + 1 && r[i].appVersion == rows[i].appVersion
    ensures forall k :: 0 <= k < |rows| && k != i ==> r[k] == rows[k]
  {
    rows[i := rows[i].(visitorCounter := rows[i].visitorCounter + 1)]
  }

  /** No two rows share a key. */
  predicate UniqueKeys(rows: seq<Statistic>) {
    forall i, j :: 0 <= i < j < |rows| ==> rows[i].key != rows[j].key
  }

  /** The visits counted for a key: those of its first row, or 0. */
  function Visits(rows: seq<Statistic>, key: StatKey): int {
    match FindStatistic(rows, key)
    case Some(i) => rows[i].visitorCounter
    case None => 0
  }

  /** One request adds at most one row, keeps keys distinct, counts one
    * more visit for its own key and leaves the other keys' rows alone. */
  lemma RecordedMeaning(rows: seq<Statistic>, key: StatKey, userAgent: string, other: StatKey)
    requires other != key
    ensures var r := Recorded(rows, key, userAgent);
      && |rows| <= |r| <= |rows| + 1
      && (UniqueKeys(rows) ==> UniqueKeys(r))
      && (Visits(r, key) == if FindStatistic(rows, key).Some? then Visits(rows, key) + 1 else 1)
      && Visits(r, other) == Visits(rows, other)
      && (forall k :: 0 <= k < |rows| && rows[k].key != key ==> r[k] == rows[k])
  {
    if FindStatistic(rows, key).Some? {
      RecordedExisting(rows, key, userAgent, other);
    } else {
      RecordedNew(rows, key, userAgent, other);
    }
  }

  /** `RecordedMeaning` when the key already has a row. */
  lemma RecordedExisting(rows: seq<Statistic>, key: StatKey, userAgent: string, other: StatKey)
    requires other != key && FindStatistic(rows, key).Some?
    ensures var r := Recorded(rows, key, userAgent);
      && |r| == |rows|
      && (UniqueKeys(rows) ==> UniqueKeys(r))
      && Visits(r, key) == Visits(rows, key) + 1
      && Visits(r, other) == Visits(rows, other)
      && (forall k :: 0 <= k < |rows| && rows[k].key != key ==> r[k] == rows[k])
  {
    var i := FindStatistic(rows, key).value;
    BumpSameFind(rows, i, key);
    BumpUnique(rows, i);
    BumpSameFind(rows, i, other);
  }

  /** Counting a visit in a row keeps every search. */
  lemma BumpSameFind(rows: seq<Statistic>, i: nat, key: StatKey)
    requires i < |rows|
    ensures FindStatistic(Bump(rows, i), key) == FindStatistic(rows, key)
  {
    var r := Bump(rows, i);
    assert forall k :: 0 <= k < |r| ==> r[k].key == rows[k].key;
    SameKeysSameFind(rows, r, key);
  }

  /** Counting a visit in a row keeps the keys distinct. */
  lemma BumpUnique(rows: seq<Statistic>, i: nat)
    requires i < |rows|
    ensures UniqueKeys(rows) ==> UniqueKeys(Bump(rows, i))
  {
    var r := Bump(rows, i);
    assert forall k :: 0 <= k < |r| ==> r[k].key == rows[k].key;
  }

  /** `RecordedMeaning` when the key is new. */
  lemma RecordedNew(rows: seq<Statistic>, key: StatKey, userAgent: string, other: StatKey)
    requires other != key && FindStatistic(rows, key).None?
    ensures var r := Recorded(rows, key, userAgent);
      && |r| == |rows| + 1
      && (UniqueKeys(rows) ==> UniqueKeys(r))
      && Visits(r, key) == 1
      && Visits(r, other) == Visits(rows, other)
      && (forall k :: 0 <= k < |rows| ==> r[k] == rows[k])
  {
    var added := Statistic(key, AppVersion(userAgent), 1);
    var r := Recorded(rows, key, userAgent);
    assert r == rows + [added];
    FindAppended(rows, added, other);
    FindStatisticLast(rows, added, key);
  }

  /** Rows with the same keys in the same places are searched alike. */
  lemma SameKeysSameFind(a: seq<Statistic>, b: seq<Statistic>, key: StatKey)
    requires |a| == |b| && forall k :: 0 <= k < |a| ==> a[k].key == b[k].key
    ensures FindStatistic(a, key) == FindStatistic(b, key)
  {
    var x, y := FindStatistic(a, key), FindStatistic(b, key);
    if x.Some? && y.Some? {
      assert !(x.value < y.value) && !(y.value < x.value);
    }
  }

  /** Appending a row of another key changes nothing that is searched
    * for. */
  lemma FindAppended(rows: seq<Statistic>, extra: Statistic, key: StatKey)
    requires extra.key != key
    ensures FindStatistic(rows + [extra], key) == FindStatistic(rows, key)
  {
    var r := rows + [extra];
    var x := FindStatistic(rows, key);
    if x.Some? {
      assert forall k :: 0 <= k <= x.value ==> r[k] == rows[k];
      FoundAt(r, key, x.value);
    } else {
      assert forall k :: 0 <= k < |rows| ==> r[k].key == rows[k].key;
      NotFound(r, key);
    }
  }

  /** The first row with the key is the one found. */
  lemma FoundAt(rows: seq<Statistic>, key: StatKey, i: nat)
    requires i < |rows| && rows[i].key == key && forall k :: 0 <= k < i ==> rows[k].key != key
    ensures FindStatistic(rows, key) == Some(i)
  {
  }

  /** A key no row carries is not found. */
  lemma NotFound(rows: seq<Statistic>, key: StatKey)
    requires forall k :: 0 <= k < |rows| ==> rows[k].key != key
    ensures FindStatistic(rows, key).None?
  {
  }

  /** A key missing from the table is found in the row appended for it. */
  lemma FindStatisticLast(rows: seq<Statistic>, extra: Statistic, key: StatKey)
    requires FindStatistic(rows, key).None? && extra.key == key
    ensures FindStatistic(rows + [extra], key) == Some(|rows|)
  {
    var r := rows + [extra];
    forall k | 0 <= k < |rows| ensures r[k].key != key {
      assert r[k] == rows[k];
    }
    FoundAt(r, key, |rows|);
  }

  class StatisticsTable {
    var rows: seq<Statistic>

    constructor (initial: seq<Statistic>)
      ensures rows == initial
    {
      rows := initial;
    }

    /** `handle`, up to the call of the next handler (which always
      * follows and is not modelled). */
    method Handle(route: string, httpMethod: string, platform: Option<string>, version: Option<string>,
                  userAgent: string)
      modifies this
      ensures rows == Recorded(old(rows), StatKey(route, httpMethod, OrEmpty(platform), OrEmpty(version)), userAgent)
    {
      var os := if platform.Some? && !IsFalsy(platform.value) then platform.value else "";
      var osVersion := if version.Some? && !IsFalsy(version.value) then version.value else "";
      var key := StatKey(route, httpMethod, os, osVersion);
      var found := FindStatistic(rows, key);
      if found.Some? {
        var rs := rows[found.value];
        rs := rs.(visitorCounter := rs.visitorCounter + 1);
        rows := rows[found.value := rs];
      } else {
        var appVersion := AppVersion(userAgent);
        var rs := Statistic(key, appVersion, 1);
        rows := rows + [rs];
      }
    }
  }
}
