/**
 * Keyword search of the v1 patient, user and survey listings: the search
 * text is split into words, and every word must occur in at least one of
 * the searched fields, through `field LIKE '%<escaped word>%'`.
 *
 * LIKE follows MySQL's default: `%` matches any run of characters, `_` any
 * one character, and a backslash makes the next character literal (a
 * backslash at the very end stands for itself). Comparison is exact; the
 * collation's case folding is not modelled.
 */
module LikeSearch {
  import opened Common

  // ---------------------------------------------------------------------
  // LIKE

  datatype Token = AnyRun | AnyChar | Lit(c: char)

  /** How MySQL reads a LIKE pattern with `\` as its escape character. */
  function Tokens(pattern: string): seq<Token>
    decreases |pattern|
  {
    if pattern == [] then []
    else if pattern[0] == '\\' && |pattern| >= 2 then [Lit(pattern[1])] + Tokens(pattern[2..])
    else if pattern[0] == '%' then [AnyRun] + Tokens(pattern[1..])
    else if pattern[0] == '_' then [AnyChar] + Tokens(pattern[1..])
    else [Lit(pattern[0])] + Tokens(pattern[1..])
  }

  predicate Matches(tokens: seq<Token>, text: string)
    decreases |tokens| + |text|
  {
    if tokens == [] then text == []
    else match tokens[0]
      case AnyRun => Matches(tokens[1..], text) || (text != [] && Matches(tokens, text[1..]))
      case AnyChar => text != [] && Matches(tokens[1..], text[1..])
      case Lit(c) => text != [] && text[0] == c && Matches(tokens[1..], text[1..])
  }

  /** `text LIKE pattern`. */
  predicate Like(text: string, pattern: string) {
    Matches(Tokens(pattern), text)
  }

  predicate OccursAt(text: string, i: int, key: string) {
    0 <= i <= |text| - |key| && text[i..i + |key|] == key
  }

  /** `key` occurs in `text` as a contiguous substring. */
  ghost predicate Contains(text: string, key: string) {
    exists i :: OccursAt(text, i, key)
  }

  // ---------------------------------------------------------------------
  // Escaping and patterns

  /** `addcslashes(s, special)` for printable characters: a backslash
    * before each character of `special`. */
  function AddCSlashes(s: string, special: set<char>): (r: string)
    ensures |r| >= |s|
  {
    if s == [] then []
    else (if s[0] in special then ['\\', s[0]] else [s[0]]) + AddCSlashes(s[1..], special)
  }

  /** The characters the listings escape: `addcslashes($keyword, '%_')`. */
  function WrittenSpecials(): set<char> { {'%', '_'} }

  /** The escape character itself must be escaped as well. */
  function LikeSpecials(): set<char> { {'\\', '%', '_'} }

  /** The pattern as the listings build it. */
  function PatternAsWritten(keyword: string): string {
    "%" + AddCSlashes(keyword, WrittenSpecials()) + "%"
  }

  /** The pattern with the backslash escaped too. */
  function Pattern(keyword: string): string {
    "%" + AddCSlashes(keyword, LikeSpecials()) + "%"
  }

  /** `array_map('trim', explode(" ", $search))`. */
  function SearchWords(search: string): seq<string>
  {
    TrimAll(Explode(search, ' '))
  }

  /** The per-word patterns the listing sends, with only `%` and `_`
    * escaped, or None when the search text is falsy ("" or "0") and no
    * search condition is added. */
  function SearchPatterns(search: string): (r: Option<seq<string>>)
    ensures r.None? <==> IsFalsy(search)
    ensures r.Some? ==> |r.value| == |SearchWords(search)|
    ensures r.Some? ==> forall i :: 0 <= i < |r.value| ==> r.value[i] == PatternAsWritten(SearchWords(search)[i])
  {
    if IsFalsy(search) then None else Some(MapSeq(SearchWords(search), PatternAsWritten))
  }

  /** The per-word patterns with the backslash escaped as well. */
  function CorrectedSearchPatterns(search: string): (r: Option<seq<string>>)
    ensures r.None? <==> IsFalsy(search)
    ensures r.Some? ==> |r.value| == |SearchWords(search)|
    ensures r.Some? ==> forall i :: 0 <= i < |r.value| ==> r.value[i] == Pattern(SearchWords(search)[i])
  {
    if IsFalsy(search) then None else Some(MapSeq(SearchWords(search), Pattern))
  }

  /** A row passes the search when each pattern is LIKE some searched
    * field's value (one `orWhere` group per word, the groups and-ed). */
  predicate RowPasses(values: seq<string>, patterns: seq<string>) {
    forall p :: p in patterns ==> exists v :: v in values && Like(v, p)
  }

  // ---------------------------------------------------------------------
  // Matching lemmas

  function Lits(k: string): (ts: seq<Token>)
    ensures |ts| == |k|
    ensures forall i :: 0 <= i < |k| ==> ts[i] == Lit(k[i])
  {
    if k == [] then [] else [Lit(k[0])] + Lits(k[1..])
  }

  lemma EscapedHead(c: char, rest: string)
    ensures Tokens(['\\', c] + rest) == [Lit(c)] + Tokens(rest)
  {
    assert (['\\', c] + rest)[2..] == rest;
  }

  lemma PlainHead(c: char, rest: string)
    requires c !in LikeSpecials()
    ensures Tokens([c] + rest) == [Lit(c)] + Tokens(rest)
  {
    assert ([c] + rest)[1..] == rest;
  }

  /** An escaped keyword reads back as the keyword's characters, each a
    * literal. */
  lemma {:induction false} EscapedTokens(k: string, tail: string)
    ensures Tokens(AddCSlashes(k, LikeSpecials()) + tail) == Lits(k) + Tokens(tail)
  {
    if k == [] {
      assert AddCSlashes(k, LikeSpecials()) + tail == tail;
    } else {
      var c := k[0];
      var rest := AddCSlashes(k[1..], LikeSpecials()) + tail;
      var head: string := if c in LikeSpecials() then ['\\', c] else [c];
      assert AddCSlashes(k, LikeSpecials()) == head + AddCSlashes(k[1..], LikeSpecials());
      assert AddCSlashes(k, LikeSpecials()) + tail == head + rest;
      EscapedTokens(k[1..], tail);
      if c in LikeSpecials() {
        EscapedHead(c, rest);
      } else {
        PlainHead(c, rest);
      }
      assert Lits(k) == [Lit(c)] + Lits(k[1..]);
      assert Lits(k) + Tokens(tail) == [Lit(c)] + (Lits(k[1..]) + Tokens(tail));
    }
  }

  /** `%` alone matches everything. */
  lemma {:induction false} AnyRunMatchesAll(text: string)
    ensures Matches([AnyRun], text)
    decreases |text|
  {
    assert [AnyRun][1..] == [];
    if text != [] {
      AnyRunMatchesAll(text[1..]);
    }
  }

  /** Literal tokens followed by `%` match exactly the texts that start
    * with those characters. */
  lemma {:induction false} LitsThenAnyRun(k: string, text: string)
    ensures Matches(Lits(k) + [AnyRun], text) <==> |k| <= |text| && text[..|k|] == k
    decreases |k|
  {
    if k == [] {
      assert Lits(k) + [AnyRun] == [AnyRun];
      AnyRunMatchesAll(text);
    } else {
      var ts := Lits(k) + [AnyRun];
      assert ts[0] == Lit(k[0]);
      assert ts[1..] == Lits(k[1..]) + [AnyRun];
      if text != [] {
        LitsThenAnyRun(k[1..], text[1..]);
        if |k| <= |text| {
          assert text[..|k|] == [text[0]] + text[1..][..|k| - 1];
          assert k == [k[0]] + k[1..];
        }
      }
    }
  }

  /** A leading `%` lets the rest match any suffix. */
  lemma {:induction false} LeadingAnyRun(rest: seq<Token>, text: string)
    ensures Matches([AnyRun] + rest, text) <==> exists i :: 0 <= i <= |text| && Matches(rest, text[i..])
    decreases |text|
  {
    var ts := [AnyRun] + rest;
    assert ts[1..] == rest;
    assert text[0..] == text;
    if text != [] {
      LeadingAnyRun(rest, text[1..]);
      if exists i :: 0 <= i <= |text| && Matches(rest, text[i..]) {
        var i :| 0 <= i <= |text| && Matches(rest, text[i..]);
        if i > 0 {
          assert text[1..][i - 1..] == text[i..];
        }
      }
      if exists j :: 0 <= j <= |text[1..]| && Matches(rest, text[1..][j..]) {
        var j :| 0 <= j <= |text[1..]| && Matches(rest, text[1..][j..]);
        assert text[1..][j..] == text[j + 1..];
      }
    }
  }

  /** With the backslash escaped, a word's pattern matches a text exactly
    * when the word occurs in it. */
  lemma PatternMatchesIffContains(keyword: string, text: string)
    ensures Like(text, Pattern(keyword)) <==> Contains(text, keyword)
  {
    var escaped := AddCSlashes(keyword, LikeSpecials());
    assert Pattern(keyword) == "%" + (escaped + "%");
    assert ("%" + (escaped + "%"))[1..] == escaped + "%";
    EscapedTokens(keyword, "%");
    assert "%"[1..] == [];
    assert Tokens("%") == [AnyRun];
    var tokens := [AnyRun] + (Lits(keyword) + [AnyRun]);
    assert Tokens(Pattern(keyword)) == tokens;
    LeadingAnyRun(Lits(keyword) + [AnyRun], text);
    if Like(text, Pattern(keyword)) {
      var i :| 0 <= i <= |text| && Matches(Lits(keyword) + [AnyRun], text[i..]);
      LitsThenAnyRun(keyword, text[i..]);
      assert text[i..][..|keyword|] == text[i..i + |keyword|];
      assert OccursAt(text, i, keyword);
    }
    if Contains(text, keyword) {
      var i :| OccursAt(text, i, keyword);
      LitsThenAnyRun(keyword, text[i..]);
      assert text[i..][..|keyword|] == text[i..i + |keyword|];
    }
  }

  /** When no word holds a backslash, a row passes the search as written
    * exactly when every word occurs in one of the searched fields. */
  lemma SearchMeaning(search: string, values: seq<string>)
    requires !IsFalsy(search)
    ensures (forall w :: w in SearchWords(search) ==> '\\' !in w) ==>
      (RowPasses(values, SearchPatterns(search).value) <==>
       forall w :: w in SearchWords(search) ==> exists v :: v in values && Contains(v, w))
  {
    var words := SearchWords(search);
    if forall w :: w in words ==> '\\' !in w {
      var written := SearchPatterns(search).value;
      var corrected := CorrectedSearchPatterns(search).value;
      forall i | 0 <= i < |written|
        ensures written[i] == corrected[i]
      {
        assert words[i] in words;
        WrittenPatternAgreesWithoutBackslash(words[i]);
      }
      assert written == corrected;
      CorrectedSearchMeaning(search, values);
    }
  }

  /** With the corrected patterns a row passes the search exactly when
    * every word occurs in one of the searched fields, whatever the words. */
  lemma CorrectedSearchMeaning(search: string, values: seq<string>)
    requires !IsFalsy(search)
    ensures RowPasses(values, CorrectedSearchPatterns(search).value)
        <==> forall w :: w in SearchWords(search) ==> exists v :: v in values && Contains(v, w)
  {
    var words := SearchWords(search);
    var patterns := CorrectedSearchPatterns(search).value;
    if RowPasses(values, patterns) {
      forall w | w in words
        ensures exists v :: v in values && Contains(v, w)
      {
        WordFound(words, patterns, values, IndexOf(words, w));
      }
    }
    if forall w :: w in words ==> exists v :: v in values && Contains(v, w) {
      forall p | p in patterns
        ensures exists v :: v in values && Like(v, p)
      {
        PatternFound(words, patterns, values, IndexOf(patterns, p));
      }
    }
  }

  lemma WordFound(words: seq<string>, patterns: seq<string>, values: seq<string>, i: nat)
    requires |patterns| == |words| && i < |words|
    requires forall k :: 0 <= k < |patterns| ==> patterns[k] == Pattern(words[k])
    requires RowPasses(values, patterns)
    ensures exists v :: v in values && Contains(v, words[i])
  {
    assert patterns[i] in patterns;
    var v :| v in values && Like(v, patterns[i]);
    PatternMatchesIffContains(words[i], v);
  }

  lemma PatternFound(words: seq<string>, patterns: seq<string>, values: seq<string>, i: nat)
    requires |patterns| == |words| && i < |words|
    requires forall k :: 0 <= k < |patterns| ==> patterns[k] == Pattern(words[k])
    requires forall w :: w in words ==> exists v :: v in values && Contains(v, w)
    ensures exists v :: v in values && Like(v, patterns[i])
  {
    assert words[i] in words;
    var v :| v in values && Contains(v, words[i]);
    PatternMatchesIffContains(words[i], v);
  }

  /** Every word is trimmed, and a doubled space yields an empty word,
    * whose pattern "%%" matches any value. */
  lemma EmptyWordMatchesAnything(text: string)
    ensures Like(text, Pattern(""))
  {
    PatternMatchesIffContains("", text);
    assert OccursAt(text, 0, "");
  }

  // ---------------------------------------------------------------------
  // The pattern as written

  /** With only `%` and `_` escaped, a backslash in the word is read as an
    * escape: the word "\" yields "%\%", which matches "50%" although "50%"
    * holds no backslash, and does not match "\" itself. */
  lemma BackslashWordMismatch()
    ensures Like("50%", PatternAsWritten("\\")) && !Contains("50%", "\\")
    ensures !Like("\\", PatternAsWritten("\\")) && Contains("\\", "\\")
  {
    assert PatternAsWritten("\\") == ['%', '\\', '%'];
    assert ['%', '\\', '%'][1..] == ['\\', '%'];
    assert ['\\', '%'][2..] == [];
    var ts := [AnyRun, Lit('%')];
    assert Tokens(PatternAsWritten("\\")) == ts;
    assert ts[1..] == [Lit('%')];
    assert [Lit('%')][1..] == [];
    assert "50%"[1..] == "0%" && "0%"[1..] == "%" && "%"[1..] == [];
    assert Matches(ts, "%");
    assert Matches(ts, "0%");
    assert !Matches([Lit('%')], "\\");
    assert "\\"[1..] == [];
    assert !Matches(ts, []);
    assert OccursAt("\\", 0, "\\");
  }

  /** On words without a backslash both patterns are the same. */
  lemma {:induction false} WrittenPatternAgreesWithoutBackslash(keyword: string)
    requires '\\' !in keyword
    ensures PatternAsWritten(keyword) == Pattern(keyword)
  {
    EscapesAgree(keyword);
  }

  lemma {:induction false} EscapesAgree(k: string)
    requires '\\' !in k
    ensures AddCSlashes(k, WrittenSpecials()) == AddCSlashes(k, LikeSpecials())
  {
    if k != [] {
      assert k[0] in k;
      assert forall c :: c in k[1..] ==> c in k;
      EscapesAgree(k[1..]);
    }
  }
}
