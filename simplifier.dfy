/**
 * The morphological simplifier: `is_in_dictionary`, `get_simplification_options`,
 * `apply_simplification` and `simplify_word`.
 *
 * `simplify_word` is a depth-first search that tries every rule matching the word,
 * longest patterns first, prefix rules before suffix rules, and returns the first
 * rewritten form that is a dictionary word either directly or after being
 * simplified itself. It has no depth bound: it terminates because every rule
 * replaces its pattern by something shorter, so each rewrite shortens the word.
 */
module Simplifier {
  import opened Text
  import opened Affixes

  datatype Kind = Prefix | Suffix

  /** One entry of the list `get_simplification_options` builds. */
  datatype Simplification = Simplification(kind: Kind, search: string, replace: string)

  /**
   * `is_in_dictionary`: a one-letter word is accepted exactly when it is a, i or o
   * in either case, without consulting the dictionary; any other word must be in
   * the dictionary exactly as written.
   */
  predicate IsInDictionary(word: string, dictionary: set<string>)
  {
    if |word| == 1 then LowerChar(word[0]) in {'a', 'i', 'o'} else word in dictionary
  }

  lemma IsInDictionaryCases(word: string, dictionary: set<string>)
    ensures |word| == 1 ==>
              (IsInDictionary(word, dictionary) <==> word[0] in {'a', 'A', 'i', 'I', 'o', 'O'})
    ensures |word| != 1 ==> (IsInDictionary(word, dictionary) <==> word in dictionary)
  {
  }

  // ---------------------------------------------------------------------------
  // get_simplification_options
  // ---------------------------------------------------------------------------

  function AsSimplification(kind: Kind, r: Rule): Simplification
  {
    Simplification(kind, r.search, r.replace)
  }

  /** Whether the pattern occurs at the end of the word the rule's kind names. */
  predicate Matches(word: string, s: Simplification)
  {
    if s.kind == Prefix then StartsWith(word, s.search) else EndsWith(word, s.search)
  }

  /** The rules of `rules` that match `word`, as simplifications of kind `kind`, in table order. */
  function Matching(rules: seq<Rule>, kind: Kind, word: string): seq<Simplification>
  {
    if rules == [] then []
    else
      var n := |rules| - 1;
      var last := AsSimplification(kind, rules[n]);
      Matching(rules[..n], kind, word) + (if Matches(word, last) then [last] else [])
  }

  /**
   * The options drawn from one table are at most as many as its rules, all of the
   * table's kind, all matching the word, and shrinking when the table's rules do.
   */
  lemma {:induction false} MatchingSpec(rules: seq<Rule>, kind: Kind, word: string)
    ensures var opts := Matching(rules, kind, word);
      && |opts| <= |rules|
      && (forall k :: 0 <= k < |opts| ==> opts[k].kind == kind && Matches(word, opts[k]))
      && (AllShrink(rules) ==> forall k :: 0 <= k < |opts| ==> |opts[k].replace| < |opts[k].search|)
  {
    if rules != [] {
      var n := |rules| - 1;
      MatchingSpec(rules[..n], kind, word);
      assert rules[n] in rules && forall r :: r in rules[..n] ==> r in rules;
    }
  }

  /** What `get_simplification_options` returns: matching prefix rules, then matching suffix rules. */
  function Options(word: string, tables: Tables): seq<Simplification>
  {
    Matching(tables.prefixes, Prefix, word) + Matching(tables.suffixes, Suffix, word)
  }

  /** Every option matches the word, and shrinks it when the tables' rules shrink. */
  lemma OptionsSpec(word: string, tables: Tables)
    ensures forall k :: 0 <= k < |Options(word, tables)| ==> Matches(word, Options(word, tables)[k])
    ensures ShrinkingTables(tables) ==>
              forall k :: 0 <= k < |Options(word, tables)| ==>
                |Options(word, tables)[k].replace| < |Options(word, tables)[k].search|
  {
    MatchingSpec(tables.prefixes, Prefix, word);
    MatchingSpec(tables.suffixes, Suffix, word);
  }

  /** `get_simplification_options`: one pass over each table, appending every rule that matches. */
  method GetSimplificationOptions(word: string, tables: Tables) returns (output: seq<Simplification>)
    ensures output == Options(word, tables)
  {
    output := [];
    var i := 0;
    while i < |tables.prefixes|
      invariant 0 <= i <= |tables.prefixes|
      invariant output == Matching(tables.prefixes[..i], Prefix, word)
    {
      var rule := tables.prefixes[i];
      assert tables.prefixes[..i + 1][..i] == tables.prefixes[..i];
      if StartsWith(word, rule.search) {
        output := output + [Simplification(Prefix, rule.search, rule.replace)];
      }
      i := i + 1;
    }
    assert tables.prefixes[..|tables.prefixes|] == tables.prefixes;
    var prefixOptions := output;
    var j := 0;
    while j < |tables.suffixes|
      invariant 0 <= j <= |tables.suffixes|
      invariant output == prefixOptions + Matching(tables.suffixes[..j], Suffix, word)
    {
      var rule := tables.suffixes[j];
      assert tables.suffixes[..j + 1][..j] == tables.suffixes[..j];
      if EndsWith(word, rule.search) {
        output := output + [Simplification(Suffix, rule.search, rule.replace)];
      }
      j := j + 1;
    }
    assert tables.suffixes[..|tables.suffixes|] == tables.suffixes;
  }

  /** The positions of the rules of `rules` that match `word`, in increasing order. */
  ghost function MatchingPositions(rules: seq<Rule>, kind: Kind, word: string): seq<nat>
  {
    if rules == [] then []
    else
      var n := |rules| - 1;
      MatchingPositions(rules[..n], kind, word)
      + (if Matches(word, AsSimplification(kind, rules[n])) then [n] else [])
  }

  /** Positions below `bound`, in increasing order. */
  predicate IncreasingBelow(pos: seq<nat>, bound: nat)
  {
    && (forall k :: 0 <= k < |pos| ==> pos[k] < bound)
    && (forall k, l :: 0 <= k < l < |pos| ==> pos[k] < pos[l])
  }

  /** The positions `MatchingPositions` lists are positions of the table, in increasing order. */
  lemma {:induction false} PositionsIncrease(rules: seq<Rule>, kind: Kind, word: string)
    ensures IncreasingBelow(MatchingPositions(rules, kind, word), |rules|)
  {
    if rules != [] {
      var n := |rules| - 1;
      PositionsIncrease(rules[..n], kind, word);
      assert MatchingPositions(rules, kind, word) == MatchingPositions(rules[..n], kind, word)
        + (if Matches(word, AsSimplification(kind, rules[n])) then [n] else []);
    }
  }

  /** The positions `MatchingPositions` lists are exactly those of the rules that match. */
  lemma {:induction false} PositionsAreMatches(rules: seq<Rule>, kind: Kind, word: string)
    ensures forall i :: 0 <= i < |rules| ==>
              (i in MatchingPositions(rules, kind, word) <==> Matches(word, AsSimplification(kind, rules[i])))
  {
    if rules != [] {
      var n := |rules| - 1;
      var pre := MatchingPositions(rules[..n], kind, word);
      PositionsAreMatches(rules[..n], kind, word);
      PositionsIncrease(rules[..n], kind, word);
      assert MatchingPositions(rules, kind, word)
        == pre + (if Matches(word, AsSimplification(kind, rules[n])) then [n] else []);
      forall i | 0 <= i < |rules|
        ensures i in MatchingPositions(rules, kind, word) <==> Matches(word, AsSimplification(kind, rules[i]))
      {
        if i < n {
          assert rules[..n][i] == rules[i];
        } else {
          assert IncreasingBelow(pre, n);
        }
      }
    }
  }

  /** The k-th option `Matching` lists is the rule at the k-th matching position. */
  lemma {:induction false} MatchingAtPositions(rules: seq<Rule>, kind: Kind, word: string)
    ensures var opts, pos := Matching(rules, kind, word), MatchingPositions(rules, kind, word);
      && |pos| == |opts|
      && (forall k :: 0 <= k < |pos| ==> pos[k] < |rules| && opts[k] == AsSimplification(kind, rules[pos[k]]))
  {
    PositionsIncrease(rules, kind, word);
    if rules != [] {
      var n := |rules| - 1;
      MatchingAtPositions(rules[..n], kind, word);
      PositionsIncrease(rules[..n], kind, word);
    }
  }

  /** Options with longer patterns come before options with shorter ones. */
  predicate LongestFirstOptions(opts: seq<Simplification>)
  {
    forall k, l :: 0 <= k < l < |opts| ==> |opts[k].search| >= |opts[l].search|
  }

  /**
   * `Matching` keeps the table's order: over a table with longer patterns first,
   * the options it lists have non-increasing pattern lengths.
   */
  lemma MatchingLongestFirst(rules: seq<Rule>, kind: Kind, word: string)
    requires Descending(rules)
    ensures LongestFirstOptions(Matching(rules, kind, word))
  {
    MatchingAtPositions(rules, kind, word);
    PositionsIncrease(rules, kind, word);
    var opts, pos := Matching(rules, kind, word), MatchingPositions(rules, kind, word);
    forall k, l | 0 <= k < l < |opts| ensures |opts[k].search| >= |opts[l].search| {
      assert Key(rules[pos[k]]) >= Key(rules[pos[l]]);
    }
  }

  /** Prefix options come first, each group in its table's order (longest patterns first). */
  lemma OptionsOrder(word: string, tables: Tables)
    requires LongestFirstTables(tables)
    ensures var opts := Options(word, tables);
      && (forall k, l :: 0 <= k < l < |opts| && opts[l].kind == Prefix ==> opts[k].kind == Prefix)
      && (forall k, l :: 0 <= k < l < |opts| && opts[k].kind == opts[l].kind ==>
            |opts[k].search| >= |opts[l].search|)
  {
    var pre, suf := Matching(tables.prefixes, Prefix, word), Matching(tables.suffixes, Suffix, word);
    var opts := Options(word, tables);
    assert opts == pre + suf;
    MatchingSpec(tables.prefixes, Prefix, word);
    MatchingSpec(tables.suffixes, Suffix, word);
    MatchingLongestFirst(tables.prefixes, Prefix, word);
    MatchingLongestFirst(tables.suffixes, Suffix, word);
    assert LongestFirstOptions(pre) && LongestFirstOptions(suf);
    forall k, l | 0 <= k < l < |opts| && opts[k].kind == opts[l].kind
      ensures |opts[k].search| >= |opts[l].search|
    {
      if l < |pre| {
        assert opts[k] == pre[k] && opts[l] == pre[l];
      } else if k >= |pre| {
        assert opts[k] == suf[k - |pre|] && opts[l] == suf[l - |pre|];
      }
    }
  }

  // ---------------------------------------------------------------------------
  // apply_simplification
  // ---------------------------------------------------------------------------

  /**
   * `apply_simplification`: when the pattern is at the required end, it is cut off
   * and the replacement put in its place; otherwise the word is returned as it is.
   * Python's `word[:-0]` is the empty string, so an empty suffix pattern leaves only
   * the replacement (no rule of the tables has an empty pattern).
   */
  function Apply(word: string, s: Simplification): string
  {
    if s.kind == Prefix then
      if StartsWith(word, s.search) then s.replace + word[|s.search|..] else word
    else
      if EndsWith(word, s.search) then
        (if |s.search| == 0 then [] else word[..|word| - |s.search|]) + s.replace
      else word
  }

  /**
   * Applying a matching rule swaps its pattern for its replacement and keeps the
   * rest of the word; a rule that does not match leaves the word alone.
   */
  lemma ApplySpec(word: string, s: Simplification)
    ensures !Matches(word, s) ==> Apply(word, s) == word
    ensures Matches(word, s) && s.kind == Prefix ==>
              word == s.search + word[|s.search|..] && Apply(word, s) == s.replace + word[|s.search|..]
    ensures Matches(word, s) && s.kind == Suffix && |s.search| > 0 ==>
              var stem := word[..|word| - |s.search|];
              word == stem + s.search && Apply(word, s) == stem + s.replace
    ensures Matches(word, s) && |s.search| > 0 ==>
              |Apply(word, s)| == |word| - |s.search| + |s.replace|
  {
    if Matches(word, s) && s.kind == Suffix && |s.search| > 0 {
      assert word == word[..|word| - |s.search|] + word[|word| - |s.search|..];
    }
  }

  lemma EmptySuffixPatternKeepsOnlyReplacement(word: string, replace: string)
    ensures Apply(word, Simplification(Suffix, "", replace)) == replace
  {
  }

  /** Whether every option of `options` shortens `word`. */
  predicate AllShorten(word: string, options: seq<Simplification>)
  {
    forall k :: 0 <= k < |options| ==> |Apply(word, options[k])| < |word|
  }

  /** Every option of a word shortens it, which is what makes `simplify_word` terminate. */
  lemma OptionsShorten(word: string, tables: Tables)
    requires ShrinkingTables(tables)
    ensures AllShorten(word, Options(word, tables))
  {
    var opts := Options(word, tables);
    OptionsSpec(word, tables);
    forall k | 0 <= k < |opts| ensures |Apply(word, opts[k])| < |word| {
      ApplySpec(word, opts[k]);
    }
  }

  // ---------------------------------------------------------------------------
  // simplify_word
  // ---------------------------------------------------------------------------

  /** What `simplify_word` returns. */
  function Simplify(word: string, tables: Tables, dictionary: set<string>): (r: string)
    requires ShrinkingTables(tables)
    ensures r == word || IsInDictionary(r, dictionary)
    ensures r != word ==> |r| < |word|
    decreases |word|, 1
  {
    OptionsShorten(word, tables);
    FirstSuccess(word, Options(word, tables), 0, tables, dictionary)
  }

  /**
   * The loop of `simplify_word` from option `i` on: the first option whose
   * rewritten form is a dictionary word, directly or once simplified itself,
   * decides the result; when none does, the word comes back unchanged.
   */
  function FirstSuccess(word: string, options: seq<Simplification>, i: nat, tables: Tables, dictionary: set<string>): (r: string)
    requires ShrinkingTables(tables) && i <= |options| && AllShorten(word, options)
    ensures r == word || IsInDictionary(r, dictionary)
    ensures r != word ==> |r| < |word|
    decreases |word|, 0, |options| - i
  {
    if i == |options| then word
    else
      var outcome := Attempt(word, options[i], tables, dictionary);
      if IsInDictionary(outcome, dictionary) then outcome
      else FirstSuccess(word, options, i + 1, tables, dictionary)
  }

  /**
   * One turn of the loop of `simplify_word`: the rewritten form when it is a
   * dictionary word, otherwise what simplifying the rewritten form gives.
   */
  function Attempt(word: string, o: Simplification, tables: Tables, dictionary: set<string>): (r: string)
    requires ShrinkingTables(tables) && |Apply(word, o)| < |word|
    ensures |r| < |word|
    decreases |word|, 0, 0
  {
    var applied := Apply(word, o);
    if IsInDictionary(applied, dictionary) then applied else Simplify(applied, tables, dictionary)
  }

  /** `simplify_word`. */
  method SimplifyWord(word: string, tables: Tables, dictionary: set<string>) returns (r: string)
    requires ShrinkingTables(tables)
    ensures r == Simplify(word, tables, dictionary)
    decreases |word|
  {
    var options := GetSimplificationOptions(word, tables);
    if |options| == 0 {
      return word;
    }
    OptionsShorten(word, tables);
    var i := 0;
    while i < |options|
      invariant 0 <= i <= |options|
      invariant FirstSuccess(word, options, i, tables, dictionary) == Simplify(word, tables, dictionary)
    {
      var applied := Apply(word, options[i]);
      if IsInDictionary(applied, dictionary) {
        return applied;
      }
      var drilledDown := SimplifyWord(applied, tables, dictionary);
      if IsInDictionary(drilledDown, dictionary) {
        return drilledDown;
      }
      i := i + 1;
    }
    return word;
  }

  /** Whether trying option `o` on `word` ends the search. */
  predicate Succeeds(word: string, o: Simplification, tables: Tables, dictionary: set<string>)
    requires ShrinkingTables(tables) && |Apply(word, o)| < |word|
  {
    IsInDictionary(Attempt(word, o, tables, dictionary), dictionary)
  }

  /** No option from `i` up to (not including) `k` succeeds. */
  ghost predicate NoneSucceeds(word: string, options: seq<Simplification>, i: nat, k: nat, tables: Tables, dictionary: set<string>)
    requires ShrinkingTables(tables) && i <= k <= |options| && AllShorten(word, options)
  {
    forall j {:trigger Succeeds(word, options[j], tables, dictionary)} ::
      i <= j < k ==> !Succeeds(word, options[j], tables, dictionary)
  }

  /**
   * The search is first-success: when option `k` is the first from `i` on that
   * succeeds, its outcome is the result, and when none from `i` on succeeds, the
   * word is returned unchanged.
   */
  lemma {:induction false} FirstSuccessIsFirst(word: string, options: seq<Simplification>, i: nat, k: nat,
                                              tables: Tables, dictionary: set<string>)
    requires ShrinkingTables(tables) && i <= k <= |options| && AllShorten(word, options)
    requires NoneSucceeds(word, options, i, k, tables, dictionary)
    ensures k < |options| && Succeeds(word, options[k], tables, dictionary) ==>
              FirstSuccess(word, options, i, tables, dictionary) == Attempt(word, options[k], tables, dictionary)
    ensures k == |options| ==> FirstSuccess(word, options, i, tables, dictionary) == word
    decreases k - i
  {
    if i < k {
      assert !Succeeds(word, options[i], tables, dictionary);
      FirstSuccessIsFirst(word, options, i + 1, k, tables, dictionary);
    }
  }

  /**
   * `simplify_word` returns the outcome of the first of the word's options that
   * succeeds, and the word itself when none does (in particular when no rule matches).
   */
  lemma SimplifyIsFirstSuccess(word: string, k: nat, tables: Tables, dictionary: set<string>)
    requires ShrinkingTables(tables) && k <= |Options(word, tables)|
    ensures AllShorten(word, Options(word, tables))
    ensures NoneSucceeds(word, Options(word, tables), 0, k, tables, dictionary) && k < |Options(word, tables)|
              && Succeeds(word, Options(word, tables)[k], tables, dictionary) ==>
              Simplify(word, tables, dictionary) == Attempt(word, Options(word, tables)[k], tables, dictionary)
    ensures NoneSucceeds(word, Options(word, tables), 0, k, tables, dictionary) && k == |Options(word, tables)| ==>
              Simplify(word, tables, dictionary) == word
  {
    OptionsShorten(word, tables);
    if NoneSucceeds(word, Options(word, tables), 0, k, tables, dictionary) {
      FirstSuccessIsFirst(word, Options(word, tables), 0, k, tables, dictionary);
    }
  }

  /** A word no rule matches is its own simplification. */
  lemma NoOptionsNoChange(word: string, tables: Tables, dictionary: set<string>)
    requires ShrinkingTables(tables) && Options(word, tables) == []
    ensures Simplify(word, tables, dictionary) == word
  {
  }

  /** A dictionary word simplifies to a dictionary word (possibly a different one). */
  lemma ValidStaysValid(word: string, tables: Tables, dictionary: set<string>)
    requires ShrinkingTables(tables) && IsInDictionary(word, dictionary)
    ensures IsInDictionary(Simplify(word, tables, dictionary), dictionary)
  {
  }

  /** Every rule of a table that matches the word is among its options of that kind. */
  lemma {:induction false} MatchingComplete(rules: seq<Rule>, kind: Kind, word: string, r: Rule)
    requires r in rules && Matches(word, AsSimplification(kind, r))
    ensures AsSimplification(kind, r) in Matching(rules, kind, word)
  {
    var n := |rules| - 1;
    if rules[n] != r {
      assert r in rules[..n] by {
        var j :| 0 <= j < |rules| && rules[j] == r;
        assert j < n && rules[..n][j] == r;
      }
      MatchingComplete(rules[..n], kind, word, r);
    }
  }

  /** Whether the option ends the search on `word`: its rewrite is, or simplifies to, a dictionary word. */
  predicate Rescues(word: string, o: Simplification, tables: Tables, dictionary: set<string>)
    requires ShrinkingTables(tables)
  {
    var applied := Apply(word, o);
    IsInDictionary(applied, dictionary) || IsInDictionary(Simplify(applied, tables, dictionary), dictionary)
  }

  lemma {:induction false} FirstSuccessComplete(word: string, options: seq<Simplification>, i: nat, k: nat,
                                               tables: Tables, dictionary: set<string>)
    requires ShrinkingTables(tables) && i <= k < |options| && AllShorten(word, options)
    requires Succeeds(word, options[k], tables, dictionary)
    ensures IsInDictionary(FirstSuccess(word, options, i, tables, dictionary), dictionary)
    ensures |FirstSuccess(word, options, i, tables, dictionary)| < |word|
    decreases k - i
  {
    if i < k && !Succeeds(word, options[i], tables, dictionary) {
      FirstSuccessComplete(word, options, i + 1, k, tables, dictionary);
    }
  }

  /**
   * The search is complete: when any option of the word leads to a dictionary word,
   * `simplify_word` returns a dictionary word shorter than the one it was given.
   */
  lemma SearchIsComplete(word: string, o: Simplification, tables: Tables, dictionary: set<string>)
    requires ShrinkingTables(tables) && o in Options(word, tables)
    requires Rescues(word, o, tables, dictionary)
    ensures IsInDictionary(Simplify(word, tables, dictionary), dictionary)
    ensures |Simplify(word, tables, dictionary)| < |word|
  {
    var options := Options(word, tables);
    OptionsShorten(word, tables);
    var k :| 0 <= k < |options| && options[k] == o;
    assert Succeeds(word, options[k], tables, dictionary);
    FirstSuccessComplete(word, options, 0, k, tables, dictionary);
  }

  /** A suffix rule of the tables that matches the word gives one of its options. */
  lemma SuffixOption(word: string, tables: Tables, r: Rule)
    requires r in tables.suffixes && EndsWith(word, r.search)
    ensures AsSimplification(Suffix, r) in Options(word, tables)
  {
    MatchingComplete(tables.suffixes, Suffix, word, r);
  }

  /**
   * The `mustardy` unit test, for any shrinking tables with the suffix rule `y` → ``
   * (the loaded ones have it): with `mustard` in the dictionary, `mustardy`
   * simplifies to a shorter dictionary word.
   */
  lemma MustardyExample(tables: Tables)
    requires ShrinkingTables(tables) && Rule("y", "") in tables.suffixes
    ensures IsInDictionary(Simplify("mustardy", tables, {"mustard"}), {"mustard"})
    ensures |Simplify("mustardy", tables, {"mustard"})| < |"mustardy"|
  {
    var o := AsSimplification(Suffix, Rule("y", ""));
    SuffixOption("mustardy", tables, Rule("y", ""));
    assert Apply("mustardy", o) == "mustard";
    SearchIsComplete("mustardy", o, tables, {"mustard"});
  }

  /**
   * The `moisterizers` unit test, for any shrinking tables with the suffix rules
   * `s` → `` and `erizer` → `` (the loaded ones have both): with `moist` in the
   * dictionary, `moisterizers` simplifies to a shorter dictionary word; the `s`
   * rule gives `moisterizer`, which the `erizer` rule takes to `moist`.
   */
  lemma MoisterizersExample(tables: Tables)
    requires ShrinkingTables(tables) && Rule("s", "") in tables.suffixes && Rule("erizer", "") in tables.suffixes
    ensures IsInDictionary(Simplify("moisterizers", tables, {"moist"}), {"moist"})
    ensures |Simplify("moisterizers", tables, {"moist"})| < |"moisterizers"|
  {
    var d := {"moist"};
    var inner := AsSimplification(Suffix, Rule("erizer", ""));
    SuffixOption("moisterizer", tables, Rule("erizer", ""));
    assert Apply("moisterizer", inner) == "moist";
    SearchIsComplete("moisterizer", inner, tables, d);
    var outer := AsSimplification(Suffix, Rule("s", ""));
    SuffixOption("moisterizers", tables, Rule("s", ""));
    assert Apply("moisterizers", outer) == "moisterizer";
    SearchIsComplete("moisterizers", outer, tables, d);
  }

  /** Both unit-test words reach a dictionary word under the loaded tables. */
  lemma LoadedExamples()
    ensures ShrinkingTables(Loaded)
    ensures IsInDictionary(Simplify("mustardy", Loaded, {"mustard"}), {"mustard"})
    ensures IsInDictionary(Simplify("moisterizers", Loaded, {"moist"}), {"moist"})
  {
    LoadedTables();
    LoadedSuffixRules();
    MustardyExample(Loaded);
    MoisterizersExample(Loaded);
  }
}
