/**
 * The two affix rule tables of the spelling analyser and the ordering they are
 * given when the module is loaded.
 *
 * Each rule says: when a word starts (prefix table) or ends (suffix table) with
 * `search`, that part may be replaced by `replace`. At load time each table is
 * sorted by pattern length with Python's stable sort and then reversed, so the
 * longest patterns are tried first and rules of equal length are tried in the
 * reverse of their declaration order.
 */
module Affixes {

  datatype Rule = Rule(search: string, replace: string)

  // The tables in declaration order, in blocks of twelve rules; each block is
  // checked to hold only rules that shorten a word.

  function SuffixBlock1(): (t: seq<Rule>)
    ensures AllShrink(t)
  {
    [ Rule("able", ""), Rule("acy", ""), Rule("al", ""), Rule("ance", ""), Rule("ate", ""),
      Rule("bility", ""), Rule("bility", "ble"), Rule("bio", ""), Rule("dom", ""),
      Rule("ed", ""), Rule("ed", "e"), Rule("ee", "") ]
  }

  function SuffixBlock2(): (t: seq<Rule>)
    ensures AllShrink(t)
  {
    [ Rule("en", ""), Rule("en", "e"), Rule("ence", ""), Rule("ence", "e"), Rule("er", ""),
      Rule("er", "e"), Rule("erizer", ""), Rule("es", ""), Rule("es", "e"), Rule("esque", ""),
      Rule("est", ""), Rule("ful", "") ]
  }

  function SuffixBlock3(): (t: seq<Rule>)
    ensures AllShrink(t)
  {
    [ Rule("fy", ""), Rule("hood", ""), Rule("ible", ""), Rule("ic", ""), Rule("ical", ""),
      Rule("ied", ""), Rule("ied", "y"), Rule("ier", ""), Rule("ier", "y"), Rule("ies", ""),
      Rule("ies", "y"), Rule("iest", "") ]
  }

  function SuffixBlock4(): (t: seq<Rule>)
    ensures AllShrink(t)
  {
    [ Rule("iest", "y"), Rule("ify", ""), Rule("ily", ""), Rule("iness", ""), Rule("iness", "y"),
      Rule("ing", ""), Rule("ing", "e"), Rule("ious", ""), Rule("ise", ""), Rule("ish", ""),
      Rule("ism", ""), Rule("ist", "") ]
  }

  function SuffixBlock5(): (t: seq<Rule>)
    ensures AllShrink(t)
  {
    [ Rule("ity", ""), Rule("ity", "y"), Rule("ive", ""), Rule("ize", ""), Rule("izer", ""),
      Rule("less", ""), Rule("like", ""), Rule("long", ""), Rule("ly", ""), Rule("mate", ""),
      Rule("ment", ""), Rule("ness", "") ]
  }

  function SuffixBlock6(): (t: seq<Rule>)
    ensures AllShrink(t)
  {
    [ Rule("ologist", ""), Rule("ologist", "ology"), Rule("ous", ""), Rule("ped", ""),
      Rule("pping", ""), Rule("pping", "p"), Rule("red", ""), Rule("red", "re"), Rule("s", ""),
      Rule("sion", ""), Rule("tion", ""), Rule("tion", "te") ]
  }

  function SuffixBlock7(): (t: seq<Rule>)
    ensures AllShrink(t)
  {
    [ Rule("tize", ""), Rule("tize", "ty"), Rule("tize", "t"), Rule("tted", ""),
      Rule("tted", "t"), Rule("ty", ""), Rule("ward", ""), Rule("wards", ""), Rule("wide", ""),
      Rule("wise", ""), Rule("worthy", ""), Rule("y", "") ]
  }

  /** The suffix table as declared. */
  const DeclaredSuffixes: seq<Rule> :=
    SuffixBlock1() + SuffixBlock2() + SuffixBlock3() + SuffixBlock4()
    + SuffixBlock5() + SuffixBlock6() + SuffixBlock7()

  function PrefixBlock1(): (t: seq<Rule>)
    ensures AllShrink(t)
  {
    [ Rule("ante", ""), Rule("anti", ""), Rule("auto", ""), Rule("bi", ""), Rule("bio", ""),
      Rule("bis", ""), Rule("co", ""), Rule("de", ""), Rule("dis", ""), Rule("en", ""),
      Rule("ex", ""), Rule("extra", "") ]
  }

  function PrefixBlock2(): (t: seq<Rule>)
    ensures AllShrink(t)
  {
    [ Rule("hyper", ""), Rule("ig", ""), Rule("im", ""), Rule("in", ""), Rule("inter", ""),
      Rule("ir", ""), Rule("macro", ""), Rule("mal", ""), Rule("mega", ""), Rule("micro", ""),
      Rule("mini", ""), Rule("mis", "") ]
  }

  function PrefixBlock3(): (t: seq<Rule>)
    ensures AllShrink(t)
  {
    [ Rule("mono", ""), Rule("multi", ""), Rule("neo", ""), Rule("neuro", ""), Rule("non", ""),
      Rule("omni", ""), Rule("over", ""), Rule("penta", ""), Rule("per", ""), Rule("poly", ""),
      Rule("post", ""), Rule("pre", "") ]
  }

  function PrefixBlock4(): (t: seq<Rule>)
    ensures AllShrink(t)
  {
    [ Rule("pro", ""), Rule("quad", ""), Rule("re", ""), Rule("retro", ""), Rule("semi", ""),
      Rule("socio", ""), Rule("sub", ""), Rule("super", ""), Rule("tran", ""), Rule("tri", ""),
      Rule("un", ""), Rule("under", "") ]
  }

  function PrefixBlock5(): (t: seq<Rule>)
    ensures AllShrink(t)
  {
    [ Rule("uni", "")
    ]
  }

  /** The prefix table as declared. */
  const DeclaredPrefixes: seq<Rule> :=
    PrefixBlock1() + PrefixBlock2() + PrefixBlock3() + PrefixBlock4() + PrefixBlock5()

  /** A rule whose replacement is shorter than its pattern shortens every word it applies to. */
  predicate Shrinks(r: Rule)
  {
    |r.replace| < |r.search|
  }

  predicate AllShrink(rules: seq<Rule>)
  {
    forall r :: r in rules ==> Shrinks(r)
  }

  // ---------------------------------------------------------------------------
  // The load-time ordering: a stable sort on pattern length, then a reversal
  // ---------------------------------------------------------------------------

  function Key(r: Rule): nat
  {
    |r.search|
  }

  predicate Ascending(rules: seq<Rule>)
  {
    forall i, j :: 0 <= i < j < |rules| ==> Key(rules[i]) <= Key(rules[j])
  }

  predicate Descending(rules: seq<Rule>)
  {
    forall i, j :: 0 <= i < j < |rules| ==> Key(rules[i]) >= Key(rules[j])
  }

  /** Puts `r` in front of the first rule whose pattern is at least as long. */
  function Insert(r: Rule, sorted: seq<Rule>): (t: seq<Rule>)
    ensures |t| == |sorted| + 1
    ensures multiset(t) == multiset(sorted) + multiset{r}
  {
    if sorted == [] || Key(r) <= Key(sorted[0]) then [r] + sorted
    else
      assert sorted == [sorted[0]] + sorted[1..];
      [sorted[0]] + Insert(r, sorted[1..])
  }

  /**
   * `list.sort(key=...)` on pattern length. Python's sort is stable; an insertion
   * sort that never moves a rule past an equally long one is too, and
   * `SortIsDeterminedByStability` shows every stable sort gives this result.
   */
  function SortByLength(rules: seq<Rule>): (t: seq<Rule>)
    ensures |t| == |rules|
    ensures multiset(t) == multiset(rules)
  {
    if rules == [] then []
    else
      assert rules == [rules[0]] + rules[1..];
      Insert(rules[0], SortByLength(rules[1..]))
  }

  /** `list.reverse()`. */
  function Reverse(s: seq<Rule>): (t: seq<Rule>)
    ensures |t| == |s|
    ensures forall i :: 0 <= i < |s| ==> t[i] == s[|s| - 1 - i]
  {
    if s == [] then [] else Reverse(s[1..]) + [s[0]]
  }

  /** The ordering the tables get when the module is loaded. */
  function LongestFirst(rules: seq<Rule>): seq<Rule>
  {
    Reverse(SortByLength(rules))
  }

  /** The suffix table as the simplifier consults it. */
  const Suffixes: seq<Rule> := LongestFirst(DeclaredSuffixes)

  /** The prefix table as the simplifier consults it. */
  const Prefixes: seq<Rule> := LongestFirst(DeclaredPrefixes)

  /** The rules of one pattern length, in the order they appear. */
  function WithLength(rules: seq<Rule>, n: nat): seq<Rule>
  {
    if rules == [] then []
    else (if Key(rules[0]) == n then [rules[0]] else []) + WithLength(rules[1..], n)
  }

  lemma {:induction false} WithLengthMembers(rules: seq<Rule>, n: nat, r: Rule)
    ensures r in WithLength(rules, n) <==> r in rules && Key(r) == n
  {
    if rules != [] {
      WithLengthMembers(rules[1..], n, r);
      assert rules == [rules[0]] + rules[1..];
    }
  }

  // ---------------------------------------------------------------------------
  // Properties of the ordering
  // ---------------------------------------------------------------------------

  lemma {:induction false} InsertAscending(r: Rule, sorted: seq<Rule>)
    requires Ascending(sorted)
    ensures Ascending(Insert(r, sorted))
  {
    if sorted != [] && Key(r) > Key(sorted[0]) {
      InsertAscending(r, sorted[1..]);
      var t := Insert(r, sorted[1..]);
      forall x | x in t ensures Key(sorted[0]) <= Key(x) {
        assert x in multiset(t);
      }
      assert Insert(r, sorted) == [sorted[0]] + t;
    }
  }

  lemma {:induction false} SortAscending(rules: seq<Rule>)
    ensures Ascending(SortByLength(rules))
  {
    if rules != [] {
      SortAscending(rules[1..]);
      InsertAscending(rules[0], SortByLength(rules[1..]));
    }
  }

  lemma {:induction false} InsertKeepsGroups(r: Rule, sorted: seq<Rule>, n: nat)
    ensures WithLength(Insert(r, sorted), n)
            == (if Key(r) == n then [r] else []) + WithLength(sorted, n)
  {
    var t := Insert(r, sorted);
    if sorted != [] && Key(r) > Key(sorted[0]) {
      InsertKeepsGroups(r, sorted[1..], n);
      assert t[0] == sorted[0] && t[1..] == Insert(r, sorted[1..]);
      assert WithLength(t, n) == (if Key(sorted[0]) == n then [sorted[0]] else []) + WithLength(t[1..], n);
      assert WithLength(sorted, n) == (if Key(sorted[0]) == n then [sorted[0]] else []) + WithLength(sorted[1..], n);
    } else {
      assert t[0] == r && t[1..] == sorted;
      assert WithLength(t, n) == (if Key(r) == n then [r] else []) + WithLength(t[1..], n);
    }
  }

  /** Stability: within one pattern length the sort keeps the declaration order. */
  lemma {:induction false} SortKeepsGroups(rules: seq<Rule>, n: nat)
    ensures WithLength(SortByLength(rules), n) == WithLength(rules, n)
  {
    if rules != [] {
      SortKeepsGroups(rules[1..], n);
      InsertKeepsGroups(rules[0], SortByLength(rules[1..]), n);
    }
  }

  lemma {:induction false} WithLengthAppend(s: seq<Rule>, t: seq<Rule>, n: nat)
    ensures WithLength(s + t, n) == WithLength(s, n) + WithLength(t, n)
  {
    if s != [] {
      WithLengthAppend(s[1..], t, n);
      assert (s + t)[1..] == s[1..] + t;
    } else {
      assert s + t == t;
    }
  }

  lemma {:induction false} ReverseKeepsGroupsReversed(s: seq<Rule>, n: nat)
    ensures WithLength(Reverse(s), n) == Reverse(WithLength(s, n))
  {
    if s != [] {
      ReverseKeepsGroupsReversed(s[1..], n);
      WithLengthAppend(Reverse(s[1..]), [s[0]], n);
      assert WithLength([s[0]], n) == (if Key(s[0]) == n then [s[0]] else []);
      var head := if Key(s[0]) == n then [s[0]] else [];
      var tail := WithLength(s[1..], n);
      assert WithLength(s, n) == head + tail;
      assert Reverse(head + tail) == Reverse(tail) + head by {
        ReverseAppend(head, tail);
      }
    }
  }

  lemma ReverseAppend(s: seq<Rule>, t: seq<Rule>)
    ensures Reverse(s + t) == Reverse(t) + Reverse(s)
  {
    var l, r := Reverse(s + t), Reverse(t) + Reverse(s);
    assert |l| == |r|;
    forall i | 0 <= i < |l| ensures l[i] == r[i] {
      if i < |t| {
        assert l[i] == (s + t)[|s| + |t| - 1 - i];
      } else {
        assert l[i] == (s + t)[|s| + |t| - 1 - i];
      }
    }
  }

  /**
   * After the load-time sort and reversal a table holds the same rules, longest
   * patterns first, and rules of one length in the reverse of their declaration
   * order (so `ed -> e` is tried before `ed -> ""`).
   */
  lemma LongestFirstOrder(rules: seq<Rule>)
    ensures multiset(LongestFirst(rules)) == multiset(rules)
    ensures Descending(LongestFirst(rules))
    ensures forall n: nat :: WithLength(LongestFirst(rules), n) == Reverse(WithLength(rules, n))
  {
    var sorted := SortByLength(rules);
    SortAscending(rules);
    var t := LongestFirst(rules);
    assert multiset(t) == multiset(rules) by {
      ReverseMultiset(sorted);
    }
    forall n: nat ensures WithLength(t, n) == Reverse(WithLength(rules, n)) {
      ReverseKeepsGroupsReversed(sorted, n);
      SortKeepsGroups(rules, n);
    }
  }

  lemma {:induction false} ReverseMultiset(s: seq<Rule>)
    ensures multiset(Reverse(s)) == multiset(s)
  {
    if s != [] {
      ReverseMultiset(s[1..]);
      assert s == [s[0]] + s[1..];
    }
  }

  /**
   * Any ordering that is ascending by pattern length and keeps every length group
   * in declaration order is the one `SortByLength` computes: the result does not
   * depend on which stable sort the runtime uses.
   */
  lemma {:induction false} SortIsDeterminedByStability(rules: seq<Rule>, t: seq<Rule>)
    requires Ascending(t)
    requires forall n: nat :: WithLength(t, n) == WithLength(rules, n)
    ensures t == SortByLength(rules)
  {
    var s := SortByLength(rules);
    SortAscending(rules);
    forall n: nat ensures WithLength(t, n) == WithLength(s, n) {
      SortKeepsGroups(rules, n);
    }
    AscendingGroupsEqual(t, s);
  }

  lemma {:induction false} AscendingGroupsEqual(a: seq<Rule>, b: seq<Rule>)
    requires Ascending(a) && Ascending(b)
    requires forall n: nat :: WithLength(a, n) == WithLength(b, n)
    ensures a == b
  {
    if a != [] || b != [] {
      HeadsEqual(a, b);
      TailGroupsEqual(a, b);
      AscendingGroupsEqual(a[1..], b[1..]);
      assert a == [a[0]] + a[1..] && b == [b[0]] + b[1..];
    }
  }

  /** Two ascending orderings with the same length groups are both empty or start with the same rule. */
  lemma HeadsEqual(a: seq<Rule>, b: seq<Rule>)
    requires Ascending(a) && Ascending(b) && (a != [] || b != [])
    requires forall n: nat :: WithLength(a, n) == WithLength(b, n)
    ensures a != [] && b != [] && a[0] == b[0]
  {
    if a != [] {
      WithLengthMembers(a, Key(a[0]), a[0]);
      WithLengthMembers(b, Key(a[0]), a[0]);
    }
    if b != [] {
      WithLengthMembers(b, Key(b[0]), b[0]);
      WithLengthMembers(a, Key(b[0]), b[0]);
    }
    SameHead(a, b);
  }

  /** Dropping a common first rule keeps the length groups equal. */
  lemma TailGroupsEqual(a: seq<Rule>, b: seq<Rule>)
    requires a != [] && b != [] && a[0] == b[0]
    requires forall n: nat :: WithLength(a, n) == WithLength(b, n)
    ensures forall n: nat :: WithLength(a[1..], n) == WithLength(b[1..], n)
  {
    forall n: nat ensures WithLength(a[1..], n) == WithLength(b[1..], n) {
      var h := if Key(a[0]) == n then [a[0]] else [];
      assert WithLength(a, n) == h + WithLength(a[1..], n);
      assert WithLength(b, n) == h + WithLength(b[1..], n);
      assert WithLength(a[1..], n) == WithLength(a, n)[|h|..];
    }
  }

  /** The first rule of an ascending ordering is the first rule of the shortest length group. */
  lemma SameHead(a: seq<Rule>, b: seq<Rule>)
    requires Ascending(a) && Ascending(b) && a != [] && b != []
    requires a[0] in b && b[0] in a
    requires WithLength(a, Key(a[0])) == WithLength(b, Key(a[0]))
    ensures a[0] == b[0]
  {
    var i :| 0 <= i < |a| && a[i] == b[0];
    var j :| 0 <= j < |b| && b[j] == a[0];
    assert Key(a[0]) <= Key(a[i]);
    assert Key(b[0]) <= Key(b[j]);
    var k := Key(a[0]);
    assert WithLength(a, k)[0] == a[0];
    assert WithLength(b, k)[0] == b[0];
  }

  lemma AllShrinkAppend(s: seq<Rule>, t: seq<Rule>)
    requires AllShrink(s) && AllShrink(t)
    ensures AllShrink(s + t)
  {
  }

  /** Every declared rule shortens the word it applies to. */
  lemma DeclaredTablesShrink()
    ensures AllShrink(DeclaredSuffixes) && AllShrink(DeclaredPrefixes)
  {
    AllShrinkAppend(SuffixBlock1(), SuffixBlock2());
    AllShrinkAppend(SuffixBlock1() + SuffixBlock2(), SuffixBlock3());
    AllShrinkAppend(SuffixBlock1() + SuffixBlock2() + SuffixBlock3(), SuffixBlock4());
    AllShrinkAppend(SuffixBlock1() + SuffixBlock2() + SuffixBlock3() + SuffixBlock4(), SuffixBlock5());
    AllShrinkAppend(SuffixBlock1() + SuffixBlock2() + SuffixBlock3() + SuffixBlock4()
                    + SuffixBlock5(), SuffixBlock6());
    AllShrinkAppend(SuffixBlock1() + SuffixBlock2() + SuffixBlock3() + SuffixBlock4()
                    + SuffixBlock5() + SuffixBlock6(), SuffixBlock7());
    AllShrinkAppend(PrefixBlock1(), PrefixBlock2());
    AllShrinkAppend(PrefixBlock1() + PrefixBlock2(), PrefixBlock3());
    AllShrinkAppend(PrefixBlock1() + PrefixBlock2() + PrefixBlock3(), PrefixBlock4());
    AllShrinkAppend(PrefixBlock1() + PrefixBlock2() + PrefixBlock3() + PrefixBlock4(), PrefixBlock5());
  }

  /** The load-time ordering keeps every rule shortening. */
  lemma LongestFirstShrinks(rules: seq<Rule>)
    requires AllShrink(rules)
    ensures AllShrink(LongestFirst(rules))
  {
    LongestFirstOrder(rules);
    forall r | r in LongestFirst(rules) ensures Shrinks(r) {
      assert r in multiset(LongestFirst(rules));
    }
  }

  /** Every rule of the loaded tables shortens the word it applies to. */
  lemma TablesShrink()
    ensures AllShrink(Suffixes) && AllShrink(Prefixes)
  {
    DeclaredTablesShrink();
    LongestFirstShrinks(DeclaredSuffixes);
    LongestFirstShrinks(DeclaredPrefixes);
  }

  /** The two tables the simplifier consults, handed to it as one value. */
  datatype Tables = Tables(prefixes: seq<Rule>, suffixes: seq<Rule>)

  /** Every rule of both tables shortens the word it applies to. */
  predicate ShrinkingTables(t: Tables)
  {
    AllShrink(t.prefixes) && AllShrink(t.suffixes)
  }

  /** Both tables list longer patterns before shorter ones. */
  predicate LongestFirstTables(t: Tables)
  {
    Descending(t.prefixes) && Descending(t.suffixes)
  }

  /** The tables as loaded: each declared table sorted longest pattern first. */
  const Loaded: Tables := Tables(Prefixes, Suffixes)

  /** The loaded tables only hold shrinking rules and are ordered longest pattern first. */
  lemma LoadedTables()
    ensures ShrinkingTables(Loaded) && LongestFirstTables(Loaded)
  {
    TablesShrink();
    LongestFirstOrder(DeclaredPrefixes);
    LongestFirstOrder(DeclaredSuffixes);
  }

  /** Sorting longest first keeps every rule of the table. */
  lemma LongestFirstKeeps(rules: seq<Rule>, r: Rule)
    requires r in rules
    ensures r in LongestFirst(rules)
  {
    LongestFirstOrder(rules);
    assert r in multiset(rules);
  }

  lemma DeclaredSuffixRules()
    ensures Rule("y", "") in DeclaredSuffixes && Rule("s", "") in DeclaredSuffixes
    ensures Rule("erizer", "") in DeclaredSuffixes
  {
    var front := SuffixBlock1() + SuffixBlock2() + SuffixBlock3() + SuffixBlock4() + SuffixBlock5();
    assert DeclaredSuffixes == front + SuffixBlock6() + SuffixBlock7();
    assert Rule("y", "") in SuffixBlock7();
    assert Rule("s", "") in SuffixBlock6();
    assert Rule("erizer", "") in SuffixBlock2();
  }

  /** The suffix rules that take `mustardy` and `moisterizers` to their stems are loaded. */
  lemma LoadedSuffixRules()
    ensures Rule("y", "") in Loaded.suffixes && Rule("s", "") in Loaded.suffixes
    ensures Rule("erizer", "") in Loaded.suffixes
  {
    DeclaredSuffixRules();
    LongestFirstKeeps(DeclaredSuffixes, Rule("y", ""));
    LongestFirstKeeps(DeclaredSuffixes, Rule("s", ""));
    LongestFirstKeeps(DeclaredSuffixes, Rule("erizer", ""));
  }
}
