/**
 * `get_placeholder_words`: for each placeholder in turn, every whole-word,
 * case-insensitive occurrence of it in the text, as written in the text.
 *
 * `re.finditer(r'\b%s\b' % p, text, re.IGNORECASE)` is modelled for placeholders
 * made of word characters, whose pattern then means the placeholder itself; the
 * scan reports non-overlapping matches from left to right.
 */
module Placeholders {
  import opened Text

  /** A placeholder the pattern treats as literal text: a non-empty run of word characters. */
  predicate IsWord(p: string)
  {
    p != [] && forall k :: 0 <= k < |p| ==> IsWordChar(p[k])
  }

  /** `\b` at position `i`: a word character on exactly one side of it. */
  predicate Boundary(text: string, i: nat)
    requires i <= |text|
  {
    (i > 0 && IsWordChar(text[i - 1])) != (i < |text| && IsWordChar(text[i]))
  }

  /** Whether `\bp\b` matches `text` at position `i`, ignoring case. */
  predicate MatchAt(text: string, p: string, i: nat)
  {
    i + |p| <= |text| && Lower(text[i..i + |p|]) == Lower(p) && Boundary(text, i) && Boundary(text, i + |p|)
  }

  /**
   * The matches `re.finditer` reports from position `i` on, as written in the
   * text; after a match the scan resumes where the match ends.
   */
  function Occurrences(text: string, p: string, i: nat): (r: seq<string>)
    requires IsWord(p) && i <= |text| + 1
    decreases |text| + 1 - i
  {
    if i > |text| then []
    else if MatchAt(text, p, i) then [text[i..i + |p|]] + Occurrences(text, p, i + |p|)
    else Occurrences(text, p, i + 1)
  }

  /** What `get_placeholder_words` returns: the occurrences of each placeholder, grouped in list order. */
  function PlaceholderWords(text: string, placeholders: seq<string>): (r: seq<string>)
    requires forall k :: 0 <= k < |placeholders| ==> IsWord(placeholders[k])
  {
    if placeholders == [] then []
    else
      var n := |placeholders| - 1;
      PlaceholderWords(text, placeholders[..n]) + Occurrences(text, placeholders[n], 0)
  }

  /** `get_placeholder_words`. */
  method GetPlaceholderWords(text: string, placeholders: seq<string>) returns (found: seq<string>)
    requires forall k :: 0 <= k < |placeholders| ==> IsWord(placeholders[k])
    ensures found == PlaceholderWords(text, placeholders)
  {
    found := [];
    for n := 0 to |placeholders|
      invariant found == PlaceholderWords(text, placeholders[..n])
    {
      var p := placeholders[n];
      assert placeholders[..n + 1][..n] == placeholders[..n];
      ghost var before := found;
      var i := 0;
      while i <= |text|
        invariant 0 <= i <= |text| + 1
        invariant found + Occurrences(text, p, i) == before + Occurrences(text, p, 0)
        decreases |text| + 1 - i
      {
        if MatchAt(text, p, i) {
          found := found + [text[i..i + |p|]];
          i := i + |p|;
        } else {
          i := i + 1;
        }
      }
    }
    assert placeholders[..|placeholders|] == placeholders;
  }

  // ---------------------------------------------------------------------------
  // What the scan reports
  // ---------------------------------------------------------------------------

  lemma WordCharLower(c: char)
    ensures IsWordChar(LowerChar(c)) == IsWordChar(c)
  {
  }

  /**
   * Every reported string is the text at a position where the placeholder matches
   * as a whole word: it keeps the text's own casing, and no word character sits
   * right before or right after it.
   */
  lemma {:induction false} OccurrencesAreMatches(text: string, p: string, i: nat, m: string)
    requires IsWord(p) && i <= |text| + 1
    requires m in Occurrences(text, p, i)
    ensures exists j :: i <= j && MatchAt(text, p, j) && m == text[j..j + |p|]
              && (j == 0 || !IsWordChar(text[j - 1])) && (j + |p| == |text| || !IsWordChar(text[j + |p|]))
    decreases |text| + 1 - i
  {
    if MatchAt(text, p, i) && m == text[i..i + |p|] {
      WholeWord(text, p, i);
    } else if MatchAt(text, p, i) {
      OccurrencesAreMatches(text, p, i + |p|, m);
    } else {
      OccurrencesAreMatches(text, p, i + 1, m);
    }
  }

  /** A match of a word starts and ends at word characters, so the boundaries mean no word character beside it. */
  lemma WholeWord(text: string, p: string, j: nat)
    requires IsWord(p) && MatchAt(text, p, j)
    ensures j == 0 || !IsWordChar(text[j - 1])
    ensures j + |p| == |text| || !IsWordChar(text[j + |p|])
  {
    var m := text[j..j + |p|];
    assert Lower(m)[0] == Lower(p)[0] && Lower(m)[|p| - 1] == Lower(p)[|p| - 1];
    WordCharLower(m[0]);
    WordCharLower(p[0]);
    WordCharLower(m[|p| - 1]);
    WordCharLower(p[|p| - 1]);
  }

  /** Two matches of a word never overlap. */
  lemma NoOverlap(text: string, p: string, j: nat, i: nat)
    requires IsWord(p) && MatchAt(text, p, j) && MatchAt(text, p, i) && j < i
    ensures j + |p| <= i
  {
    if i < j + |p| {
      var m := text[j..j + |p|];
      assert text[i - 1] == m[i - 1 - j];
      assert Lower(m)[i - 1 - j] == Lower(p)[i - 1 - j];
      WordCharLower(m[i - 1 - j]);
      WordCharLower(p[i - 1 - j]);
      WholeWord(text, p, i);
      assert false;
    }
  }

  /** Every whole-word occurrence at or after `i` is reported: the scan never skips over one. */
  lemma {:induction false} OccurrencesFindAll(text: string, p: string, i: nat, j: nat)
    requires IsWord(p) && i <= j && MatchAt(text, p, j)
    requires forall l :: i <= l < j && MatchAt(text, p, l) ==> l + |p| <= j
    ensures text[j..j + |p|] in Occurrences(text, p, i)
    decreases j - i
  {
    OccurrencesStep(text, p, i);
    if i < j {
      if MatchAt(text, p, i) {
        OccurrencesFindAll(text, p, i + |p|, j);
      } else {
        OccurrencesFindAll(text, p, i + 1, j);
      }
    }
  }

  /** So every whole-word occurrence in the text is reported. */
  lemma FindsEveryOccurrence(text: string, p: string, j: nat)
    requires IsWord(p) && MatchAt(text, p, j)
    ensures text[j..j + |p|] in Occurrences(text, p, 0)
  {
    forall l | 0 <= l < j && MatchAt(text, p, l) ensures l + |p| <= j {
      NoOverlap(text, p, l, j);
    }
    OccurrencesFindAll(text, p, 0, j);
  }

  /** The positions of the matches the scan reports from position `i` on. */
  ghost function MatchPositions(text: string, p: string, i: nat): seq<nat>
    requires IsWord(p) && i <= |text| + 1
    decreases |text| + 1 - i
  {
    if i > |text| then []
    else if MatchAt(text, p, i) then [i] + MatchPositions(text, p, i + |p|)
    else MatchPositions(text, p, i + 1)
  }

  /** The k-th report is the text at the k-th position, where the placeholder matches, and positions are at least `i`. */
  ghost predicate ReportsAt(text: string, p: string, i: nat, occ: seq<string>, pos: seq<nat>)
  {
    && |pos| == |occ|
    && forall k :: 0 <= k < |pos| ==> i <= pos[k] && MatchAt(text, p, pos[k]) && occ[k] == text[pos[k]..pos[k] + |p|]
  }

  /** Each report ends before the next one starts. */
  ghost predicate Apart(p: string, pos: seq<nat>)
  {
    forall k :: 0 <= k < |pos| - 1 ==> pos[k] + |p| <= pos[k + 1]
  }

  lemma ReportsAtCons(text: string, p: string, i: nat, rest: seq<string>, restPos: seq<nat>)
    requires MatchAt(text, p, i) && ReportsAt(text, p, i + |p|, rest, restPos)
    ensures ReportsAt(text, p, i, [text[i..i + |p|]] + rest, [i] + restPos)
  {
    var occ, pos := [text[i..i + |p|]] + rest, [i] + restPos;
    forall k | 0 < k < |pos|
      ensures i <= pos[k] && MatchAt(text, p, pos[k]) && occ[k] == text[pos[k]..pos[k] + |p|]
    {
      assert pos[k] == restPos[k - 1] && occ[k] == rest[k - 1];
    }
  }

  lemma ApartCons(p: string, i: nat, restPos: seq<nat>)
    requires Apart(p, restPos) && forall k :: 0 <= k < |restPos| ==> i + |p| <= restPos[k]
    ensures Apart(p, [i] + restPos)
  {
    var pos := [i] + restPos;
    forall k | 0 < k < |pos| - 1 ensures pos[k] + |p| <= pos[k + 1] {
      assert pos[k] == restPos[k - 1] && pos[k + 1] == restPos[k];
    }
  }

  /** Reports from one scan come in left-to-right order of position, without overlap. */
  lemma {:induction false} OccurrencesInOrder(text: string, p: string, i: nat)
    requires IsWord(p) && i <= |text| + 1
    ensures ReportsAt(text, p, i, Occurrences(text, p, i), MatchPositions(text, p, i))
    ensures Apart(p, MatchPositions(text, p, i))
    decreases |text| + 1 - i
  {
    if i <= |text| {
      if MatchAt(text, p, i) {
        OccurrencesInOrder(text, p, i + |p|);
        ReportsAtCons(text, p, i, Occurrences(text, p, i + |p|), MatchPositions(text, p, i + |p|));
        ApartCons(p, i, MatchPositions(text, p, i + |p|));
      } else {
        OccurrencesInOrder(text, p, i + 1);
      }
    }
  }

  /** No placeholders, or a text without occurrences, gives nothing. */
  lemma {:induction false} NoOccurrenceNothingFound(text: string, placeholders: seq<string>)
    requires forall k :: 0 <= k < |placeholders| ==> IsWord(placeholders[k])
    requires forall k, j :: 0 <= k < |placeholders| && 0 <= j ==> !MatchAt(text, placeholders[k], j)
    ensures PlaceholderWords(text, placeholders) == []
  {
    if placeholders != [] {
      var n := |placeholders| - 1;
      NoOccurrenceNothingFound(text, placeholders[..n]);
      NoMatchNoOccurrence(text, placeholders[n], 0);
    }
  }

  lemma {:induction false} NoMatchNoOccurrence(text: string, p: string, i: nat)
    requires IsWord(p) && i <= |text| + 1
    requires forall j :: i <= j ==> !MatchAt(text, p, j)
    ensures Occurrences(text, p, i) == []
    decreases |text| + 1 - i
  {
    if i <= |text| {
      NoMatchNoOccurrence(text, p, i + 1);
    }
  }

  /** Any reported string equals some placeholder up to case. */
  lemma {:induction false} FoundAreSpellingsOfPlaceholders(text: string, placeholders: seq<string>, m: string)
    requires forall k :: 0 <= k < |placeholders| ==> IsWord(placeholders[k])
    requires m in PlaceholderWords(text, placeholders)
    ensures exists k :: 0 <= k < |placeholders| && Lower(m) == Lower(placeholders[k])
  {
    var n := |placeholders| - 1;
    var front := PlaceholderWords(text, placeholders[..n]);
    if m in front {
      FoundAreSpellingsOfPlaceholders(text, placeholders[..n], m);
      var k :| 0 <= k < n && Lower(m) == Lower(placeholders[..n][k]);
      assert placeholders[..n][k] == placeholders[k];
    } else {
      OccurrencesAreMatches(text, placeholders[n], 0, m);
    }
  }

  // ---------------------------------------------------------------------------
  // Text made of words separated by single spaces
  // ---------------------------------------------------------------------------

  /** The scan moves past positions where nothing matches without reporting anything. */
  lemma {:induction false} SkipNoMatch(text: string, p: string, i: nat, j: nat)
    requires IsWord(p) && i <= j <= |text| + 1
    requires forall l :: i <= l < j ==> !MatchAt(text, p, l)
    ensures Occurrences(text, p, i) == Occurrences(text, p, j)
    decreases j - i
  {
    if i < j {
      SkipNoMatch(text, p, i + 1, j);
    }
  }

  /** After a non-word character, the scan of the rest of the text is the scan of that rest on its own. */
  lemma {:induction false} OccurrencesShift(a: string, b: string, p: string, i: nat)
    requires IsWord(p) && i <= |b| + 1
    requires a == [] || !IsWordChar(a[|a| - 1])
    ensures Occurrences(a + b, p, |a| + i) == Occurrences(b, p, i)
    decreases |b| + 1 - i
  {
    if i <= |b| {
      if MatchAt(b, p, i) {
        OccurrencesShift(a, b, p, i + |p|);
        ShiftMatch(a, b, p, i);
      } else {
        OccurrencesShift(a, b, p, i + 1);
        ShiftSkip(a, b, p, i);
      }
    }
  }

  /** A match step of `OccurrencesShift`: both scans report the same string and go on from matching positions. */
  lemma ShiftMatch(a: string, b: string, p: string, i: nat)
    requires IsWord(p) && i <= |b| && MatchAt(b, p, i)
    requires a == [] || !IsWordChar(a[|a| - 1])
    requires Occurrences(a + b, p, |a| + (i + |p|)) == Occurrences(b, p, i + |p|)
    ensures Occurrences(a + b, p, |a| + i) == Occurrences(b, p, i)
  {
    MatchShift(a, b, p, i);
    OccurrencesStep(a + b, p, |a| + i);
    OccurrencesStep(b, p, i);
  }

  /** A skip step of `OccurrencesShift`: both scans pass over the position without reporting. */
  lemma ShiftSkip(a: string, b: string, p: string, i: nat)
    requires IsWord(p) && i <= |b| && !MatchAt(b, p, i)
    requires a == [] || !IsWordChar(a[|a| - 1])
    requires Occurrences(a + b, p, |a| + (i + 1)) == Occurrences(b, p, i + 1)
    ensures Occurrences(a + b, p, |a| + i) == Occurrences(b, p, i)
  {
    MatchShift(a, b, p, i);
    OccurrencesStep(a + b, p, |a| + i);
    OccurrencesStep(b, p, i);
  }

  /** After a non-word character, a match in the rest of the text is a match in that rest on its own. */
  lemma MatchShift(a: string, b: string, p: string, i: nat)
    requires IsWord(p) && i <= |b|
    requires a == [] || !IsWordChar(a[|a| - 1])
    ensures MatchAt(a + b, p, |a| + i) == MatchAt(b, p, i)
    ensures MatchAt(b, p, i) ==> (a + b)[|a| + i..|a| + i + |p|] == b[i..i + |p|]
  {
    var text := a + b;
    assert Boundary(text, |a| + i) == Boundary(b, i);
    if i + |p| <= |b| {
      assert text[|a| + i..|a| + i + |p|] == b[i..i + |p|];
      assert Boundary(text, |a| + i + |p|) == Boundary(b, i + |p|);
    }
  }

  /** One step of the scan: a match is reported and skipped, anything else is passed over. */
  lemma OccurrencesStep(text: string, p: string, i: nat)
    requires IsWord(p) && i <= |text|
    ensures MatchAt(text, p, i) ==> Occurrences(text, p, i) == [text[i..i + |p|]] + Occurrences(text, p, i + |p|)
    ensures !MatchAt(text, p, i) ==> Occurrences(text, p, i) == Occurrences(text, p, i + 1)
  {
  }

  /** Inside a run of word characters there is no word boundary, so no match starts there. */
  lemma NoMatchInsideWord(text: string, w: string, p: string, l: nat)
    requires IsWord(w) && IsWord(p) && |w| <= |text| && text[..|w|] == w && 0 < l < |w|
    ensures !MatchAt(text, p, l)
  {
    assert text[l - 1] == w[l - 1] && text[l] == w[l];
  }

  /** A match at the start of a word followed by a non-word character covers exactly that word. */
  lemma MatchAtWordStart(w: string, c: char, rest: string, p: string)
    requires IsWord(w) && IsWord(p) && !IsWordChar(c)
    ensures MatchAt(w + [c] + rest, p, 0) <==> Lower(w) == Lower(p)
  {
    var text := w + [c] + rest;
    if MatchAt(text, p, 0) {
      if |p| > |w| {
        assert text[|w|] == c;
        assert Lower(text[..|p|])[|w|] == Lower(p)[|w|];
        WordCharLower(c);
        WordCharLower(p[|w|]);
      }
      assert text[..|w|] == w;
    }
    if Lower(w) == Lower(p) {
      assert |w| == |p| && text[..|p|] == w;
    }
  }

  /** A word followed by a space: the scan reports the word when it spells the placeholder, then goes on after the space. */
  lemma WordThenSpace(w: string, rest: string, p: string)
    requires IsWord(w) && IsWord(p)
    ensures Occurrences(w + " " + rest, p, 0)
              == (if Lower(w) == Lower(p) then [w] else []) + Occurrences(rest, p, 0)
  {
    var text := w + " " + rest;
    MatchAtWordStart(w, ' ', rest, p);
    forall l | 0 < l < |w| ensures !MatchAt(text, p, l) {
      assert text[..|w|] == w;
      NoMatchInsideWord(text, w, p, l);
    }
    assert !MatchAt(text, p, |w|) by {
      if |w| + |p| <= |text| {
        assert Lower(text[|w|..|w| + |p|])[0] == ' ';
      }
    }
    OccurrencesShift(w + " ", rest, p, 0);
    assert text == (w + " ") + rest;
    if Lower(w) == Lower(p) {
      assert text[0..|p|] == w;
      SkipNoMatch(text, p, |w|, |w| + 1);
    } else {
      SkipNoMatch(text, p, 0, |w| + 1);
    }
  }

  /** A single word: the scan reports it exactly when it spells the placeholder. */
  lemma LastWord(w: string, p: string)
    requires IsWord(w) && IsWord(p)
    ensures Occurrences(w, p, 0) == if Lower(w) == Lower(p) then [w] else []
  {
    forall l | 0 < l < |w| ensures !MatchAt(w, p, l) {
      NoMatchInsideWord(w, w, p, l);
    }
    assert !MatchAt(w, p, |w|);
    if MatchAt(w, p, 0) {
      assert w[..|p|] == w;
      SkipNoMatch(w, p, |w|, |w| + 1);
    } else {
      SkipNoMatch(w, p, 0, |w| + 1);
    }
  }

  /** The words of `words` that spell `p` ignoring case, as written, in order. */
  function Spellings(words: seq<string>, p: string): seq<string>
  {
    if words == [] then []
    else (if Lower(words[0]) == Lower(p) then [words[0]] else []) + Spellings(words[1..], p)
  }

  lemma {:induction false} SpellingsMembers(words: seq<string>, p: string)
    ensures forall w :: w in Spellings(words, p) <==> w in words && Lower(w) == Lower(p)
  {
    if words != [] {
      SpellingsMembers(words[1..], p);
      assert words == [words[0]] + words[1..];
    }
  }

  /**
   * On words separated by single spaces, the scan reports exactly the words that
   * spell the placeholder ignoring case, as written, in order.
   */
  lemma {:induction false} OccurrencesInSentence(words: seq<string>, p: string)
    requires IsWord(p) && forall k :: 0 <= k < |words| ==> IsWord(words[k])
    ensures Occurrences(Join(words, " "), p, 0) == Spellings(words, p)
  {
    if words == [] {
      assert Join(words, " ") == [];
    } else if |words| == 1 {
      LastWord(words[0], p);
    } else {
      OccurrencesInSentence(words[1..], p);
      WordThenSpace(words[0], Join(words[1..], " "), p);
    }
  }

  /** For a sentence, the whole result is the spellings of each placeholder, in placeholder order. */
  lemma {:induction false} PlaceholderWordsInSentence(words: seq<string>, placeholders: seq<string>)
    requires forall k :: 0 <= k < |words| ==> IsWord(words[k])
    requires forall k :: 0 <= k < |placeholders| ==> IsWord(placeholders[k])
    ensures PlaceholderWords(Join(words, " "), placeholders) == SpellingsOfAll(words, placeholders)
  {
    if placeholders != [] {
      var n := |placeholders| - 1;
      PlaceholderWordsInSentence(words, placeholders[..n]);
      OccurrencesInSentence(words, placeholders[n]);
    }
  }

  /** The spellings of each placeholder in turn. */
  function SpellingsOfAll(words: seq<string>, placeholders: seq<string>): seq<string>
  {
    if placeholders == [] then []
    else
      var n := |placeholders| - 1;
      SpellingsOfAll(words, placeholders[..n]) + Spellings(words, placeholders[n])
  }

  lemma {:induction false} SpellingsAppend(a: seq<string>, b: seq<string>, p: string)
    ensures Spellings(a + b, p) == Spellings(a, p) + Spellings(b, p)
  {
    if a != [] {
      assert (a + b)[0] == a[0] && (a + b)[1..] == a[1..] + b;
      SpellingsAppend(a[1..], b, p);
      var head := if Lower(a[0]) == Lower(p) then [a[0]] else [];
      calc {
        Spellings(a + b, p);
        head + Spellings(a[1..] + b, p);
        head + (Spellings(a[1..], p) + Spellings(b, p));
        (head + Spellings(a[1..], p)) + Spellings(b, p);
      }
    } else {
      assert a + b == b;
    }
  }

  lemma {:induction false} JoinAppend(a: seq<string>, b: seq<string>, sep: string)
    requires a != [] && b != []
    ensures Join(a + b, sep) == Join(a, sep) + sep + Join(b, sep)
  {
    if |a| > 1 {
      assert (a + b)[1..] == a[1..] + b;
      JoinAppend(a[1..], b, sep);
    } else {
      assert (a + b)[1..] == b;
    }
  }

  /** The sentence of the placeholder unit test, in four runs of four words. */
  const Run1: seq<string> := ["This", "is", "an", "example"]
  const Run2: seq<string> := ["sentance", "with", "lorem", "Notsum"]
  const Run3: seq<string> := ["Lorem", "and", "TODO", "and"]
  const Run4: seq<string> := ["now", "klorem", "bipsum", "batkite"]
  const ExampleWords: seq<string> := Run1 + Run2 + Run3 + Run4
  const ExamplePlaceholders: seq<string> := ["lorem", "ipsum", "tk", "todo"]

  lemma ExampleWordsAreWords()
    ensures forall k :: 0 <= k < |ExampleWords| ==> IsWord(ExampleWords[k])
  {
  }

  lemma Run1Spellings()
    ensures Spellings(Run1, "lorem") == [] && Spellings(Run1, "ipsum") == []
    ensures Spellings(Run1, "tk") == [] && Spellings(Run1, "todo") == []
  {
    assert Lower("This")[1] != Lower("todo")[1];
    assert Lower("is")[0] != Lower("tk")[0];
    assert Lower("an")[0] != Lower("tk")[0];
  }

  lemma Run2Spellings()
    ensures Spellings(Run2, "lorem") == ["lorem"] && Spellings(Run2, "ipsum") == []
    ensures Spellings(Run2, "tk") == [] && Spellings(Run2, "todo") == []
  {
    assert Lower("with")[0] != Lower("todo")[0];
    assert Lower("lorem")[0] != Lower("ipsum")[0];
  }

  lemma Run3Spellings()
    ensures Spellings(Run3, "lorem") == ["Lorem"] && Spellings(Run3, "ipsum") == []
    ensures Spellings(Run3, "tk") == [] && Spellings(Run3, "todo") == ["TODO"]
  {
    assert Lower("Lorem")[0] != Lower("ipsum")[0];
  }

  lemma Run4Spellings()
    ensures Spellings(Run4, "lorem") == [] && Spellings(Run4, "ipsum") == []
    ensures Spellings(Run4, "tk") == [] && Spellings(Run4, "todo") == []
  {
  }

  lemma ExampleSpellings(p: string)
    requires p in ExamplePlaceholders
    ensures Spellings(ExampleWords, p)
              == Spellings(Run1, p) + Spellings(Run2, p) + Spellings(Run3, p) + Spellings(Run4, p)
  {
    SpellingsAppend(Run1, Run2, p);
    SpellingsAppend(Run1 + Run2, Run3, p);
    SpellingsAppend(Run1 + Run2 + Run3, Run4, p);
  }

  lemma ExampleWordSpellings()
    ensures Spellings(ExampleWords, "lorem") == ["lorem", "Lorem"]
    ensures Spellings(ExampleWords, "ipsum") == []
    ensures Spellings(ExampleWords, "tk") == []
    ensures Spellings(ExampleWords, "todo") == ["TODO"]
  {
    ExampleLorem();
    ExampleTodo();
    ExampleSpellingsMissing();
  }

  lemma ExampleLorem()
    ensures Spellings(ExampleWords, "lorem") == ["lorem", "Lorem"]
  {
    Run1Spellings();
    Run2Spellings();
    Run3Spellings();
    Run4Spellings();
    ExampleSpellings("lorem");
  }

  lemma ExampleTodo()
    ensures Spellings(ExampleWords, "todo") == ["TODO"]
  {
    Run1Spellings();
    Run2Spellings();
    Run3Spellings();
    Run4Spellings();
    ExampleSpellings("todo");
  }

  lemma ExampleSpellingsMissing()
    ensures Spellings(ExampleWords, "ipsum") == []
    ensures Spellings(ExampleWords, "tk") == []
  {
    Run1Spellings();
    Run2Spellings();
    Run3Spellings();
    Run4Spellings();
    ExampleSpellings("ipsum");
    ExampleSpellings("tk");
  }

  lemma ExampleSpellingsOfAll()
    ensures SpellingsOfAll(ExampleWords, ExamplePlaceholders) == ["lorem", "Lorem", "TODO"]
  {
    var w := ExampleWords;
    ExampleWordSpellings();
    assert ["lorem"][..0] == [];
    assert SpellingsOfAll(w, ["lorem"]) == SpellingsOfAll(w, []) + Spellings(w, "lorem");
    assert ["lorem", "ipsum"][..1] == ["lorem"];
    assert SpellingsOfAll(w, ["lorem", "ipsum"]) == SpellingsOfAll(w, ["lorem"]) + Spellings(w, "ipsum");
    assert ["lorem", "ipsum", "tk"][..2] == ["lorem", "ipsum"];
    assert SpellingsOfAll(w, ["lorem", "ipsum", "tk"]) == SpellingsOfAll(w, ["lorem", "ipsum"]) + Spellings(w, "tk");
    assert ExamplePlaceholders[..3] == ["lorem", "ipsum", "tk"];
  }

  /**
   * The placeholder unit test: in the sentence "This is an example sentance with lorem
   * Notsum Lorem and TODO and now klorem bipsum batkite", `lorem`, `Lorem` and `TODO`
   * are found; `klorem`, `bipsum` and `batkite` are not.
   */
  lemma PlaceholderExample()
    ensures PlaceholderWords(Join(ExampleWords, " "), ExamplePlaceholders) == ["lorem", "Lorem", "TODO"]
  {
    ExampleWordsAreWords();
    PlaceholderWordsInSentence(ExampleWords, ExamplePlaceholders);
    ExampleSpellingsOfAll();
  }
}
