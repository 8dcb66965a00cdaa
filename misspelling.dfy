/**
 * `get_misspelled_words`: normalise the text, split it into words, drop stop words,
 * numbers and punctuation, set aside what looks like a proper noun, and report
 * the words that neither the dictionary, the spelling library nor the
 * morphological simplifier accepts.
 */
module Misspelling {
  import opened Text
  import opened Affixes
  import opened Simplifier
  import opened Normalizer

  /**
   * What the analysis takes from outside this model: the text passes that are not
   * modelled, the stop-word list, and the spelling library's `unknown`, which
   * receives the words not in the dictionary and returns the ones it does not
   * know, in the order the returned set is iterated.
   */
  datatype Externals = Externals(
    stages: Stages,
    stopWords: set<string>,
    unknown: set<string> -> seq<string>)

  // ---------------------------------------------------------------------------
  // From text to candidate words
  // ---------------------------------------------------------------------------

  /**
   * The words whose lower-case form is not in `excluded`, in order: the stop-word
   * filter, and later the proper-noun filter.
   */
  function WithoutLowered(words: seq<string>, excluded: set<string>): (r: seq<string>)
    ensures |r| <= |words|
    ensures forall w :: w in r <==> w in words && Lower(w) !in excluded
  {
    if words == [] then []
    else (if Lower(words[0]) !in excluded then [words[0]] else []) + WithoutLowered(words[1..], excluded)
  }

  /** Whether a token is stripped of punctuation rather than dropped: it is non-empty and does not start with a digit. */
  predicate Wordlike(w: string)
  {
    w != [] && !IsDigit(w[0])
  }

  /** The word-like tokens with punctuation stripped from both ends, in order. */
  function StrippedWords(words: seq<string>): (r: seq<string>)
    ensures |r| <= |words|
    ensures forall v :: v in words && Wordlike(v) ==> Strip(v) in r
  {
    if words == [] then []
    else
      var rest := StrippedWords(words[1..]);
      assert forall v :: v in words ==> v == words[0] || v in words[1..];
      (if Wordlike(words[0]) then [Strip(words[0])] else []) + rest
  }

  /** Every stripped word comes from a word-like token. */
  lemma {:induction false} StrippedWordOrigin(words: seq<string>, w: string)
    requires w in StrippedWords(words)
    ensures exists v :: v in words && Wordlike(v) && w == Strip(v)
  {
    if !(Wordlike(words[0]) && w == Strip(words[0])) {
      StrippedWordOrigin(words[1..], w);
      var v :| v in words[1..] && Wordlike(v) && w == Strip(v);
      assert v in words;
    }
  }

  /** The non-empty words, in order. */
  function NonEmptyWords(words: seq<string>): (r: seq<string>)
    ensures |r| <= |words|
    ensures forall w :: w in r <==> w in words && w != []
  {
    if words == [] then []
    else (if words[0] != [] then [words[0]] else []) + NonEmptyWords(words[1..])
  }

  /** `remove_empty_words`: the words of the normalised text that go on to the checks. */
  function CandidateWords(text: string, stopWords: set<string>): seq<string>
  {
    NonEmptyWords(StrippedWords(WithoutLowered(Split(text), stopWords)))
  }

  /**
   * A candidate is a non-empty piece of a space-separated token of the text whose
   * lower-case form is not a stop word and which does not start with a digit; the
   * piece is the token with the punctuation at both ends removed, so it neither
   * starts nor ends with punctuation and holds no space.
   */
  lemma {:induction false} CandidateWordsSpec(text: string, stopWords: set<string>, w: string)
    requires w in CandidateWords(text, stopWords)
    ensures w != [] && ' ' !in w
    ensures !IsPunctuation(w[0]) && !IsPunctuation(w[|w| - 1])
    ensures exists v :: v in Split(text) && Lower(v) !in stopWords && Wordlike(v) && w == Strip(v)
  {
    var kept := WithoutLowered(Split(text), stopWords);
    var stripped := StrippedWords(kept);
    assert w in stripped && w != [];
    StrippedWordOrigin(kept, w);
    var v :| v in kept && Wordlike(v) && w == Strip(v);
    assert v in Split(text) && Lower(v) !in stopWords;
    TokenHasNoSpace(Split(text), v);
    StripOfToken(v);
  }

  /** A token of `Split` holds no space. */
  lemma TokenHasNoSpace(tokens: seq<string>, v: string)
    requires forall k :: 0 <= k < |tokens| ==> ' ' !in tokens[k]
    requires v in tokens
    ensures ' ' !in v
  {
    var k :| 0 <= k < |tokens| && tokens[k] == v;
  }

  /** Stripping a token without spaces leaves a piece without spaces and without punctuation at its ends. */
  lemma StripOfToken(v: string)
    requires ' ' !in v
    ensures ' ' !in Strip(v)
    ensures Strip(v) != [] ==> !IsPunctuation(Strip(v)[0]) && !IsPunctuation(Strip(v)[|Strip(v)| - 1])
  {
    StripSpec(v);
    var i := |v| - |TrimStart(v)|;
    var j := i + |Strip(v)|;
    assert forall c :: c in v[i..j] ==> c in v;
  }

  // ---------------------------------------------------------------------------
  // Proper nouns
  // ---------------------------------------------------------------------------

  /**
   * A capitalised word whose lower-case form does not simplify to a dictionary word
   * is taken for a proper noun.
   */
  predicate IsProperNoun(word: string, tables: Tables, dictionary: set<string>)
    requires ShrinkingTables(tables)
  {
    word != [] && IsUpper(word[0]) && !IsInDictionary(Simplify(Lower(word), tables, dictionary), dictionary)
  }

  /** `proper_nouns`: the proper nouns among `words`, stripped of punctuation, in order. */
  function ProperNouns(words: seq<string>, tables: Tables, dictionary: set<string>): (r: seq<string>)
    requires ShrinkingTables(tables)
    ensures |r| <= |words|
    ensures forall w :: w in words && IsProperNoun(w, tables, dictionary) ==> Strip(w) in r
  {
    if words == [] then []
    else
      var front := words[..|words| - 1];
      var last := words[|words| - 1];
      var rest := ProperNouns(front, tables, dictionary);
      assert words == front + [last];
      rest + (if IsProperNoun(last, tables, dictionary) then [Strip(last)] else [])
  }

  /** Every entry of `proper_nouns` is a proper noun of the words, stripped. */
  lemma {:induction false} ProperNounOrigin(words: seq<string>, tables: Tables, dictionary: set<string>, p: string)
    requires ShrinkingTables(tables)
    requires p in ProperNouns(words, tables, dictionary)
    ensures exists w :: w in words && IsProperNoun(w, tables, dictionary) && p == Strip(w)
  {
    var front, last := words[..|words| - 1], words[|words| - 1];
    assert words == front + [last];
    if !(IsProperNoun(last, tables, dictionary) && p == Strip(last)) {
      ProperNounOrigin(front, tables, dictionary, p);
      var w :| w in front && IsProperNoun(w, tables, dictionary) && p == Strip(w);
      assert w in words;
    }
  }

  /** `proper_nouns_lower`: every word in lower case. */
  function LowerAll(words: seq<string>): (r: seq<string>)
    ensures |r| == |words|
    ensures forall k :: 0 <= k < |words| ==> r[k] == Lower(words[k])
  {
    seq(|words|, k requires 0 <= k < |words| => Lower(words[k]))
  }

  // ---------------------------------------------------------------------------
  // The checks
  // ---------------------------------------------------------------------------

  /** `check_words`: the distinct candidates that are not proper nouns. */
  function CheckWords(words: seq<string>, properNouns: seq<string>): set<string>
  {
    var lowered := set p | p in LowerAll(properNouns);
    set w | w in WithoutLowered(words, lowered)
  }

  /** `words_not_in_dict`: the words whose lower-case form is not a dictionary word. */
  function NotInDictionary(words: set<string>, dictionary: set<string>): (r: set<string>)
    ensures r <= words
    ensures forall w :: w in words && !IsInDictionary(Lower(w), dictionary) ==> w in r
    ensures forall w :: w in r ==> !IsInDictionary(Lower(w), dictionary)
  {
    set w | w in words && !IsInDictionary(Lower(w), dictionary)
  }

  /**
   * `misspelled`: for each word the spelling library does not know, in its order,
   * the simplified word when it is not a dictionary word.
   */
  function Misspelled(unknown: seq<string>, tables: Tables, dictionary: set<string>): (r: seq<string>)
    requires ShrinkingTables(tables)
    ensures |r| <= |unknown|
    ensures forall k :: 0 <= k < |r| ==> !IsInDictionary(r[k], dictionary)
  {
    if unknown == [] then []
    else
      var front := unknown[..|unknown| - 1];
      var simplified := Simplify(unknown[|unknown| - 1], tables, dictionary);
      var rest := Misspelled(front, tables, dictionary);
      rest + (if !IsInDictionary(simplified, dictionary) then [simplified] else [])
  }

  /** Every reported word is the simplification of a word the spelling library did not know. */
  lemma {:induction false} MisspelledOrigin(unknown: seq<string>, tables: Tables, dictionary: set<string>, m: string)
    requires ShrinkingTables(tables)
    requires m in Misspelled(unknown, tables, dictionary)
    ensures exists u :: u in unknown && m == Simplify(u, tables, dictionary)
  {
    var front, last := unknown[..|unknown| - 1], unknown[|unknown| - 1];
    assert unknown == front + [last];
    if m != Simplify(last, tables, dictionary) {
      MisspelledOrigin(front, tables, dictionary, m);
      var u :| u in front && m == Simplify(u, tables, dictionary);
      assert u in unknown;
    }
  }

  /** The words `unknown` is asked about. */
  function Queried(raw: string, tables: Tables, dictionary: set<string>, ext: Externals): set<string>
    requires ShrinkingTables(tables)
  {
    var words := CandidateWords(Normalize(raw, ext.stages), ext.stopWords);
    NotInDictionary(CheckWords(words, ProperNouns(words, tables, dictionary)), dictionary)
  }

  /** What `get_misspelled_words` returns. */
  function MisspelledWords(raw: string, tables: Tables, dictionary: set<string>, ext: Externals): seq<string>
    requires ShrinkingTables(tables)
  {
    Misspelled(ext.unknown(Queried(raw, tables, dictionary, ext)), tables, dictionary)
  }

  /** The proper-noun loop of `get_misspelled_words`. */
  method CollectProperNouns(words: seq<string>, tables: Tables, dictionary: set<string>)
    returns (properNouns: seq<string>)
    requires ShrinkingTables(tables)
    requires forall k :: 0 <= k < |words| ==> words[k] != []
    ensures properNouns == ProperNouns(words, tables, dictionary)
  {
    properNouns := [];
    var i := 0;
    while i < |words|
      invariant 0 <= i <= |words|
      invariant properNouns == ProperNouns(words[..i], tables, dictionary)
    {
      var word := words[i];
      assert words[..i + 1] == words[..i] + [word];
      if IsUpper(word[0]) {
        var simplified := SimplifyWord(Lower(word), tables, dictionary);
        if !IsInDictionary(simplified, dictionary) {
          properNouns := properNouns + [Strip(word)];
        }
      }
      i := i + 1;
    }
    assert words[..|words|] == words;
  }

  /** The final loop of `get_misspelled_words`: simplify each unknown word and keep the failures. */
  method CollectMisspelled(unknown: seq<string>, tables: Tables, dictionary: set<string>)
    returns (misspelled: seq<string>)
    requires ShrinkingTables(tables)
    ensures misspelled == Misspelled(unknown, tables, dictionary)
  {
    misspelled := [];
    var j := 0;
    while j < |unknown|
      invariant 0 <= j <= |unknown|
      invariant misspelled == Misspelled(unknown[..j], tables, dictionary)
    {
      var simplified := SimplifyWord(unknown[j], tables, dictionary);
      assert unknown[..j + 1] == unknown[..j] + [unknown[j]];
      if !IsInDictionary(simplified, dictionary) {
        misspelled := misspelled + [simplified];
      }
      j := j + 1;
    }
    assert unknown[..|unknown|] == unknown;
  }

  /** `get_misspelled_words`. */
  method GetMisspelledWords(raw: string, tables: Tables, dictionary: set<string>, ext: Externals)
    returns (misspelled: seq<string>)
    requires ShrinkingTables(tables)
    ensures misspelled == MisspelledWords(raw, tables, dictionary, ext)
    ensures forall k :: 0 <= k < |misspelled| ==> !IsInDictionary(misspelled[k], dictionary)
    ensures |misspelled| <= |ext.unknown(Queried(raw, tables, dictionary, ext))|
  {
    var text := Normalize(raw, ext.stages);
    var words := CandidateWords(text, ext.stopWords);
    assert forall k :: 0 <= k < |words| ==> words[k] in words;
    var properNouns := CollectProperNouns(words, tables, dictionary);
    var checkWords := CheckWords(words, properNouns);
    var wordsNotInDict := NotInDictionary(checkWords, dictionary);
    var unknown := ext.unknown(wordsNotInDict);
    misspelled := CollectMisspelled(unknown, tables, dictionary);
  }

  // ---------------------------------------------------------------------------
  // What the analysis guarantees
  // ---------------------------------------------------------------------------

  /**
   * A proper noun is set aside in every spelling: once a word is taken for a proper
   * noun, no candidate equal to it up to case is checked.
   */
  lemma ProperNounsExcluded(words: seq<string>, tables: Tables, dictionary: set<string>, p: string, w: string)
    requires ShrinkingTables(tables)
    requires p in words && IsProperNoun(p, tables, dictionary) && Strip(p) == p
    requires Lower(w) == Lower(p)
    ensures w !in CheckWords(words, ProperNouns(words, tables, dictionary))
  {
    var proper := ProperNouns(words, tables, dictionary);
    assert p in proper;
    var k :| 0 <= k < |proper| && proper[k] == p;
    assert LowerAll(proper)[k] == Lower(w);
  }

  /** In particular the all-lower-case spelling of a proper noun is not checked. */
  lemma LowerSpellingExcluded(words: seq<string>, tables: Tables, dictionary: set<string>, p: string)
    requires ShrinkingTables(tables)
    requires p in words && IsProperNoun(p, tables, dictionary) && Strip(p) == p
    ensures Lower(p) !in CheckWords(words, ProperNouns(words, tables, dictionary))
  {
    LowerIdempotent(p);
    ProperNounsExcluded(words, tables, dictionary, p, Lower(p));
  }

  /**
   * The words the analysis checks are exactly the candidates whose lower-case form
   * matches no proper noun's.
   */
  lemma CheckWordsSpec(words: seq<string>, properNouns: seq<string>, w: string)
    ensures w in CheckWords(words, properNouns) <==>
              w in words && forall p :: p in properNouns ==> Lower(p) != Lower(w)
  {
    var lowered := set q | q in LowerAll(properNouns);
    if w in CheckWords(words, properNouns) {
      forall p | p in properNouns ensures Lower(p) != Lower(w) {
        var k :| 0 <= k < |properNouns| && properNouns[k] == p;
        assert LowerAll(properNouns)[k] == Lower(p);
      }
    } else if w in words {
      assert Lower(w) in lowered;
      var k :| 0 <= k < |properNouns| && LowerAll(properNouns)[k] == Lower(w);
      assert properNouns[k] in properNouns;
    }
  }

  /**
   * The words handed to the spelling library are exactly the candidates that match
   * no proper noun up to case and whose lower-case form is not a dictionary word.
   */
  lemma QueriedSpec(raw: string, tables: Tables, dictionary: set<string>, ext: Externals, u: string)
    requires ShrinkingTables(tables)
    ensures var words := CandidateWords(Normalize(raw, ext.stages), ext.stopWords);
            u in Queried(raw, tables, dictionary, ext) <==>
              u in words && (forall p :: p in ProperNouns(words, tables, dictionary) ==> Lower(p) != Lower(u))
              && !IsInDictionary(Lower(u), dictionary)
  {
    var words := CandidateWords(Normalize(raw, ext.stages), ext.stopWords);
    CheckWordsSpec(words, ProperNouns(words, tables, dictionary), u);
  }

  /** Every word the spelling library does not know is reported unless it simplifies to a dictionary word. */
  lemma {:induction false} MisspelledComplete(unknown: seq<string>, tables: Tables, dictionary: set<string>, u: string)
    requires ShrinkingTables(tables)
    requires u in unknown && !IsInDictionary(Simplify(u, tables, dictionary), dictionary)
    ensures Simplify(u, tables, dictionary) in Misspelled(unknown, tables, dictionary)
  {
    var front, last := unknown[..|unknown| - 1], unknown[|unknown| - 1];
    assert unknown == front + [last];
    if u != last {
      MisspelledComplete(front, tables, dictionary, u);
    }
  }

  /**
   * When the spelling library only ever reports words it was asked about, every
   * reported word is the simplification of a checked word whose lower-case form
   * is not in the dictionary, and it is not a dictionary word itself.
   */
  lemma MisspelledComeFromQueries(raw: string, tables: Tables, dictionary: set<string>, ext: Externals, m: string)
    requires ShrinkingTables(tables)
    requires forall s :: forall u :: u in ext.unknown(s) ==> u in s
    requires m in MisspelledWords(raw, tables, dictionary, ext)
    ensures !IsInDictionary(m, dictionary)
    ensures exists u :: u in Queried(raw, tables, dictionary, ext) && !IsInDictionary(Lower(u), dictionary)
              && m == Simplify(u, tables, dictionary)
  {
    var queried := Queried(raw, tables, dictionary, ext);
    var out := MisspelledWords(raw, tables, dictionary, ext);
    MisspelledOrigin(ext.unknown(queried), tables, dictionary, m);
    var u :| u in ext.unknown(queried) && m == Simplify(u, tables, dictionary);
    assert u in queried;
  }

  /**
   * Nothing the spelling library flags is lost: each word it returns whose
   * simplification is not a dictionary word is in the report, as that simplification.
   */
  lemma UnknownWordsReported(raw: string, tables: Tables, dictionary: set<string>, ext: Externals, u: string)
    requires ShrinkingTables(tables)
    requires u in ext.unknown(Queried(raw, tables, dictionary, ext))
    requires !IsInDictionary(Simplify(u, tables, dictionary), dictionary)
    ensures Simplify(u, tables, dictionary) in MisspelledWords(raw, tables, dictionary, ext)
  {
    MisspelledComplete(ext.unknown(Queried(raw, tables, dictionary, ext)), tables, dictionary, u);
  }

  /** The tables `get_misspelled_words` uses are the loaded ones. */
  method GetMisspelledWordsWithLoadedTables(raw: string, dictionary: set<string>, ext: Externals)
    returns (misspelled: seq<string>)
    ensures ShrinkingTables(Loaded) && misspelled == MisspelledWords(raw, Loaded, dictionary, ext)
  {
    LoadedTables();
    misspelled := GetMisspelledWords(raw, Loaded, dictionary, ext);
  }
}
