/**
 * The text passes `get_misspelled_words` runs before it splits the text into words:
 * `remove_emails`, `remove_hashes`, the typographic translation table, the
 * character replacements, the possessive removal and the collapse of runs of
 * blanks, each as a function on `string`.
 *
 * Each regular-expression substitution is written as the left-to-right scan
 * Python's `re.sub` performs for that particular pattern.
 */
module Normalizer {
  import opened Text

  /** The number of leading characters of `s` that satisfy `p`. */
  function Span(s: string, p: char -> bool): (n: nat)
    ensures n <= |s|
    ensures forall i :: 0 <= i < n ==> p(s[i])
    ensures n < |s| ==> !p(s[n])
  {
    if s == [] || !p(s[0]) then 0 else 1 + Span(s[1..], p)
  }

  /** A span is measured up to the first character that fails `p`. */
  lemma {:induction false} SpanOfRun(w: string, rest: string, p: char -> bool)
    requires forall i :: 0 <= i < |w| ==> p(w[i])
    requires rest == [] || !p(rest[0])
    ensures Span(w + rest, p) == |w|
  {
    if w != [] {
      assert (w + rest)[1..] == w[1..] + rest;
      SpanOfRun(w[1..], rest, p);
    }
  }

  predicate NotSpace(c: char)
  {
    !IsSpace(c)
  }

  // ---------------------------------------------------------------------------
  // remove_emails: re.sub(r"\S*@\S*\s?", " ", input)
  // ---------------------------------------------------------------------------

  /**
   * A pattern match can only begin inside a run of non-space characters that holds
   * an `@`; the scan reaches the start of that run first, and the greedy `\S*` then
   * runs to its end. So every such run, with the one whitespace character after
   * it if there is one, becomes a single space; everything else is kept.
   */
  function RemoveEmails(s: string): (r: string)
    ensures '@' !in r
    ensures forall i :: 0 <= i < |r| ==> r[i] == ' ' || r[i] in s
    ensures '@' !in s ==> r == s
  {
    if s == [] then []
    else if IsSpace(s[0]) then
      var rest := RemoveEmails(s[1..]);
      [s[0]] + rest
    else
      var n := Span(s, NotSpace);
      if '@' in s[..n] then
        var skip := if n < |s| then n + 1 else n;
        var rest := RemoveEmails(s[skip..]);
        assert forall i :: 0 <= i < |rest| && rest[i] in s[skip..] ==> rest[i] in s;
        " " + rest
      else
        var rest := RemoveEmails(s[n..]);
        assert forall i :: 0 <= i < |rest| && rest[i] in s[n..] ==> rest[i] in s;
        assert '@' !in s ==> s == s[..n] + s[n..];
        s[..n] + rest
  }

  /** A run of non-space characters holding an `@`, with the whitespace after it, becomes one space. */
  lemma EmailRunRemoved(w: string, c: char, rest: string)
    requires w != [] && '@' in w && forall i :: 0 <= i < |w| ==> !IsSpace(w[i])
    requires IsSpace(c)
    ensures RemoveEmails(w + [c] + rest) == " " + RemoveEmails(rest)
  {
    var s := w + [c] + rest;
    assert s == w + ([c] + rest);
    SpanOfRun(w, [c] + rest, NotSpace);
    assert s[..|w|] == w && s[|w| + 1..] == rest;
  }

  /** A run of non-space characters without an `@` is kept as it is. */
  lemma PlainRunKept(w: string, rest: string)
    requires w != [] && '@' !in w && forall i :: 0 <= i < |w| ==> !IsSpace(w[i])
    requires rest == [] || IsSpace(rest[0])
    ensures RemoveEmails(w + rest) == w + RemoveEmails(rest)
  {
    var s := w + rest;
    SpanOfRun(w, rest, NotSpace);
    assert s[..|w|] == w && s[|w|..] == rest;
  }

  /** Whitespace outside an address is copied, and the scan moves on by one. */
  lemma SpaceKept(c: char, rest: string)
    requires IsSpace(c)
    ensures RemoveEmails([c] + rest) == [c] + RemoveEmails(rest)
  {
    assert ([c] + rest)[1..] == rest;
  }

  /** A run of non-space characters holding an `@` that ends the text becomes one space. */
  lemma EmailRunEndsText(w: string)
    requires w != [] && '@' in w && forall i :: 0 <= i < |w| ==> !IsSpace(w[i])
    ensures RemoveEmails(w) == " "
  {
    SpanOfRun(w, [], NotSpace);
    assert w + [] == w && w[..|w|] == w && w[|w|..] == [];
  }

  // ---------------------------------------------------------------------------
  // remove_hashes: re.sub(r"#(\w+)", " ", input)
  // ---------------------------------------------------------------------------

  /** A `#` followed by the longest run of word characters after it (at least one) becomes a space. */
  function RemoveHashes(s: string): (r: string)
    ensures r != [] ==> s != [] && (r[0] == ' ' || r[0] == s[0])
    ensures forall i :: 0 <= i < |r| - 1 && r[i] == '#' ==> !IsWordChar(r[i + 1])
    ensures '#' !in s ==> r == s
  {
    if s == [] then []
    else if s[0] == '#' && |s| >= 2 && IsWordChar(s[1]) then
      var n := Span(s[1..], IsWordChar);
      " " + RemoveHashes(s[1 + n..])
    else
      var rest := RemoveHashes(s[1..]);
      assert '#' !in s ==> s == [s[0]] + s[1..];
      [s[0]] + rest
  }

  /** A hashtag is replaced by one space; the scan resumes right after it. */
  lemma HashtagRemoved(w: string, rest: string)
    requires w != [] && forall i :: 0 <= i < |w| ==> IsWordChar(w[i])
    requires rest == [] || !IsWordChar(rest[0])
    ensures RemoveHashes("#" + w + rest) == " " + RemoveHashes(rest)
  {
    var s := "#" + w + rest;
    assert s[1..] == w + rest;
    SpanOfRun(w, rest, IsWordChar);
    assert s[1 + |w|..] == rest;
  }

  /** A character that does not start a hashtag is copied, and the scan moves on by one. */
  lemma NonHashtagKept(c: char, rest: string)
    requires !(c == '#' && rest != [] && IsWordChar(rest[0]))
    ensures RemoveHashes([c] + rest) == [c] + RemoveHashes(rest)
  {
    assert ([c] + rest)[1..] == rest;
  }

  // ---------------------------------------------------------------------------
  // The typographic translation table and str.replace
  // ---------------------------------------------------------------------------

  /** The characters the translation table rewrites to something else. */
  predicate IsTypographic(c: char)
  {
    c in {'‘', '’', '´', '“', '”', '–', '—', '⁃',
          '‐', '…', '●', '•', '∙', '©'}
  }

  /**
   * The translation table: curly and acute quotes become straight quotes, the
   * dashes, bullets and the copyright sign become `-`, and the ellipsis becomes a
   * single `.`; `'` and `-` map to themselves and every other character is kept.
   */
  function TranslateChar(c: char): (r: char)
    ensures !IsTypographic(r)
    ensures !IsTypographic(c) ==> r == c
    ensures IsTypographic(c) ==> r in {'\'', '"', '-', '.'}
  {
    match c
    case '‘' => '\''
    case '’' => '\''
    case '´' => '\''
    case '“' => '"'
    case '”' => '"'
    case '–' => '-'
    case '—' => '-'
    case '⁃' => '-'
    case '‐' => '-'
    case '…' => '.'
    case '●' => '-'
    case '•' => '-'
    case '∙' => '-'
    case '©' => '-'
    case _ => c
  }

  /** `str.translate` with the typographic table. */
  function Translate(s: string): (r: string)
    ensures |r| == |s|
    ensures forall i :: 0 <= i < |s| ==> r[i] == TranslateChar(s[i])
  {
    seq(|s|, i requires 0 <= i < |s| => TranslateChar(s[i]))
  }

  /** After translation no typographic character is left, and every other character is where it was. */
  lemma TranslateSpec(s: string)
    ensures forall i :: 0 <= i < |s| ==> !IsTypographic(Translate(s)[i])
    ensures forall i :: 0 <= i < |s| && !IsTypographic(s[i]) ==> Translate(s)[i] == s[i]
    ensures Translate(Translate(s)) == Translate(s)
  {
    assert forall i :: 0 <= i < |s| ==> Translate(Translate(s))[i] == Translate(s)[i];
  }

  /** `s.replace(from, to)` for one-character `from` and `to`. */
  function Replace(s: string, from: char, to: char): (r: string)
    ensures |r| == |s|
    ensures forall i :: 0 <= i < |s| ==> r[i] == (if s[i] == from then to else s[i])
  {
    seq(|s|, i requires 0 <= i < |s| => if s[i] == from then to else s[i])
  }

  /** After a replacement `from` is gone (unless it is its own replacement) and nothing but `to` appears. */
  lemma ReplaceSpec(s: string, from: char, to: char, c: char)
    ensures from != to ==> from !in Replace(s, from, to)
    ensures c in Replace(s, from, to) ==> c == to || (c in s && c != from)
  {
    var r := Replace(s, from, to);
    if c in r {
      var i :| 0 <= i < |r| && r[i] == c;
      assert s[i] == from || s[i] == c;
    }
  }

  // ---------------------------------------------------------------------------
  // Possessives: re.sub("'s ", " ", text)
  // ---------------------------------------------------------------------------

  /** Whether `'s ` occurs in `s` at position `i`. */
  predicate PossessiveAt(s: string, i: nat)
  {
    i + 3 <= |s| && s[i] == '\'' && s[i + 1] == 's' && s[i + 2] == ' '
  }

  /** Each `'s ` found scanning from the left becomes a single space. */
  function RemovePossessives(s: string): (r: string)
    ensures |r| <= |s|
    ensures forall i :: 0 <= i < |r| ==> r[i] in s
    ensures (forall i: nat :: !PossessiveAt(s, i)) ==> r == s
  {
    if s == [] then []
    else if PossessiveAt(s, 0) then
      var rest := RemovePossessives(s[3..]);
      assert forall i :: 0 <= i < |rest| && rest[i] in s[3..] ==> rest[i] in s;
      " " + rest
    else
      var rest := RemovePossessives(s[1..]);
      assert forall i :: 0 <= i < |rest| && rest[i] in s[1..] ==> rest[i] in s;
      assert forall i: nat :: PossessiveAt(s[1..], i) ==> PossessiveAt(s, i + 1);
      [s[0]] + rest
  }

  /** A `'s ` at the scan position becomes one space, and the scan resumes after it. */
  lemma PossessiveRemoved(rest: string)
    ensures RemovePossessives("'s " + rest) == " " + RemovePossessives(rest)
  {
    assert ("'s " + rest)[3..] == rest;
  }

  /** A character that does not start `'s ` is copied, and the scan moves on by one. */
  lemma PossessiveKept(c: char, rest: string)
    requires !PossessiveAt([c] + rest, 0)
    ensures RemovePossessives([c] + rest) == [c] + RemovePossessives(rest)
  {
    assert ([c] + rest)[1..] == rest;
  }

  /** The scan does not look at what it has already written: `'s's ` keeps the first `'s`. */
  lemma PossessiveScanIsSinglePass()
    ensures RemovePossessives("'s's ") == "'s "
  {
    assert "'s's "[1..] == "s's ";
    assert "s's "[1..] == "'s ";
    assert "'s "[3..] == "";
  }

  // ---------------------------------------------------------------------------
  // re.sub("[ \t]+", " ", text)
  // ---------------------------------------------------------------------------

  predicate IsBlank(c: char)
  {
    c == ' ' || c == '\t'
  }

  /** The characters of `s` that are not blanks, in order. */
  function NonBlank(s: string): (r: string)
    ensures |r| <= |s|
  {
    if s == [] then []
    else (if IsBlank(s[0]) then [] else [s[0]]) + NonBlank(s[1..])
  }

  /** Whether `s` holds no tab and no two spaces in a row. */
  predicate Condensed(s: string)
  {
    '\t' !in s && forall i :: 0 <= i < |s| - 1 ==> !(s[i] == ' ' && s[i + 1] == ' ')
  }

  /** Every run of spaces and tabs becomes one space. */
  function CollapseBlanks(s: string): (r: string)
    ensures Condensed(r)
    ensures NonBlank(r) == NonBlank(s)
    ensures r != [] <==> s != []
    ensures r != [] ==> (r[0] == ' ' <==> IsBlank(s[0]))
  {
    if s == [] then []
    else if IsBlank(s[0]) then
      var n := Span(s, IsBlank);
      var rest := CollapseBlanks(s[n..]);
      BlankPrefix(s, n);
      " " + rest
    else
      [s[0]] + CollapseBlanks(s[1..])
  }

  /** A maximal run of blanks becomes one space, and the scan resumes after it. */
  lemma BlankRunCollapsed(b: string, rest: string)
    requires b != [] && forall i :: 0 <= i < |b| ==> IsBlank(b[i])
    requires rest == [] || !IsBlank(rest[0])
    ensures CollapseBlanks(b + rest) == " " + CollapseBlanks(rest)
  {
    SpanOfRun(b, rest, IsBlank);
    assert (b + rest)[|b|..] == rest;
  }

  /** A character that is not a blank is copied, and the scan moves on by one. */
  lemma NonBlankKept(c: char, rest: string)
    requires !IsBlank(c)
    ensures CollapseBlanks([c] + rest) == [c] + CollapseBlanks(rest)
  {
    assert ([c] + rest)[1..] == rest;
  }

  /** A prefix of blanks contributes nothing to `NonBlank`. */
  lemma {:induction false} BlankPrefix(s: string, n: nat)
    requires n <= |s| && forall i :: 0 <= i < n ==> IsBlank(s[i])
    ensures NonBlank(s) == NonBlank(s[n..])
  {
    if n > 0 {
      BlankPrefix(s[1..], n - 1);
      assert s[1..][n - 1..] == s[n..];
    }
  }

  /** Text that is already condensed is left as it is, so collapsing twice is collapsing once. */
  lemma {:induction false} CollapseCondensed(s: string)
    requires Condensed(s)
    ensures CollapseBlanks(s) == s
  {
    if s != [] {
      assert Condensed(s[1..]) by {
        forall i | 0 <= i < |s[1..]| - 1 ensures !(s[1..][i] == ' ' && s[1..][i + 1] == ' ') {
          assert s[1..][i] == s[i + 1] && s[1..][i + 1] == s[i + 2];
        }
      }
      CollapseCondensed(s[1..]);
      if IsBlank(s[0]) {
        assert Span(s, IsBlank) == 1 by {
          assert |s| > 1 ==> s[1] != ' ';
        }
      }
    }
  }

  lemma CollapseIdempotent(s: string)
    ensures CollapseBlanks(CollapseBlanks(s)) == CollapseBlanks(s)
  {
    CollapseCondensed(CollapseBlanks(s));
  }

  /** Collapsing introduces no character other than the space. */
  lemma {:induction false} CollapseKeepsCharacters(s: string, c: char)
    requires c != ' ' && c !in s
    ensures c !in CollapseBlanks(s)
  {
    if s != [] {
      if IsBlank(s[0]) {
        var n := Span(s, IsBlank);
        assert c !in s[n..];
        CollapseKeepsCharacters(s[n..], c);
      } else {
        assert c !in s[1..];
        CollapseKeepsCharacters(s[1..], c);
      }
    }
  }

  // ---------------------------------------------------------------------------
  // The whole normalisation
  // ---------------------------------------------------------------------------

  /**
   * The passes that are not part of this model (`remove_urls`,
   * `remove_phonenumbers`, `contractions.fix` and `remove_acronyms`), given as
   * functions.
   */
  datatype Stages = Stages(
    removeUrls: string -> string,
    removePhoneNumbers: string -> string,
    fixContractions: string -> string,
    removeAcronyms: string -> string)

  /** The zero-width space the text may carry. */
  const ZeroWidthSpace: char := '\U{200B}'

  /** The text `get_misspelled_words` splits into words. */
  function Normalize(raw: string, stages: Stages): (r: string)
    ensures Condensed(r)
    ensures ZeroWidthSpace !in r
  {
    var urlsRemoved := stages.removeUrls(raw);
    var emailsRemoved := RemoveEmails(urlsRemoved);
    var hashesRemoved := RemoveHashes(emailsRemoved);
    var phoneNumbersRemoved := stages.removePhoneNumbers(hashesRemoved);
    var typographyRemoved := Translate(phoneNumbersRemoved);
    var hyphensRemoved := Replace(Replace(typographyRemoved, '-', ' '), '/', ' ');
    var newlinesRemoved := Replace(Replace(hyphensRemoved, '\n', ' '), '\r', ' ');
    var contractionsRemoved := stages.fixContractions(newlinesRemoved);
    var possessivesRemoved := RemovePossessives(contractionsRemoved);
    var hyphensRemovedAgain := Replace(possessivesRemoved, '-', ' ');
    var acronymsRemoved := stages.removeAcronyms(hyphensRemovedAgain);
    var spaced := Replace(acronymsRemoved, ZeroWidthSpace, ' ');
    ReplaceSpec(acronymsRemoved, ZeroWidthSpace, ' ', ZeroWidthSpace);
    CollapseKeepsCharacters(spaced, ZeroWidthSpace);
    CollapseBlanks(spaced)
  }

  /** Whether a pass never introduces `c` into a text that lacks it. */
  ghost predicate KeepsOut(f: string -> string, c: char)
  {
    forall s :: c !in s ==> c !in f(s)
  }

  /**
   * Hyphens, slashes and line breaks are all replaced by spaces before the text is
   * split, provided the contraction fixer and the acronym remover do not put them
   * back; hyphens are replaced a second time after the contraction fixer, so for
   * them only the acronym remover matters.
   */
  lemma NormalizeSeparators(raw: string, stages: Stages, c: char)
    requires c in {'-', '/', '\n', '\r'}
    requires c != '-' ==> KeepsOut(stages.fixContractions, c)
    requires KeepsOut(stages.removeAcronyms, c)
    ensures c !in Normalize(raw, stages)
  {
    var phoneNumbersRemoved := stages.removePhoneNumbers(RemoveHashes(RemoveEmails(stages.removeUrls(raw))));
    var typographyRemoved := Translate(phoneNumbersRemoved);
    var a := Replace(typographyRemoved, '-', ' ');
    var b := Replace(a, '/', ' ');
    var d := Replace(b, '\n', ' ');
    var e := Replace(d, '\r', ' ');
    ReplaceSpec(typographyRemoved, '-', ' ', c);
    ReplaceSpec(a, '/', ' ', c);
    ReplaceSpec(b, '\n', ' ', c);
    ReplaceSpec(d, '\r', ' ', c);
    var contractionsRemoved := stages.fixContractions(e);
    var possessivesRemoved := RemovePossessives(contractionsRemoved);
    var f := Replace(possessivesRemoved, '-', ' ');
    ReplaceSpec(possessivesRemoved, '-', ' ', c);
    assert c !in f;
    var acronymsRemoved := stages.removeAcronyms(f);
    var spaced := Replace(acronymsRemoved, ZeroWidthSpace, ' ');
    ReplaceSpec(acronymsRemoved, ZeroWidthSpace, ' ', c);
    CollapseKeepsCharacters(spaced, c);
  }
}
