/**
 * The few Python `str` builtins the spelling analyser relies on, as functions on
 * `seq<char>`: character classes, `lower`, `startswith`/`endswith`,
 * `strip(string.punctuation)`, `split(' ')` and `' '.join`.
 *
 * Character classes follow Python where the class is small (`\s` is Python's full
 * whitespace set) and are restricted to ASCII where Python's is the whole Unicode
 * database (`\w`, `isdigit`, `isupper`, `lower`).
 */
module Text {

  /** `\s` in a Python `str` pattern, and the characters `str.isspace` accepts. */
  predicate IsSpace(c: char)
  {
    ('\t' <= c <= '\r') || ('\U{1C}' <= c <= '\U{1F}') || c == ' '
    || c == '\U{85}' || c == '\U{A0}' || c == '\U{1680}'
    || ('\U{2000}' <= c <= '\U{200A}') || c == '\U{2028}' || c == '\U{2029}'
    || c == '\U{202F}' || c == '\U{205F}' || c == '\U{3000}'
  }

  /** `\w`, restricted to ASCII. */
  predicate IsWordChar(c: char)
  {
    ('a' <= c <= 'z') || ('A' <= c <= 'Z') || ('0' <= c <= '9') || c == '_'
  }

  /** `str.isdigit` on one character, restricted to ASCII. */
  predicate IsDigit(c: char)
  {
    '0' <= c <= '9'
  }

  /** `str.isupper` on one character, restricted to ASCII. */
  predicate IsUpper(c: char)
  {
    'A' <= c <= 'Z'
  }

  /**
   * Membership in `string.punctuation`, the 32 ASCII characters
   * !"#$%&'()*+,-./:;<=>?@[\]^_`{|}~ — exactly the four ranges below.
   */
  predicate IsPunctuation(c: char)
  {
    ('!' <= c <= '/') || (':' <= c <= '@') || ('[' <= c <= '`') || ('{' <= c <= '~')
  }

  function LowerChar(c: char): (r: char)
    ensures IsUpper(c) ==> r != c && !IsUpper(r)
    ensures !IsUpper(c) ==> r == c
  {
    if IsUpper(c) then (c as int + 32) as char else c
  }

  /** `str.lower`, restricted to ASCII. */
  function Lower(s: string): (r: string)
    ensures |r| == |s|
    ensures forall i :: 0 <= i < |s| ==> r[i] == LowerChar(s[i])
  {
    seq(|s|, i requires 0 <= i < |s| => LowerChar(s[i]))
  }

  lemma {:induction false} LowerIdempotent(s: string)
    ensures Lower(Lower(s)) == Lower(s)
  {
    forall i | 0 <= i < |s|
      ensures Lower(Lower(s))[i] == Lower(s)[i]
    {
      assert !IsUpper(Lower(s)[i]);
    }
  }

  /** `str.startswith`. */
  predicate StartsWith(s: string, p: string)
  {
    |p| <= |s| && s[..|p|] == p
  }

  /** `str.endswith`. */
  predicate EndsWith(s: string, p: string)
  {
    |p| <= |s| && s[|s| - |p|..] == p
  }

  // ---------------------------------------------------------------------------
  // str.strip(string.punctuation)
  // ---------------------------------------------------------------------------

  function TrimStart(s: string): (r: string)
    ensures |r| <= |s| && r == s[|s| - |r|..]
    ensures forall i :: 0 <= i < |s| - |r| ==> IsPunctuation(s[i])
    ensures r != [] ==> !IsPunctuation(r[0])
  {
    if s != [] && IsPunctuation(s[0]) then TrimStart(s[1..]) else s
  }

  function TrimEnd(s: string): (r: string)
    ensures |r| <= |s| && r == s[..|r|]
    ensures forall i :: |r| <= i < |s| ==> IsPunctuation(s[i])
    ensures r != [] ==> !IsPunctuation(r[|r| - 1])
  {
    if s != [] && IsPunctuation(s[|s| - 1]) then
      var front := s[..|s| - 1];
      var r := TrimEnd(front);
      assert r == s[..|r|] by { assert front[..|r|] == s[..|r|]; }
      assert forall i :: |r| <= i < |front| ==> front[i] == s[i];
      r
    else s
  }

  /** `s.strip(string.punctuation)`: drops punctuation from both ends. */
  function Strip(s: string): (r: string)
  {
    TrimEnd(TrimStart(s))
  }

  /**
   * What `Strip` removes is punctuation, what it keeps is a contiguous piece of the
   * input, and that piece neither starts nor ends with punctuation.
   */
  lemma StripSpec(s: string)
    ensures var i := |s| - |TrimStart(s)|;
            var j := i + |Strip(s)|;
            0 <= i <= j <= |s| && Strip(s) == s[i..j]
            && (forall k :: 0 <= k < i ==> IsPunctuation(s[k]))
            && (forall k :: j <= k < |s| ==> IsPunctuation(s[k]))
    ensures Strip(s) != [] ==> !IsPunctuation(Strip(s)[0]) && !IsPunctuation(Strip(s)[|Strip(s)| - 1])
  {
    StripPiece(s);
    StripTail(s);
  }

  /** What `Strip` keeps is the piece of the input between what the two trims remove. */
  lemma StripPiece(s: string)
    ensures var i := |s| - |TrimStart(s)|; Strip(s) == s[i..i + |Strip(s)|]
  {
    SliceOfSuffix(s, |s| - |TrimStart(s)|, |Strip(s)|);
  }

  /** Everything after the piece `Strip` keeps is punctuation. */
  lemma StripTail(s: string)
    ensures forall k :: |s| - |TrimStart(s)| + |Strip(s)| <= k < |s| ==> IsPunctuation(s[k])
  {
    var t := TrimStart(s);
    var i := |s| - |t|;
    forall k | i + |Strip(s)| <= k < |s|
      ensures IsPunctuation(s[k])
    {
      assert s[k] == t[k - i];
    }
  }

  lemma SliceOfSuffix(s: string, i: nat, n: nat)
    requires i + n <= |s|
    ensures s[i..][..n] == s[i..i + n]
  {
  }

  lemma StripIdempotent(s: string)
    ensures Strip(Strip(s)) == Strip(s)
  {
    var r := Strip(s);
    if r != [] {
      assert !IsPunctuation(r[0]) && !IsPunctuation(r[|r| - 1]);
      assert TrimStart(r) == r;
    }
  }

  // ---------------------------------------------------------------------------
  // str.split(' ') and ' '.join
  // ---------------------------------------------------------------------------

  /**
   * `s.split(' ')`: the pieces between single spaces, empty pieces included, so
   * there is always at least one piece (`"".split(' ') == [""]`).
   */
  function Split(s: string): (r: seq<string>)
    ensures |r| >= 1
    ensures forall k :: 0 <= k < |r| ==> ' ' !in r[k]
  {
    if s == [] then [[]]
    else
      var rest := Split(s[1..]);
      if s[0] == ' ' then [[]] + rest
      else [[s[0]] + rest[0]] + rest[1..]
  }

  /** `sep.join(pieces)`. */
  function Join(pieces: seq<string>, sep: string): string
  {
    if pieces == [] then []
    else if |pieces| == 1 then pieces[0]
    else pieces[0] + sep + Join(pieces[1..], sep)
  }

  /** Splitting on single spaces loses nothing: joining the pieces gives the text back. */
  lemma {:induction false} JoinSplit(s: string)
    ensures Join(Split(s), " ") == s
  {
    if s != [] {
      var rest := Split(s[1..]);
      JoinSplit(s[1..]);
      if s[0] == ' ' {
        assert Split(s) == [[]] + rest;
        assert Join(Split(s), " ") == [] + " " + Join(rest, " ");
      } else {
        var r := Split(s);
        assert r == [[s[0]] + rest[0]] + rest[1..];
        if |rest| == 1 {
          assert Join(r, " ") == [s[0]] + rest[0];
        } else {
          assert r[1..] == rest[1..];
          assert Join(r, " ") == [s[0]] + rest[0] + " " + Join(rest[1..], " ");
        }
      }
    }
  }
}
