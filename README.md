# sitecomber-article-tests, modelled in Dafny

This project models the analysis core of the sitecomber article tests:

- **The spelling analyser** (`utils/spelling.py`):
  - the two affix rule tables and the order they get when the module loads;
  - the dictionary test;
  - the morphological simplifier (`get_simplification_options`, `apply_simplification`, `simplify_word`);
  - the text passes `remove_emails` and `remove_hashes`, and the other in-line passes of `get_misspelled_words`;
  - `get_misspelled_words` itself: candidate words, proper nouns, the dictionary test, the spelling library's `unknown`, and the final simplification loop.
- **The placeholder finder** `get_placeholder_words` (`utils/article.py`).
- **The two SEO checks** `has_meta_tags` and `has_socialmedia_tags` (`utils/seo.py`).

The modules follow the program's structure:

| module | file | what it holds |
|---|---|---|
| `Text` | `text.dfy` | The Python `str` operations the analyser relies on, on `seq<char>`. |
| `Affixes` | `affixes.dfy` | The suffix and prefix tables, the stable sort by pattern length and the reversal. It also proves that the loaded tables hold only shortening rules, longest patterns first. |
| `Simplifier` | `simplifier.dfy` | `is_in_dictionary`, the options, `apply_simplification`, and `simplify_word` as a function with a method beside it. The lemmas state the first-success search, its termination and its completeness. |
| `Normalizer` | `normalizer.dfy` | The text passes: emails, hashtags, the typographic table, replacements, possessives and the collapse of blanks. |
| `Misspelling` | `misspelling.dfy` | `get_misspelled_words` as a method whose two loops are proved against specification functions. |
| `Placeholders` | `placeholders.dfy` | `get_placeholder_words` as a method with the scan `re.finditer` performs. It proves the scan sound, complete and in order, and computes the placeholder unit test's sentence. |
| `Seo` | `seo.dfy` | `has_meta_tags` and `has_socialmedia_tags` as methods over an abstract parsed page. Their messages are a datatype, rendered to the exact texts. |

The simplifier takes its rule tables as a parameter of type `Affixes.Tables`. The program's own tables are `Affixes.Loaded`, the declared tables after the load-time sort and reversal. `Affixes.LoadedTables` proves that `Loaded` satisfies what the simplifier requires.

## Model

| member | source | states |
|---|---|---|
| Text.Split | sitecomber_article_tests/utils/spelling.py:331 | `split(' ')` gives at least one piece, and no piece holds a space |
| Text.JoinSplit | sitecomber_article_tests/utils/spelling.py:331 | joining the pieces of `split(' ')` with single spaces gives the text back |
| Text.StripSpec | sitecomber_article_tests/utils/spelling.py:344 | `strip(punctuation)` keeps the contiguous piece between the punctuation it removes at both ends; the piece neither starts nor ends with punctuation |
| Text.StripIdempotent | sitecomber_article_tests/utils/spelling.py:356 | stripping an already stripped word changes nothing, so the second strip of a proper noun is a no-op |
| Text.LowerIdempotent | sitecomber_article_tests/utils/spelling.py:357-362 | lower-casing twice is lower-casing once, so a lower-cased proper noun is its own lower-case form (used by `Misspelling.LowerSpellingExcluded`) |
| Affixes.DeclaredTablesShrink | sitecomber_article_tests/utils/spelling.py:39-177 | every declared suffix and prefix rule replaces its pattern by something strictly shorter |
| Affixes.SortByLength | sitecomber_article_tests/utils/spelling.py:179 | the sort keeps the table's length and its rules (same multiset) |
| Affixes.SortAscending | sitecomber_article_tests/utils/spelling.py:179 | the sorted table is ascending by pattern length |
| Affixes.SortKeepsGroups | sitecomber_article_tests/utils/spelling.py:179 | the sort is stable: rules of one pattern length keep their declaration order |
| Affixes.SortIsDeterminedByStability | sitecomber_article_tests/utils/spelling.py:179 | any ordering that is ascending and stable equals the one computed, so the result does not depend on which stable sort runs |
| Affixes.Reverse | sitecomber_article_tests/utils/spelling.py:180 | element i of the reversed table is element n-1-i of the table |
| Affixes.ReverseMultiset | sitecomber_article_tests/utils/spelling.py:180 | reversing keeps the rules |
| Affixes.ReverseKeepsGroupsReversed | sitecomber_article_tests/utils/spelling.py:180 | reversing reverses every length group |
| Affixes.LongestFirstOrder | sitecomber_article_tests/utils/spelling.py:179-182 | after sort and reverse a table holds the same rules, longest patterns first, and each length group in reverse declaration order |
| Affixes.LongestFirstShrinks | sitecomber_article_tests/utils/spelling.py:179-182 | the load-time ordering keeps every rule shortening |
| Affixes.TablesShrink | sitecomber_article_tests/utils/spelling.py:39-182 | every rule of both loaded tables is shortening |
| Affixes.LoadedTables | sitecomber_article_tests/utils/spelling.py:39-182 | the loaded tables are shortening and longest-first, as the simplifier needs |
| Affixes.LongestFirstKeeps | sitecomber_article_tests/utils/spelling.py:179-182 | a declared rule is still in the table after the load-time ordering |
| Affixes.DeclaredSuffixRules | sitecomber_article_tests/utils/spelling.py:58-123 | the suffix rules `erizer`→``, `s`→`` and `y`→`` are declared |
| Affixes.LoadedSuffixRules | sitecomber_article_tests/utils/spelling.py:58-182 | those three rules are in the loaded suffix table |
| Simplifier.IsInDictionaryCases | sitecomber_article_tests/utils/spelling.py:187-192 | a one-letter word is accepted iff it is a, i or o in either case, without the dictionary; any other word iff it is in the dictionary as written |
| Simplifier.MatchingSpec | sitecomber_article_tests/utils/spelling.py:198-214 | the options from one table are at most as many as its rules, all of that table's kind, all matching the word, and shrinking when the rules are |
| Simplifier.OptionsSpec | sitecomber_article_tests/utils/spelling.py:195-216 | every option matches the word at the required end, and shrinks it when the tables shrink |
| Simplifier.GetSimplificationOptions | sitecomber_article_tests/utils/spelling.py:195-216 | the two loops build exactly the matching prefix rules followed by the matching suffix rules, in table order |
| Simplifier.PositionsAreMatches | sitecomber_article_tests/utils/spelling.py:198-214 | a table position is listed iff its rule matches the word |
| Simplifier.MatchingAtPositions | sitecomber_article_tests/utils/spelling.py:198-214 | the k-th option is the rule at the k-th matching position of the table |
| Simplifier.MatchingComplete | sitecomber_article_tests/utils/spelling.py:207-214 | every rule of the table that matches the word is among the options |
| Simplifier.MatchingLongestFirst | sitecomber_article_tests/utils/spelling.py:198-214 | over a longest-first table the options have non-increasing pattern lengths |
| Simplifier.OptionsOrder | sitecomber_article_tests/utils/spelling.py:195-216 | prefix options come before suffix options, each kind longest pattern first |
| Simplifier.ApplySpec | sitecomber_article_tests/utils/spelling.py:219-228 | a matching rule swaps its pattern for its replacement and keeps the rest of the word; a non-matching one leaves the word alone; the new length is the old one minus the pattern plus the replacement |
| Simplifier.EmptySuffixPatternKeepsOnlyReplacement | sitecomber_article_tests/utils/spelling.py:226 | with an empty suffix pattern `word[:-0]` is empty, so only the replacement is left |
| Simplifier.OptionsShorten | sitecomber_article_tests/utils/spelling.py:243-252 | with shrinking tables every option shortens the word, which is why the recursion ends |
| Simplifier.Simplify | sitecomber_article_tests/utils/spelling.py:231-256 | the result is the word itself or a dictionary word, and a changed result is shorter |
| Simplifier.FirstSuccess | sitecomber_article_tests/utils/spelling.py:243-256 | the rest of the loop returns the word or a dictionary word shorter than it |
| Simplifier.Attempt | sitecomber_article_tests/utils/spelling.py:245-255 | one turn of the loop gives something shorter than the word |
| Simplifier.SimplifyWord | sitecomber_article_tests/utils/spelling.py:231-256 | the recursive method with its early returns computes `Simplify` |
| Simplifier.FirstSuccessIsFirst | sitecomber_article_tests/utils/spelling.py:243-256 | when option k is the first that succeeds, its outcome is returned; when none does, the word is |
| Simplifier.SimplifyIsFirstSuccess | sitecomber_article_tests/utils/spelling.py:231-256 | `simplify_word` returns the outcome of the first succeeding option of the word, or the word when none succeeds |
| Simplifier.NoOptionsNoChange | sitecomber_article_tests/utils/spelling.py:239-241 | a word no rule matches comes back unchanged |
| Simplifier.ValidStaysValid | sitecomber_article_tests/utils/spelling.py:231-256 | a dictionary word simplifies to a dictionary word |
| Simplifier.FirstSuccessComplete | sitecomber_article_tests/utils/spelling.py:243-255 | if some later option succeeds, the loop returns a dictionary word shorter than the word |
| Simplifier.SearchIsComplete | sitecomber_article_tests/utils/spelling.py:231-256 | if any option's rewrite is, or simplifies to, a dictionary word, `simplify_word` returns a dictionary word shorter than its input |
| Simplifier.SuffixOption | sitecomber_article_tests/utils/spelling.py:207-214 | a suffix rule of the tables that the word ends with is one of its options |
| Simplifier.MustardyExample | sitecomber_article_tests/unit_tests/spelling.py:14-16 | with `y`→`` among shrinking suffix rules and `mustard` in the dictionary, `mustardy` simplifies to a shorter dictionary word |
| Simplifier.MoisterizersExample | sitecomber_article_tests/unit_tests/spelling.py:14-16 | with `s`→`` and `erizer`→`` and `moist` in the dictionary, `moisterizers` simplifies to a shorter dictionary word |
| Simplifier.LoadedExamples | sitecomber_article_tests/unit_tests/spelling.py:14-16 | both unit-test words reach a dictionary word under the loaded tables |
| Normalizer.RemoveEmails | sitecomber_article_tests/utils/spelling.py:259-260 | no `@` is left, every character kept is from the input or a space, and text without `@` is unchanged |
| Normalizer.EmailRunRemoved | sitecomber_article_tests/utils/spelling.py:259-260 | a non-space run holding an `@`, with the whitespace after it, becomes one space |
| Normalizer.PlainRunKept | sitecomber_article_tests/utils/spelling.py:259-260 | a non-space run without an `@` is kept as it is |
| Normalizer.SpaceKept | sitecomber_article_tests/utils/spelling.py:259-260 | whitespace outside an address is copied and the scan goes on at the next character |
| Normalizer.EmailRunEndsText | sitecomber_article_tests/utils/spelling.py:259-260 | an address run that ends the text, with no whitespace after it, becomes one space |
| Normalizer.RemoveHashes | sitecomber_article_tests/utils/spelling.py:263-264 | no `#` followed by a word character is left, and text without `#` is unchanged |
| Normalizer.HashtagRemoved | sitecomber_article_tests/utils/spelling.py:263-264 | `#` with the longest run of word characters after it becomes one space, and the scan goes on after it |
| Normalizer.NonHashtagKept | sitecomber_article_tests/utils/spelling.py:263-264 | a character that is not a `#` followed by a word character is copied and the scan goes on at the next one |
| Normalizer.TranslateChar | sitecomber_article_tests/utils/spelling.py:313 | a translated character is never typographic, other characters are kept, and typographic ones become a quote, `-` or `.` |
| Normalizer.TranslateSpec | sitecomber_article_tests/utils/spelling.py:313-314 | after translation no typographic character is left, other characters are in place, and translating twice is translating once |
| Normalizer.ReplaceSpec | sitecomber_article_tests/utils/spelling.py:315-316 | after `replace` the replaced character is gone and nothing new but the replacement appears |
| Normalizer.RemovePossessives | sitecomber_article_tests/utils/spelling.py:322 | the result is no longer than the text, uses only its characters, and text without `'s ` is unchanged |
| Normalizer.PossessiveRemoved | sitecomber_article_tests/utils/spelling.py:322 | a `'s ` where the scan stands becomes one space and the scan goes on after it |
| Normalizer.PossessiveKept | sitecomber_article_tests/utils/spelling.py:322 | a character that does not start `'s ` is copied and the scan goes on at the next one |
| Normalizer.PossessiveScanIsSinglePass | sitecomber_article_tests/utils/spelling.py:322 | the substitution does not rescan its own output: `'s's ` becomes `'s ` |
| Normalizer.CollapseBlanks | sitecomber_article_tests/utils/spelling.py:325 | no tab and no two spaces in a row remain, the non-blank characters are kept in order, and a leading run of blanks becomes a leading space |
| Normalizer.BlankRunCollapsed | sitecomber_article_tests/utils/spelling.py:325 | a maximal run of spaces and tabs becomes exactly one space and the scan resumes after it |
| Normalizer.NonBlankKept | sitecomber_article_tests/utils/spelling.py:325 | a character other than a space or tab is copied and the scan goes on at the next one |
| Normalizer.CollapseCondensed | sitecomber_article_tests/utils/spelling.py:325 | condensed text is left as it is |
| Normalizer.CollapseIdempotent | sitecomber_article_tests/utils/spelling.py:325 | collapsing twice is collapsing once |
| Normalizer.CollapseKeepsCharacters | sitecomber_article_tests/utils/spelling.py:325 | collapsing introduces no character other than a space |
| Normalizer.Normalize | sitecomber_article_tests/utils/spelling.py:303-325 | the text handed to the split has no tab, no double space and no zero-width space |
| Normalizer.NormalizeSeparators | sitecomber_article_tests/utils/spelling.py:313-325 | hyphens, slashes and line breaks are gone before the split, as long as the passes not modelled do not put them back |
| Misspelling.WithoutLowered | sitecomber_article_tests/utils/spelling.py:336 | a token is kept iff its lower-case form is not in the excluded set; used with the stop words here and with the lower-cased proper nouns at line 362 |
| Misspelling.StrippedWords | sitecomber_article_tests/utils/spelling.py:344 | every non-empty token not starting with a digit appears stripped |
| Misspelling.StrippedWordOrigin | sitecomber_article_tests/utils/spelling.py:344 | every stripped word comes from such a token |
| Misspelling.NonEmptyWords | sitecomber_article_tests/utils/spelling.py:349 | a word is kept iff it is non-empty |
| Misspelling.CandidateWordsSpec | sitecomber_article_tests/utils/spelling.py:331-349 | a candidate is a non-empty, space-free token of the text, not a stop word, not starting with a digit, stripped, so it neither starts nor ends with punctuation |
| Misspelling.ProperNouns | sitecomber_article_tests/utils/spelling.py:353-356 | every capitalised candidate that does not simplify to a dictionary word appears, stripped |
| Misspelling.ProperNounOrigin | sitecomber_article_tests/utils/spelling.py:353-356 | every proper noun comes from such a candidate |
| Misspelling.CheckWordsSpec | sitecomber_article_tests/utils/spelling.py:357-365 | a word is checked iff it is a candidate and its lower-case form equals no proper noun's lower-case form |
| Misspelling.QueriedSpec | sitecomber_article_tests/utils/spelling.py:357-375 | a word is handed to the spelling library iff it is a candidate, matches no proper noun up to case, and its lower-case form is not a dictionary word |
| Misspelling.Misspelled | sitecomber_article_tests/utils/spelling.py:380-384 | at most one entry per unknown word, and no entry is a dictionary word |
| Misspelling.MisspelledOrigin | sitecomber_article_tests/utils/spelling.py:380-384 | every entry is the simplification of an unknown word |
| Misspelling.MisspelledComplete | sitecomber_article_tests/utils/spelling.py:380-384 | every unknown word whose simplification is not a dictionary word has that simplification reported |
| Misspelling.CollectProperNouns | sitecomber_article_tests/utils/spelling.py:353-356 | the proper-noun loop computes `ProperNouns` |
| Misspelling.CollectMisspelled | sitecomber_article_tests/utils/spelling.py:380-384 | the final loop computes `Misspelled` |
| Misspelling.GetMisspelledWords | sitecomber_article_tests/utils/spelling.py:293-389 | the whole analysis computes `MisspelledWords`; no reported word is a dictionary word, and there are at most as many as unknown words |
| Misspelling.ProperNounsExcluded | sitecomber_article_tests/utils/spelling.py:353-365 | once a word is taken for a proper noun, no candidate equal to it up to case is checked |
| Misspelling.LowerSpellingExcluded | sitecomber_article_tests/utils/spelling.py:357-362 | the all-lower-case spelling of a proper noun is not checked |
| Misspelling.MisspelledComeFromQueries | sitecomber_article_tests/utils/spelling.py:365-389 | when `unknown` only returns words it was given, every reported word is the simplification of a checked word that is not in the dictionary, and is not a dictionary word itself |
| Misspelling.UnknownWordsReported | sitecomber_article_tests/utils/spelling.py:373-389 | every word the spelling library returns whose simplification is not a dictionary word is in the result, as that simplification |
| Misspelling.GetMisspelledWordsWithLoadedTables | sitecomber_article_tests/utils/spelling.py:179-182 | the analysis runs with the loaded tables, which meet its requirement |
| Placeholders.GetPlaceholderWords | sitecomber_article_tests/utils/article.py:70-78 | the nested loops compute `PlaceholderWords`: each placeholder's matches in turn |
| Placeholders.OccurrencesAreMatches | sitecomber_article_tests/utils/article.py:74-76 | every reported string is the text at a whole-word, case-insensitive match, in the text's own casing, with no word character beside it |
| Placeholders.WholeWord | sitecomber_article_tests/utils/article.py:74 | a match of a placeholder has no word character right before or after it |
| Placeholders.NoOverlap | sitecomber_article_tests/utils/article.py:74-75 | two matches of a placeholder never overlap |
| Placeholders.OccurrencesFindAll | sitecomber_article_tests/utils/article.py:74-76 | the scan reports every match not overlapped by an earlier one |
| Placeholders.FindsEveryOccurrence | sitecomber_article_tests/utils/article.py:74-76 | every whole-word occurrence in the text is reported |
| Placeholders.OccurrencesInOrder | sitecomber_article_tests/utils/article.py:74-76 | the matches are reported in text order, at increasing positions that do not overlap |
| Placeholders.NoOccurrenceNothingFound | sitecomber_article_tests/utils/article.py:70-78 | with no match of any placeholder, nothing is found |
| Placeholders.NoMatchNoOccurrence | sitecomber_article_tests/utils/article.py:74-76 | with no match from a position on, the scan reports nothing |
| Placeholders.FoundAreSpellingsOfPlaceholders | sitecomber_article_tests/utils/article.py:70-78 | every found string equals some placeholder up to case |
| Placeholders.SkipNoMatch | sitecomber_article_tests/utils/article.py:74-75 | the scan passes over positions without a match |
| Placeholders.OccurrencesShift | sitecomber_article_tests/utils/article.py:74-75 | after a non-word character, scanning the rest of the text is scanning that rest alone |
| Placeholders.WordThenSpace | sitecomber_article_tests/utils/article.py:74-76 | a word then a space: the word is reported iff it spells the placeholder, then the scan goes on after the space |
| Placeholders.LastWord | sitecomber_article_tests/utils/article.py:74-76 | a single word is reported iff it spells the placeholder |
| Placeholders.SpellingsMembers | sitecomber_article_tests/utils/article.py:74-76 | the spellings of a placeholder among words are exactly the words equal to it up to case |
| Placeholders.OccurrencesInSentence | sitecomber_article_tests/utils/article.py:74-76 | in words of word characters joined by single spaces, the matches are exactly the words that spell the placeholder, in order |
| Placeholders.PlaceholderWordsInSentence | sitecomber_article_tests/utils/article.py:70-78 | for such a sentence the result is, placeholder by placeholder, the words spelling it |
| Placeholders.PlaceholderExample | sitecomber_article_tests/unit_tests/placeholder.py:7-12 | in the unit test's sentence with `lorem`, `ipsum`, `tk`, `todo`, the result is `lorem`, `Lorem`, `TODO` |
| Seo.NatToString | sitecomber_article_tests/utils/seo.py:50-54 | a length renders as a non-empty decimal numeral without leading zero |
| Seo.NatToStringRoundTrip | sitecomber_article_tests/utils/seo.py:50-54 | the rendered numeral reads back as the length |
| Seo.ContentTypeLookup | sitecomber_article_tests/utils/seo.py:23-27 | with a `Content-Type` tag, Content-Type is reported missing iff that tag's content is empty, whatever a `content-type` tag holds; without one, iff the `content-type` tag is missing or empty |
| Seo.EmptyUpperHidesLower | sitecomber_article_tests/utils/seo.py:23-27 | an empty `Content-Type` tag is reported missing even beside a filled-in `content-type` tag |
| Seo.HasMetaTags | sitecomber_article_tests/utils/seo.py:16-71 | correct iff all four tags have non-empty values; error iff one is missing; warning iff all are there and the title is over 70 or the description over 155 characters; the joined messages; the four values under `tags`, or no data |
| Seo.MetaMessagesShape | sitecomber_article_tests/utils/seo.py:26-55 | there is always a message: only the missing-tag ones when a tag is missing, else the well-structured one first and one warning per over-long value |
| Seo.MissingMessagesReported | sitecomber_article_tests/utils/seo.py:26-42 | each missing-tag message appears iff that tag is missing |
| Seo.WellStructuredReported | sitecomber_article_tests/utils/seo.py:44-47 | the well-structured message appears iff all four tags are there |
| Seo.WarningsReported | sitecomber_article_tests/utils/seo.py:49-55 | each length warning appears iff all tags are there and that value is too long |
| Seo.WarningsReportLengths | sitecomber_article_tests/utils/seo.py:49-55 | a warning carries the actual length |
| Seo.FormatInjective | sitecomber_article_tests/utils/seo.py:146-150 | with underscore-free attribute names, the formatted key determines the tag, so no data entry overwrites another |
| Seo.CheckTags | sitecomber_article_tests/utils/seo.py:121-129 | the first loop: correct iff every tag is there, one not-found message per missing tag in list order |
| Seo.CollectTags | sitecomber_article_tests/utils/seo.py:145-150 | the second loop: the keys are the formatted tags, each mapped to its lookup |
| Seo.HasSocialMediaTags | sitecomber_article_tests/utils/seo.py:108-153 | correct and success iff all seven minimum tags are there, else error; the joined messages; exactly the 21 formatted tags as keys, each with its lookup |
| Seo.MissingTagsSpec | sitecomber_article_tests/utils/seo.py:121-129 | a not-found message names a tag iff it is listed and missing; no messages iff all are there |
| Seo.SocialMessagesShape | sitecomber_article_tests/utils/seo.py:116-131 | the all-found message alone when every minimum tag is there, else between one and seven not-found messages for exactly the missing tags |

## Left out

**Text and character handling**
- `\w`, `str.isdigit`, `str.isupper` and `str.lower` are restricted to ASCII. Python's versions cover the whole Unicode database. `\s` is Python's full whitespace set.
- `len` is the number of code points (Dafny `char`s), as in Python 3.

**Passes and libraries that are not modelled**
- `remove_urls`, `remove_phonenumbers`, `contractions.fix` and `remove_acronyms` are parameters of `Normalizer.Normalize` (the `Stages` value). Their regular expressions are not modelled.
- The stop-word list (NLTK) and the spelling library's `SpellChecker.unknown` are parameters (`Misspelling.Externals`).
  - `unknown` returns a set. Its iteration order is unspecified, so it is modelled as a function returning a sequence.
- `list(set(...))` at line 365 is modelled as a set; the order in which Python iterates it is not modelled.
- The dictionary, with the caller's known words, is a parameter. `dictionary.py` and `check_spelling` are not part of this model.
- Logging and the `debug` flag are left out; they do not change any result.

**Placeholders and SEO**
- `get_placeholder_words` is modelled for placeholders made only of word characters (the `IsWord` requirement). This excludes placeholders holding regular-expression metacharacters, which change the pattern's meaning. It also excludes placeholders with a space, a hyphen or an apostrophe, which the code would match literally; the model says nothing about those.
- The SEO checks see the parsed page as a lookup from an attribute/value pair to the first matching `<meta>` tag's `content`, plus the title text. BeautifulSoup parsing is not modelled.
  - A found tag without a `content` attribute raises `KeyError` in the code; that error is not modelled.

**Where the code and the written description differ (the model follows the code)**
- The ellipsis becomes a single `.`.
- The bullet glyphs become `-` rather than being removed.
- `simplify_word` has no depth bound. It terminates mathematically because every rule shortens the word (`Simplifier.OptionsShorten`).
- The misspelled list is not deduplicated.

**Other modelling choices**
- The rule tables are passed to the simplifier as a parameter; the program's own are `Affixes.Loaded`.
- An empty suffix pattern would remove the whole word (`word[:-0]` is empty). No declared rule has one, and `Simplifier.EmptySuffixPatternKeepsOnlyReplacement` records the behaviour.
- Simplifier.Simplify: returns a value for every word. The code recurses once per rewrite, so a word admitting a chain of about a thousand rewrites (a capitalised token ending in a thousand `s` characters, say) exceeds Python's recursion limit and `get_misspelled_words` raises `RecursionError`; that error is not modelled. Nor is running time: the search is not memoised and can take time exponential in the word's length.
- Simplifier.MustardyExample: states that `mustardy` simplifies to a shorter dictionary word under any tables holding the rule it needs, not that the word is exactly `mustard`. A one-letter `a`, `i` or `o` would also count as a dictionary word.
- Simplifier.MoisterizersExample: states, in the same way, a shorter dictionary word rather than exactly `moist`.
- Simplifier.LoadedExamples: states that both unit-test words reach a dictionary word under the loaded tables, not which one. The other seven words of that unit test are not modelled.
- The SEO messages are a datatype rendered to the exact texts (`Seo.MetaText`, `Seo.SocialText`). The reports are stated over the datatype.
